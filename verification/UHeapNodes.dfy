/** The region nodes of a user heap: blocks of the kernel heap, taken and given back one by one. */
module UHeapNodes {
  import opened PageTables
  import opened PagingSpaces
  import opened KHeapBlocks
  import opened KernelHeap
  import KP = KHeapPages

  /** Bytes of a region node. */
  const NODE: nat := 32

  /** The blocks `mine` are used blocks of the kernel heap. */
  ghost predicate Owns(bs: seq<Block>, mine: seq<Block>) {
    multiset(mine) <= multiset(Used(bs))
  }

  /** The used blocks of everybody else. */
  ghost function Foreign(bs: seq<Block>, mine: seq<Block>): multiset<Block> {
    multiset(Used(bs)) - multiset(mine)
  }

  /** Each pointer is the payload of its block, which has room for a node. */
  ghost predicate Named(nodes: seq<nat>, mine: seq<Block>) {
    |nodes| == |mine|
    && forall i {:trigger nodes[i]} {:trigger mine[i]} :: 0 <= i < |nodes| ==> mine[i].Payload() == nodes[i] && NODE <= mine[i].size
  }

  function Drop<T>(s: seq<T>, k: nat): seq<T>
    requires k < |s|
  {
    s[..k] + s[k + 1..]
  }

  lemma DropNamed(nodes: seq<nat>, mine: seq<Block>, k: nat)
    requires Named(nodes, mine) && k < |mine|
    ensures Named(Drop(nodes, k), Drop(mine, k))
  {
    forall i | 0 <= i < |mine| - 1
      ensures Drop(mine, k)[i].Payload() == Drop(nodes, k)[i] && NODE <= Drop(mine, k)[i].size
    {
      var j := if i < k then i else i + 1;
      assert Drop(nodes, k)[i] == nodes[j] && Drop(mine, k)[i] == mine[j];
    }
  }

  lemma DropOne<T>(s: seq<T>, k: nat)
    requires k < |s|
    ensures multiset(s) == multiset(Drop(s, k)) + multiset{s[k]}
  {
    assert s == s[..k] + [s[k]] + s[k + 1..];
  }

  /** A served request adds one block to what the owner has and none to anybody else. */
  lemma NodeServed(bs: seq<Block>, now: seq<Block>, end: nat, end': nat, r: nat, mine: seq<Block>) returns (b: Block)
    requires ServedFrom(bs, now, end, end', NODE, r) && Tiling(bs, KP.HEAP_START, end) && Owns(bs, mine)
    ensures b.Payload() == r && NODE <= b.size && Owns(now, [b] + mine)
    ensures Foreign(now, [b] + mine) == Foreign(bs, mine) && end' <= end + 4096
  {
    hide Used, Tiling;
    ServedGives(bs, now, end, end', NODE, r);
    var j :| 0 <= j < |now| && NewBlock(bs, now, NODE, r, j);
    b := now[j];
    EndMoves(bs, now, end, end', r);
    assert multiset([b] + mine) == multiset(mine) + multiset{b};
  }

  lemma EndMoves(bs: seq<Block>, now: seq<Block>, end: nat, end': nat, r: nat)
    requires ServedFrom(bs, now, end, end', NODE, r)
    ensures end' <= end + 4096
  {
    hide Carved, NoFit, FirstFit;
    var k :| 0 <= k <= |bs| && ServedAt(bs, now, end, end', NODE, r, k);
  }

  lemma {:induction false} UsedIsThere(bs: seq<Block>, b: Block) returns (i: nat)
    requires b in Used(bs)
    ensures i < |bs| && bs[i] == b && !b.free
  {
    if !bs[0].free && bs[0] == b {
      i := 0;
    } else {
      i := UsedIsThere(bs[1..], b);
      i := i + 1;
    }
  }

  /** The place of an owned block in the list. */
  lemma NodeIndex(bs: seq<Block>, mine: seq<Block>, k: nat) returns (i: nat)
    requires Owns(bs, mine) && k < |mine|
    ensures i < |bs| && bs[i] == mine[k] && !bs[i].free
  {
    assert mine[k] in multiset(mine);
    assert mine[k] in multiset(Used(bs));
    i := UsedIsThere(bs, mine[k]);
  }

  /** Freeing an owned block takes it from its owner and from nobody else. */
  lemma NodeFreed(bs: seq<Block>, end: nat, i: nat, mine: seq<Block>, k: nat)
    requires Tiling(bs, KP.HEAP_START, end) && Owns(bs, mine) && k < |mine| && i < |bs| && bs[i] == mine[k] && !bs[i].free
    ensures Owns(FreedAt(bs, i), Drop(mine, k)) && Foreign(FreedAt(bs, i), Drop(mine, k)) == Foreign(bs, mine)
  {
    FreedGives(bs, end, i);
    UsedWithout(bs, i);
    hide FreedAt, Tiling, Used, Drop;
    UsedOneMore(Used(bs[..i]), bs[i], Used(bs[i + 1..]));
    assert multiset(Used(bs)) == multiset(Used(FreedAt(bs, i))) + multiset{bs[i]};
    DropOne(mine, k);
    OneLess(multiset(Used(bs)), multiset(Used(FreedAt(bs, i))), multiset(mine), multiset(Drop(mine, k)), bs[i]);
  }

  lemma OneLess(u: multiset<Block>, u': multiset<Block>, m: multiset<Block>, m': multiset<Block>, b: Block)
    requires u == u' + multiset{b} && m == m' + multiset{b} && m <= u
    ensures m' <= u' && u' - m' == u - m
  {
    forall x: Block ensures m'[x] <= u'[x] { assert m[x] <= u[x]; }
  }

  /** Work inside a user space leaves the kernel heap's pages as they are. */
  lemma SpaceKeepsHeapPages(vm: Vm, w: Vm, r: nat, n: nat)
    requires OnlySpace(vm, w, r) && r != vm.kernel && Sound(vm) && KP.HeapPages(vm, n)
    ensures KP.HeapPages(w, n)
  {
    assert vm.kernel in vm.roots;
    hide Sound, Translate, KP.KPage, HeldBy, Elsewhere;
    forall m: nat | m < n ensures KP.KBacked(w, m) { assert KP.KBacked(vm, m); }
    forall m: nat | n <= m < KP.KPAGES ensures KP.KAbsent(w, m) { assert KP.KAbsent(vm, m); }
  }
}
