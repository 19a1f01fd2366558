/** The kernel heap's block list as a value: an address-ordered tiling of the heap. */
module KHeapBlocks {

  /** Size of a block header. */
  const HEADER: nat := 32

  datatype Block = Block(addr: nat, size: nat, free: bool) {
    function Payload(): nat { addr + HEADER }
    function End(): nat { addr + HEADER + size }
    predicate Fits(n: nat) { free && n <= size }
  }

  /** The blocks lie end to end from `lo` to `hi`; sizes are positive multiples of 16. */
  ghost predicate Tiling(bs: seq<Block>, lo: nat, hi: nat) {
    && (if bs == [] then lo == hi else bs[0].addr == lo && bs[|bs| - 1].End() == hi)
    && (forall i {:trigger bs[i]} :: 0 <= i < |bs| ==> 0 < bs[i].size && bs[i].size % 16 == 0)
    && (forall i, j {:trigger bs[i], bs[j]} :: 0 <= i < |bs| && j == i + 1 && j < |bs| ==> bs[i].End() == bs[j].addr)
  }

  function Total(bs: seq<Block>): nat {
    if bs == [] then 0 else HEADER + bs[0].size + Total(bs[1..])
  }

  lemma {:induction false} TilingTail(bs: seq<Block>, lo: nat, hi: nat)
    requires Tiling(bs, lo, hi) && bs != []
    ensures Tiling(bs[1..], bs[0].End(), hi)
  {
    var t := bs[1..];
    forall i | 0 <= i < |t| ensures 0 < t[i].size && t[i].size % 16 == 0 { assert t[i] == bs[i + 1]; }
    forall i, j | 0 <= i < |t| && j == i + 1 && j < |t| ensures t[i].End() == t[j].addr {
      assert t[i] == bs[i + 1] && t[j] == bs[j + 1];
    }
    if t != [] { assert t[0] == bs[1] && bs[0].End() == bs[1].addr; }
  }

  /** Sizes and headers add up to the length of the heap. */
  lemma {:induction false} TilingTotal(bs: seq<Block>, lo: nat, hi: nat)
    requires Tiling(bs, lo, hi)
    ensures lo + Total(bs) == hi
  {
    if bs != [] {
      TilingTail(bs, lo, hi);
      TilingTotal(bs[1..], bs[0].End(), hi);
    }
  }

  /** Blocks do not overlap: every later block starts at or after the end of an earlier one. */
  lemma {:induction false} TilingOrdered(bs: seq<Block>, lo: nat, hi: nat, i: nat, j: nat)
    requires Tiling(bs, lo, hi) && i < j < |bs|
    ensures bs[i].End() <= bs[j].addr
  {
    if j > i + 1 {
      TilingOrdered(bs, lo, hi, i, j - 1);
      assert bs[j - 1].End() == bs[j].addr;
    } else {
      assert bs[i].End() == bs[j].addr;
    }
  }

  lemma {:induction false} TilingAligned(bs: seq<Block>, lo: nat, hi: nat, i: nat)
    requires Tiling(bs, lo, hi) && lo % 16 == 0 && i < |bs|
    ensures bs[i].addr % 16 == 0 && bs[i].Payload() % 16 == 0 && lo <= bs[i].addr && bs[i].End() <= hi
  {
    if i > 0 {
      TilingAligned(bs, lo, hi, i - 1);
      assert bs[i - 1].End() == bs[i].addr && bs[i - 1].size % 16 == 0;
      NextAligned(bs[i - 1]);
    }
    TilingBounded(bs, lo, hi, i);
    PayloadAligned(bs[i]);
    hide Tiling;
  }

  lemma NextAligned(b: Block)
    requires b.addr % 16 == 0 && b.size % 16 == 0
    ensures b.End() % 16 == 0
  {
  }

  lemma PayloadAligned(b: Block)
    ensures b.addr % 16 == 0 ==> b.Payload() % 16 == 0
  {
  }

  lemma TilingBounded(bs: seq<Block>, lo: nat, hi: nat, i: nat)
    requires Tiling(bs, lo, hi) && i < |bs|
    ensures bs[i].End() <= hi && (i == 0 ==> bs[i].addr == lo)
  {
    if i < |bs| - 1 { TilingOrdered(bs, lo, hi, i, |bs| - 1); }
  }

  // ------------------------------------------------------------------ carving

  /** The first block that can serve `n` bytes. */
  ghost predicate FirstFit(bs: seq<Block>, n: nat, i: nat) {
    i < |bs| && bs[i].Fits(n) && forall j :: 0 <= j < i ==> !bs[j].Fits(n)
  }

  ghost predicate NoFit(bs: seq<Block>, n: nat) {
    forall j :: 0 <= j < |bs| ==> !bs[j].Fits(n)
  }

  predicate Splits(b: Block, n: nat) { b.size > n + HEADER + 1 }

  /** What serving `n` bytes makes of a block. */
  function Served(b: Block, n: nat): seq<Block>
    requires n <= b.size
  {
    if Splits(b, n) then [Block(b.addr, n, false), Block(b.addr + HEADER + n, b.size - n - HEADER, true)]
    else [b.(free := false)]
  }

  function Carved(bs: seq<Block>, i: nat, n: nat): seq<Block>
    requires i < |bs| && n <= bs[i].size
  {
    bs[..i] + Served(bs[i], n) + bs[i + 1..]
  }

  lemma {:induction false} TilingAppend(a: seq<Block>, b: seq<Block>, lo: nat, mid: nat, hi: nat)
    requires Tiling(a, lo, mid) && Tiling(b, mid, hi)
    ensures Tiling(a + b, lo, hi)
  {
    var c := a + b;
    forall i | 0 <= i < |c| ensures 0 < c[i].size && c[i].size % 16 == 0 {
      if i < |a| { assert c[i] == a[i]; } else { assert c[i] == b[i - |a|]; }
    }
    forall i, j | 0 <= i < |c| && j == i + 1 && j < |c| ensures c[i].End() == c[j].addr {
      if j < |a| {
        assert c[i] == a[i] && c[j] == a[j];
      } else if i >= |a| {
        assert c[i] == b[i - |a|] && c[j] == b[j - |a|];
      } else {
        assert c[i] == a[|a| - 1] && c[j] == b[0];
      }
    }
  }

  lemma TilingSplit(bs: seq<Block>, lo: nat, hi: nat, i: nat)
    requires Tiling(bs, lo, hi) && i < |bs|
    ensures Tiling(bs[..i], lo, bs[i].addr) && Tiling(bs[i + 1..], bs[i].End(), hi)
  {
    var a, b := bs[..i], bs[i + 1..];
    forall k | 0 <= k < |a| ensures 0 < a[k].size && a[k].size % 16 == 0 { assert a[k] == bs[k]; }
    forall k, j | 0 <= k < |a| && j == k + 1 && j < |a| ensures a[k].End() == a[j].addr {
      assert a[k] == bs[k] && a[j] == bs[j];
    }
    forall k | 0 <= k < |b| ensures 0 < b[k].size && b[k].size % 16 == 0 { assert b[k] == bs[i + 1 + k]; }
    forall k, j | 0 <= k < |b| && j == k + 1 && j < |b| ensures b[k].End() == b[j].addr {
      assert b[k] == bs[i + 1 + k] && b[j] == bs[i + 1 + j];
    }
    if i > 0 { assert bs[i - 1].End() == bs[i].addr; }
    if i + 1 < |bs| { assert bs[i].End() == bs[i + 1].addr; }
  }

  /** Serving a request keeps the tiling. */
  lemma ServedTiles(bs: seq<Block>, lo: nat, hi: nat, i: nat, n: nat)
    requires Tiling(bs, lo, hi) && i < |bs| && 0 < n <= bs[i].size && n % 16 == 0
    ensures Tiling(Served(bs[i], n), bs[i].addr, bs[i].End())
  {
    var b := bs[i];
    SplitTiles(b, n);
  }

  lemma SplitTiles(b: Block, n: nat)
    requires 0 < n <= b.size && n % 16 == 0 && b.size % 16 == 0
    ensures Tiling(Served(b, n), b.addr, b.End())
  {
    assert (b.size - n - HEADER) % 16 == 0;
  }

  lemma CarveKeepsTiling(bs: seq<Block>, lo: nat, hi: nat, i: nat, n: nat)
    requires Tiling(bs, lo, hi) && i < |bs| && 0 < n <= bs[i].size && n % 16 == 0
    ensures Tiling(Carved(bs, i, n), lo, hi)
  {
    hide Tiling, Served;
    TilingSplit(bs, lo, hi, i);
    ServedTiles(bs, lo, hi, i, n);
    TilingAppend(bs[..i], Served(bs[i], n), lo, bs[i].addr, bs[i].End());
    TilingAppend(bs[..i] + Served(bs[i], n), bs[i + 1..], lo, bs[i].End(), hi);
  }

  /** The blocks in use. */
  function Used(bs: seq<Block>): seq<Block> {
    if bs == [] then [] else (if bs[0].free then [] else [bs[0]]) + Used(bs[1..])
  }

  lemma {:induction false} UsedAppend(a: seq<Block>, b: seq<Block>)
    ensures Used(a + b) == Used(a) + Used(b)
  {
    if a == [] {
      assert a + b == b;
    } else {
      assert (a + b)[1..] == a[1..] + b;
      UsedAppend(a[1..], b);
    }
  }

  /** Serving a free block adds exactly one used block, at its place, and keeps all others. */
  lemma {:induction false} CarveUses(bs: seq<Block>, i: nat, n: nat)
    requires i < |bs| && bs[i].Fits(n)
    ensures Used(Carved(bs, i, n)) == Used(bs[..i]) + [Served(bs[i], n)[0]] + Used(bs[i + 1..])
    ensures Used(bs) == Used(bs[..i]) + Used(bs[i + 1..])
    ensures Served(bs[i], n)[0].addr == bs[i].addr && n <= Served(bs[i], n)[0].size
  {
    ServedUses(bs[i], n);
    hide Served;
    UsedAppend(bs[..i] + Served(bs[i], n), bs[i + 1..]);
    UsedAppend(bs[..i], Served(bs[i], n));
    UsedWithout(bs, i);
  }

  lemma {:induction false} UsedWithout(bs: seq<Block>, i: nat)
    requires i < |bs|
    ensures Used(bs) == Used(bs[..i]) + (if bs[i].free then [] else [bs[i]]) + Used(bs[i + 1..])
  {
    var a, b := bs[..i], bs[i..];
    UsedAppend(a, b);
    assert a + b == bs;
    assert b[1..] == bs[i + 1..] && b[0] == bs[i];
    assert Used(b) == (if b[0].free then [] else [b[0]]) + Used(b[1..]);
  }

  /** A served block is larger than the request by at most the 32 bytes of a header; any more is cut off. */
  lemma ServedTight(b: Block, n: nat)
    requires n <= b.size && b.size % 16 == 0 && n % 16 == 0
    ensures Served(b, n) != [] && Served(b, n)[0].size <= n + 32
    ensures b.size > n + 32 ==> Served(b, n) == [Block(b.addr, n, false), Block(b.addr + 32 + n, b.size - n - 32, true)]
  {
  }

  lemma {:induction false} ServedUses(b: Block, n: nat)
    requires n <= b.size
    ensures Served(b, n) != [] && Used(Served(b, n)) == [Served(b, n)[0]]
    ensures Served(b, n)[0].addr == b.addr && n <= Served(b, n)[0].size && !Served(b, n)[0].free
  {
    var s := Served(b, n);
    if Splits(b, n) {
      assert s[1..] == [s[1]] && s[1..][1..] == [];
      assert Used(s[1..]) == [];
    } else {
      assert s[1..] == [];
    }
  }

  // --------------------------------------------------------------- coalescing

  function Merged(a: Block, b: Block): Block { a.(size := a.size + b.size + HEADER) }

  /** Left to right, a free block swallows the free blocks right after it. */
  function Coalesced(bs: seq<Block>): seq<Block>
    decreases |bs|
  {
    if |bs| < 2 then bs
    else if bs[0].free && bs[1].free then Coalesced([Merged(bs[0], bs[1])] + bs[2..])
    else [bs[0]] + Coalesced(bs[1..])
  }

  ghost predicate NoFreeNeighbours(bs: seq<Block>) {
    forall i, j {:trigger bs[i], bs[j]} :: 0 <= i < |bs| && j == i + 1 && j < |bs| ==> !(bs[i].free && bs[j].free)
  }

  lemma MergeTiling(bs: seq<Block>, lo: nat, hi: nat)
    requires Tiling(bs, lo, hi) && |bs| >= 2
    ensures Tiling([Merged(bs[0], bs[1])] + bs[2..], lo, hi)
  {
    TilingTail(bs, lo, hi);
    TilingTail(bs[1..], bs[0].End(), hi);
    assert bs[1..][1..] == bs[2..] && bs[0].End() == bs[1].addr;
    TilingAppend([Merged(bs[0], bs[1])], bs[2..], lo, bs[1].End(), hi);
  }

  lemma {:induction false} CoalesceKeepsTiling(bs: seq<Block>, lo: nat, hi: nat)
    requires Tiling(bs, lo, hi)
    ensures Tiling(Coalesced(bs), lo, hi)
    decreases |bs|
  {
    if |bs| < 2 {
    } else if bs[0].free && bs[1].free {
      MergeTiling(bs, lo, hi);
      CoalesceKeepsTiling([Merged(bs[0], bs[1])] + bs[2..], lo, hi);
    } else {
      TilingTail(bs, lo, hi);
      CoalesceKeepsTiling(bs[1..], bs[0].End(), hi);
      TilingAppend([bs[0]], Coalesced(bs[1..]), lo, bs[0].End(), hi);
    }
  }

  lemma {:induction false} CoalesceKeepsUsed(bs: seq<Block>)
    ensures Used(Coalesced(bs)) == Used(bs)
    decreases |bs|
  {
    if |bs| < 2 {
    } else if bs[0].free && bs[1].free {
      var m := [Merged(bs[0], bs[1])] + bs[2..];
      CoalesceKeepsUsed(m);
      assert m[1..] == bs[2..] && bs[1..][1..] == bs[2..];
    } else {
      CoalesceKeepsUsed(bs[1..]);
      var c := [bs[0]] + Coalesced(bs[1..]);
      assert c[1..] == Coalesced(bs[1..]);
    }
  }

  /** The head of the result is the head of the list, grown or not. */
  lemma {:induction false} CoalesceHead(bs: seq<Block>)
    requires bs != []
    ensures Coalesced(bs) != [] && Coalesced(bs)[0].addr == bs[0].addr && Coalesced(bs)[0].free == bs[0].free
    decreases |bs|
  {
    if |bs| >= 2 && bs[0].free && bs[1].free {
      CoalesceHead([Merged(bs[0], bs[1])] + bs[2..]);
    }
  }

  /** After coalescing no two neighbours are free. */
  lemma {:induction false} CoalesceSeparates(bs: seq<Block>)
    ensures NoFreeNeighbours(Coalesced(bs))
    decreases |bs|
  {
    if |bs| < 2 {
    } else if bs[0].free && bs[1].free {
      CoalesceSeparates([Merged(bs[0], bs[1])] + bs[2..]);
    } else {
      var t := Coalesced(bs[1..]);
      CoalesceSeparates(bs[1..]);
      CoalesceHead(bs[1..]);
      var c := [bs[0]] + t;
      forall i, j | 0 <= i < |c| && j == i + 1 && j < |c| ensures !(c[i].free && c[j].free) {
        assert c[j] == t[j - 1];
        if i > 0 { assert c[i] == t[i - 1]; }
      }
    }
  }
}
