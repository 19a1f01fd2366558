/** Block headers in memory, linked by address, as a representation of the block list. */
module KHeapList {
  import opened KHeapBlocks

  /** A header as it lies in memory; `next` is 0 at the end of the list. */
  datatype Header = Header(size: nat, free: bool, next: nat)

  type Headers = map<nat, Header>

  function NextAddr(bs: seq<Block>, i: nat): nat {
    if i + 1 < |bs| then bs[i + 1].addr else 0
  }

  ghost predicate HeaderOk(hdr: Headers, bs: seq<Block>, i: nat)
    requires i < |bs|
  {
    bs[i].addr in hdr && hdr[bs[i].addr] == Header(bs[i].size, bs[i].free, NextAddr(bs, i))
  }

  /** Following `next` from `head` visits exactly the blocks of `bs`, in order. */
  ghost predicate Represents(hdr: Headers, head: nat, bs: seq<Block>) {
    && head == (if bs == [] then 0 else bs[0].addr)
    && (forall i {:trigger bs[i]} :: 0 <= i < |bs| ==> HeaderOk(hdr, bs, i))
  }

  /** Headers of `mid`, followed by a block at `next`. */
  ghost predicate Segment(hdr: Headers, mid: seq<Block>, next: nat) {
    forall k {:trigger mid[k]} :: 0 <= k < |mid| ==>
      && mid[k].addr in hdr
      && hdr[mid[k].addr] == Header(mid[k].size, mid[k].free, if k + 1 < |mid| then mid[k + 1].addr else next)
  }

  ghost predicate AgreeOn(hdr: Headers, now: Headers, bs: seq<Block>) {
    forall k {:trigger bs[k]} :: 0 <= k < |bs| && bs[k].addr in hdr ==>
      bs[k].addr in now && now[bs[k].addr] == hdr[bs[k].addr]
  }

  /** Replacing a stretch of the list by one that starts at the same address. */
  lemma Splice(hdr: Headers, now: Headers, head: nat, pre: seq<Block>, old_: seq<Block>, mid: seq<Block>, post: seq<Block>)
    requires Represents(hdr, head, pre + old_ + post) && old_ != [] && mid != [] && mid[0].addr == old_[0].addr
    requires AgreeOn(hdr, now, pre) && AgreeOn(hdr, now, post)
    requires Segment(now, mid, if post == [] then 0 else post[0].addr)
    ensures Represents(now, head, pre + mid + post)
  {
    var a, b := pre + old_ + post, pre + mid + post;
    forall i | 0 <= i < |b| ensures HeaderOk(now, b, i) {
      if i < |pre| {
        assert b[i] == pre[i] == a[i];
        assert HeaderOk(hdr, a, i);
        if i + 1 < |pre| { assert b[i + 1] == a[i + 1]; } else { assert b[i + 1] == mid[0] && a[i + 1] == old_[0]; }
      } else if i < |pre| + |mid| {
        var k := i - |pre|;
        assert b[i] == mid[k];
        if k + 1 < |mid| { assert b[i + 1] == mid[k + 1]; } else if post != [] { assert b[i + 1] == post[0]; }
      } else {
        var k := i - |pre| - |mid|;
        var j := |pre| + |old_| + k;
        assert b[i] == post[k] == a[j];
        assert HeaderOk(hdr, a, j);
        if k + 1 < |post| { assert b[i + 1] == post[k + 1] == a[j + 1]; }
      }
    }
    if pre != [] { assert a[0] == pre[0] == b[0]; } else { assert a[0] == old_[0] && b[0] == mid[0]; }
  }

  lemma SplitList(bs: seq<Block>, i: nat, n: nat)
    requires i + n <= |bs|
    ensures bs == bs[..i] + bs[i..i + n] + bs[i + n..]
  {
  }

  /** Writing headers inside the extent of one block leaves the other headers alone. */
  lemma OthersAgree(hdr: Headers, now: Headers, bs: seq<Block>, lo: nat, hi: nat, i: nat, n: nat)
    requires Tiling(bs, lo, hi) && 0 < n && i + n <= |bs|
    requires forall a {:trigger a in now} :: a in hdr && !(bs[i].addr <= a < bs[i + n - 1].End()) ==> a in now && now[a] == hdr[a]
    ensures AgreeOn(hdr, now, bs[..i]) && AgreeOn(hdr, now, bs[i + n..])
  {
    var pre, post := bs[..i], bs[i + n..];
    forall k | 0 <= k < |pre| && pre[k].addr in hdr ensures pre[k].addr in now && now[pre[k].addr] == hdr[pre[k].addr] {
      TilingOrdered(bs, lo, hi, k, i);
    }
    forall k | 0 <= k < |post| && post[k].addr in hdr ensures post[k].addr in now && now[post[k].addr] == hdr[post[k].addr] {
      TilingOrdered(bs, lo, hi, i + n - 1, i + n + k);
    }
  }

  /** Replacing `n` blocks from the `i`-th by `mid`, with headers written inside their extent only. */
  lemma Replace(hdr: Headers, now: Headers, head: nat, bs: seq<Block>, lo: nat, hi: nat, i: nat, n: nat, mid: seq<Block>)
    requires Represents(hdr, head, bs) && Tiling(bs, lo, hi) && 0 < n && i + n <= |bs|
    requires mid != [] && mid[0].addr == bs[i].addr && Segment(now, mid, NextAddr(bs, i + n - 1))
    requires forall a {:trigger a in now} :: a in hdr && !(bs[i].addr <= a < bs[i + n - 1].End()) ==> a in now && now[a] == hdr[a]
    ensures Represents(now, head, bs[..i] + mid + bs[i + n..])
  {
    OthersAgree(hdr, now, bs, lo, hi, i, n);
    hide Represents, Tiling, Segment, AgreeOn;
    SplitList(bs, i, n);
    var post := bs[i + n..];
    assert (if post == [] then 0 else post[0].addr) == NextAddr(bs, i + n - 1);
    assert bs[i..i + n][0] == bs[i];
    Splice(hdr, now, head, bs[..i], bs[i..i + n], mid, post);
  }

  /** The headers after serving `n` bytes from the block at `b.addr`. */
  function ServeHeaders(hdr: Headers, b: Block, n: nat, next: nat): Headers
    requires n <= b.size
  {
    if Splits(b, n) then
      hdr[b.addr + HEADER + n := Header(b.size - n - HEADER, true, next)]
         [b.addr := Header(n, false, b.addr + HEADER + n)]
    else hdr[b.addr := Header(b.size, false, next)]
  }

  lemma CarveRepresents(hdr: Headers, head: nat, bs: seq<Block>, lo: nat, hi: nat, i: nat, n: nat)
    requires Represents(hdr, head, bs) && Tiling(bs, lo, hi) && i < |bs| && 0 < n <= bs[i].size
    ensures Represents(ServeHeaders(hdr, bs[i], n, NextAddr(bs, i)), head, Carved(bs, i, n))
  {
    hide Represents, Tiling;
    var b, now := bs[i], ServeHeaders(hdr, bs[i], n, NextAddr(bs, i));
    Replace(hdr, now, head, bs, lo, hi, i, 1, Served(b, n));
  }

  /** The block at `i` marked free. */
  lemma FreeRepresents(hdr: Headers, head: nat, bs: seq<Block>, lo: nat, hi: nat, i: nat)
    requires Represents(hdr, head, bs) && Tiling(bs, lo, hi) && i < |bs|
    ensures bs[i].addr in hdr
    ensures Represents(hdr[bs[i].addr := hdr[bs[i].addr].(free := true)], head, bs[i := bs[i].(free := true)])
    ensures Tiling(bs[i := bs[i].(free := true)], lo, hi)
  {
    hide Represents, Tiling, Segment, AgreeOn;
    var b := bs[i];
    HeaderAt(hdr, head, bs, lo, hi, i);
    var now, mid := hdr[b.addr := hdr[b.addr].(free := true)], [b.(free := true)];
    FreeTiles(bs, lo, hi, i);
    FreeReplaces(hdr, head, bs, lo, hi, i);
    assert bs[..i] + mid + bs[i + 1..] == bs[i := b.(free := true)];
  }

  lemma HeaderAt(hdr: Headers, head: nat, bs: seq<Block>, lo: nat, hi: nat, i: nat)
    requires Represents(hdr, head, bs) && Tiling(bs, lo, hi) && i < |bs|
    ensures HeaderOk(hdr, bs, i) && bs[i].size % 16 == 0 && bs[i].size > 0
  {
  }

  lemma FreeReplaces(hdr: Headers, head: nat, bs: seq<Block>, lo: nat, hi: nat, i: nat)
    requires Represents(hdr, head, bs) && Tiling(bs, lo, hi) && i < |bs| && HeaderOk(hdr, bs, i)
    ensures Represents(hdr[bs[i].addr := hdr[bs[i].addr].(free := true)], head, bs[..i] + [bs[i].(free := true)] + bs[i + 1..])
  {
    hide Represents;
    Replace(hdr, hdr[bs[i].addr := hdr[bs[i].addr].(free := true)], head, bs, lo, hi, i, 1, [bs[i].(free := true)]);
  }

  lemma FreeTiles(bs: seq<Block>, lo: nat, hi: nat, i: nat)
    requires Tiling(bs, lo, hi) && i < |bs|
    ensures Tiling(bs[..i] + [bs[i].(free := true)] + bs[i + 1..], lo, hi)
  {
    var b := bs[i];
    var mid := [b.(free := true)];
    TilingSplit(bs, lo, hi, i);
    assert Tiling(mid, b.addr, b.End());
    hide Tiling;
    TilingAppend(bs[..i], mid, lo, b.addr, b.End());
    TilingAppend(bs[..i] + mid, bs[i + 1..], lo, b.End(), hi);
  }

  function MergeAt(bs: seq<Block>, i: nat): seq<Block>
    requires i + 1 < |bs|
  {
    bs[..i] + [Merged(bs[i], bs[i + 1])] + bs[i + 2..]
  }

  lemma MergeRepresents(hdr: Headers, head: nat, bs: seq<Block>, lo: nat, hi: nat, i: nat)
    requires Represents(hdr, head, bs) && Tiling(bs, lo, hi) && i + 1 < |bs|
    ensures Represents(hdr[bs[i].addr := Header(bs[i].size + bs[i + 1].size + HEADER, bs[i].free, NextAddr(bs, i + 1))], head, MergeAt(bs, i))
  {
    var now := hdr[bs[i].addr := Header(bs[i].size + bs[i + 1].size + HEADER, bs[i].free, NextAddr(bs, i + 1))];
    assert bs[i].End() == bs[i + 1].addr;
    hide Represents, Tiling;
    Replace(hdr, now, head, bs, lo, hi, i, 2, [Merged(bs[i], bs[i + 1])]);
  }

  lemma MergeAtKeepsTiling(bs: seq<Block>, lo: nat, hi: nat, i: nat)
    requires Tiling(bs, lo, hi) && i + 1 < |bs|
    ensures Tiling(MergeAt(bs, i), lo, hi)
  {
    TilingSplit(bs, lo, hi, i);
    TilingSplit(bs, lo, hi, i + 1);
    assert bs[i].End() == bs[i + 1].addr && bs[i].size % 16 == 0 && bs[i + 1].size % 16 == 0;
    var m := Merged(bs[i], bs[i + 1]);
    TilingAppend(bs[..i], [m], lo, bs[i].addr, m.End());
    TilingAppend(bs[..i] + [m], bs[i + 2..], lo, m.End(), hi);
  }

  /** A new block after the last one. */
  lemma AppendRepresents(hdr: Headers, head: nat, bs: seq<Block>, lo: nat, hi: nat, b: Block)
    requires Represents(hdr, head, bs) && Tiling(bs, lo, hi) && bs != [] && b.addr == hi
    ensures bs[|bs| - 1].addr in hdr
    ensures var last := bs[|bs| - 1].addr;
            Represents(hdr[hi := Header(b.size, b.free, 0)][last := Header(bs[|bs| - 1].size, bs[|bs| - 1].free, hi)], head, bs + [b])
  {
    var i := |bs| - 1;
    var last := bs[i];
    assert HeaderOk(hdr, bs, i);
    var now := hdr[hi := Header(b.size, b.free, 0)][last.addr := Header(last.size, last.free, hi)];
    TilingEnds(bs, lo, hi);
    hide Represents, Tiling, HeaderOk;
    AppendAgrees(hdr, now, bs, lo, hi);
    assert Segment(now, [last, b], 0);
    AppendSplice(hdr, now, head, bs, b);
  }

  lemma AppendSplice(hdr: Headers, now: Headers, head: nat, bs: seq<Block>, b: Block)
    requires bs != [] && Represents(hdr, head, bs) && AgreeOn(hdr, now, bs[..|bs| - 1])
    requires Segment(now, [bs[|bs| - 1], b], 0)
    ensures Represents(now, head, bs + [b])
  {
    hide Represents, AgreeOn, Segment;
    var pre, last := bs[..|bs| - 1], bs[|bs| - 1];
    assert pre + [last] + [] == bs;
    assert pre + [last, b] + [] == bs + [b];
    assert AgreeOn(hdr, now, []) by { AgreeOnNothing(hdr, now); }
    Splice(hdr, now, head, pre, [last], [last, b], []);
  }

  lemma AgreeOnNothing(hdr: Headers, now: Headers)
    ensures AgreeOn(hdr, now, [])
  {
  }

  lemma TilingEnds(bs: seq<Block>, lo: nat, hi: nat)
    requires Tiling(bs, lo, hi) && bs != []
    ensures bs[|bs| - 1].End() == hi
  {
  }

  lemma AppendAgrees(hdr: Headers, now: Headers, bs: seq<Block>, lo: nat, hi: nat)
    requires Tiling(bs, lo, hi) && bs != []
    requires forall a {:trigger a in now} :: a in hdr && a != hi && a != bs[|bs| - 1].addr ==> a in now && now[a] == hdr[a]
    ensures AgreeOn(hdr, now, bs[..|bs| - 1])
  {
    var i := |bs| - 1;
    var pre := bs[..i];
    forall k | 0 <= k < |pre| && pre[k].addr in hdr ensures pre[k].addr in now && now[pre[k].addr] == hdr[pre[k].addr] {
      TilingOrdered(bs, lo, hi, k, i);
    }
  }
}
