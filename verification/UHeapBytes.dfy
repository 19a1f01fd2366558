/** The bytes a process sees through its translation. */
module UHeapBytes {
  import opened Basics
  import opened PageTables
  import opened PagingSpaces
  import opened UHeapPages
  import opened UHeapLayout

  /** Contents of the frames: 4096 bytes each. */
  type Frames = seq<seq<Byte>>

  predicate FramesOk(data: Frames, n: nat) {
    |data| == n && forall f :: 0 <= f < |data| ==> |data[f]| == 4096
  }

  function ByteIn(data: Frames, f: nat, k: nat): Byte {
    if f < |data| && k < |data[f]| then data[f][k] else 0
  }

  function Put8(data: Frames, f: nat, k: nat, b: Byte): Frames {
    if f < |data| && k < |data[f]| then data[f := data[f][k := b]] else data
  }

  function FrameOf(mem: Memory, r: nat, a: nat): nat {
    var t := Translate(mem, r, PageOf(a));
    if t.Some? then t.value.frame else 0
  }

  /** The byte at address `a` of the process. */
  function ByteAt(mem: Memory, data: Frames, r: nat, a: nat): Byte {
    ByteIn(data, FrameOf(mem, r, a), a % 4096)
  }

  /** `a` lies in a page of the heap that is mapped. */
  ghost predicate Readable(vm: Vm, r: nat, a: nat) {
    a / 4096 < LIMIT && Backed(vm, r, a / 4096)
  }

  lemma FrameOfIs(vm: Vm, r: nat, a: nat)
    requires a / 4096 < LIMIT
    ensures FrameOf(vm.mem, r, a) == FrameAt(vm, r, a / 4096)
  {
    PageOfByte(a / 4096, a % 4096);
    assert a / 4096 * 4096 + a % 4096 == a;
  }

  /** Different readable pages lie on different frames. */
  lemma FramesDiffer(vm: Vm, r: nat, m: nat, n: nat)
    requires Sound(vm) && r in vm.roots && r != vm.kernel && m < LIMIT && n < LIMIT && m != n
    requires Backed(vm, r, m) && Backed(vm, r, n)
    ensures FrameAt(vm, r, m) != FrameAt(vm, r, n)
  {
    var f, g := FrameAt(vm, r, m), FrameAt(vm, r, n);
    BackedIs(vm, r, m);
    BackedIs(vm, r, n);
    PageIsHeld(vm, r, m, f);
    PageIsHeld(vm, r, n, g);
    UPageInjective(m, n);
    hide UPage, Tables, Entry, UserLeaf, Translate;
    assert LeavesApart(vm, On(vm.kernel, r, UPage(m), 3), UPage(m).i1, On(vm.kernel, r, UPage(n), 3), UPage(n).i1);
  }

  lemma BackedIs(vm: Vm, r: nat, m: nat)
    requires Backed(vm, r, m)
    ensures Translate(vm.mem, r, UPage(m)) == Some(Pte(FrameAt(vm, r, m), 7)) && Managed(vm, FrameAt(vm, r, m))
  {
    hide Translate, UPage;
  }

  lemma BackedInUse(vm: Vm, r: nat, m: nat)
    requires Sound(vm) && r in vm.roots && r != vm.kernel && m < LIMIT && Backed(vm, r, m)
    ensures FrameAt(vm, r, m) in vm.used && Managed(vm, FrameAt(vm, r, m))
  {
    BackedIs(vm, r, m);
    PageIsHeld(vm, r, m, FrameAt(vm, r, m));
    LeafInUse(vm, r, FrameAt(vm, r, m));
  }

  /** Writing one readable byte changes that byte alone. */
  lemma WriteByte(vm: Vm, data: Frames, r: nat, a: nat, b: Byte, c: nat)
    requires Sound(vm) && r in vm.roots && r != vm.kernel && FramesOk(data, |vm.mem|)
    requires Readable(vm, r, a) && Readable(vm, r, c)
    ensures ByteAt(vm.mem, Put8(data, FrameOf(vm.mem, r, a), a % 4096, b), r, c)
         == if a == c then b else ByteAt(vm.mem, data, r, c)
  {
    hide Sound, Backed, UPage, PageOf, Translate, FrameOf, FrameAt;
    FrameOfIs(vm, r, a);
    FrameOfIs(vm, r, c);
    BackedIs(vm, r, a / 4096);
    TotalFits(vm);
    if a / 4096 != c / 4096 { FramesDiffer(vm, r, a / 4096, c / 4096); }
  }

  lemma TotalFits(vm: Vm)
    requires Sound(vm)
    ensures vm.total <= |vm.mem|
  {
  }

  /** `now` is `data` after the first `n` bytes of a copy from `src` to `dst`, as the process sees it. */
  ghost predicate Copied(vm: Vm, data: Frames, now: Frames, r: nat, dst: nat, src: nat, n: nat) {
    forall c: nat {:trigger ByteAt(vm.mem, now, r, c)} :: Readable(vm, r, c) ==>
      ByteAt(vm.mem, now, r, c) == ByteAt(vm.mem, data, r, if dst <= c < dst + n then src + (c - dst) else c)
  }

  lemma CopiedStep(vm: Vm, data: Frames, now: Frames, r: nat, dst: nat, src: nat, n: nat)
    requires Sound(vm) && r in vm.roots && r != vm.kernel && FramesOk(now, |vm.mem|)
    requires Copied(vm, data, now, r, dst, src, n) && Readable(vm, r, dst + n) && Readable(vm, r, src + n)
    requires src + n < dst || dst + n < src
    ensures Copied(vm, data, Put8(now, FrameOf(vm.mem, r, dst + n), (dst + n) % 4096, ByteAt(vm.mem, now, r, src + n)), r, dst, src, n + 1)
  {
    hide Sound, Readable, ByteAt, FrameOf;
    var b := ByteAt(vm.mem, now, r, src + n);
    var then_ := Put8(now, FrameOf(vm.mem, r, dst + n), (dst + n) % 4096, b);
    forall c: nat | Readable(vm, r, c)
      ensures ByteAt(vm.mem, then_, r, c) == ByteAt(vm.mem, data, r, if dst <= c < dst + n + 1 then src + (c - dst) else c)
    {
      WriteByte(vm, now, r, dst + n, b, c);
    }
  }

  /** What the process reads at the pages of its regions is the same in both states. */
  ghost predicate BytesKept(vm: Vm, data: Frames, w: Vm, now: Frames, r: nat, regions: seq<Region>) {
    forall c: nat {:trigger ByteAt(w.mem, now, r, c)} :: Covered(regions, c / 4096) ==>
      ByteAt(w.mem, now, r, c) == ByteAt(vm.mem, data, r, c)
  }

  /** Only frames that were free changed. */
  ghost predicate OnlyFreeChanged(vm: Vm, data: Frames, now: Frames) {
    |now| == |data| && forall f {:trigger now[f]} :: 0 <= f < |data| && (f in vm.used || !Managed(vm, f)) ==> now[f] == data[f]
  }

  lemma CoveredInWindow(regions: seq<Region>, brk: nat, m: nat)
    requires Layout(regions, brk) && Covered(regions, m)
    ensures UBASE <= m < brk <= UEND
  {
    var g :| g in regions && g.Covers(m);
    var i :| 0 <= i < |regions| && regions[i] == g;
    assert regions[i].Ok(brk);
  }

  /** Old regions read the same when their translations stay and only free frames are written. */
  lemma KeptThroughFree(vm: Vm, data: Frames, w: Vm, now: Frames, r: nat, regions: seq<Region>, brk: nat)
    requires HeapOk(vm, r, regions, brk) && OnlyFreeChanged(vm, data, now) && FramesOk(data, |vm.mem|)
    requires forall m: nat {:trigger UPage(m)} :: Covered(regions, m) ==> Translate(w.mem, r, UPage(m)) == Translate(vm.mem, r, UPage(m))
    ensures BytesKept(vm, data, w, now, r, regions)
  {
    TotalFits(vm);
    hide UPage, PageOf, Translate;
    forall c: nat | Covered(regions, c / 4096) ensures ByteAt(w.mem, now, r, c) == ByteAt(vm.mem, data, r, c) {
      var m := c / 4096;
      CoveredInWindow(regions, brk, m);
      FrameOfIs(vm, r, c);
      FrameOfIs(w, r, c);
      assert Backed(vm, r, m);
      BackedInUse(vm, r, m);
      hide Sound, Layout, Window, Covered, Backed, FrameOf;
      assert now[FrameAt(vm, r, m)] == data[FrameAt(vm, r, m)];
    }
  }
}
