/** The user heap's regions inside its window, and the bytes behind them. */
module UHeapLayout {
  import opened Basics
  import opened PageTables
  import opened PagingSpaces
  import opened PagingOps
  import opened UHeapPages

  /** The window, in pages: 0x10000000 .. 0x40000000. */
  const UBASE: nat := 0x10000
  const UEND: nat := 0x40000
  const MAX_ALLOC: nat := 64 * 1024 * 1024

  /** A live region: its first page, the size asked for, the pages mapped. */
  datatype Region = Region(first: nat, size: nat, pages: nat) {
    function Base(): nat { first * 4096 }

    predicate Covers(m: nat) { first <= m < first + pages }

    /** Inside the window and followed by a guard page below `brk`. */
    predicate Ok(brk: nat) {
      && UBASE <= first && 0 < pages && 0 < size <= pages * 4096
      && first + pages + 1 <= brk
    }
  }

  predicate Covered(regions: seq<Region>, m: nat) {
    exists g :: g in regions && g.Covers(m)
  }

  /** `upper` lies above `lower` with at least one page between them. */
  predicate Above(upper: Region, lower: Region) {
    lower.first + lower.pages + 1 <= upper.first
  }

  /** Newest first; every region ends with a guard page below the next one and below `brk`. */
  ghost predicate Layout(regions: seq<Region>, brk: nat) {
    && UBASE <= brk <= UEND
    && (forall i {:trigger regions[i]} :: 0 <= i < |regions| ==> regions[i].Ok(brk))
    && (forall i, j {:trigger regions[i], regions[j]} :: 0 <= i < j < |regions| ==> Above(regions[i], regions[j]))
  }

  /** Page `m` of `r` is a 4 KB page on a managed frame. */
  ghost predicate Backed(vm: Vm, r: nat, m: nat) {
    var t := Translate(vm.mem, r, UPage(m));
    t.Some? && t.value.flags == 7 && Managed(vm, t.value.frame)
  }

  /** In the window exactly the live regions' pages are mapped. */
  ghost predicate Window(vm: Vm, r: nat, regions: seq<Region>) {
    && (forall m: nat {:trigger Backed(vm, r, m)} :: UBASE <= m < UEND && Covered(regions, m) ==> Backed(vm, r, m))
    && (forall m: nat {:trigger Absent(vm, r, m)} :: UBASE <= m < UEND && !Covered(regions, m) ==> Absent(vm, r, m))
  }

  ghost predicate HeapOk(vm: Vm, r: nat, regions: seq<Region>, brk: nat) {
    && Sound(vm) && r in vm.roots && r != vm.kernel && r != 0
    && Layout(regions, brk) && Window(vm, r, regions)
  }

  /** The pages on either side of a live region are unmapped. */
  lemma GuardPages(vm: Vm, r: nat, regions: seq<Region>, brk: nat, i: nat)
    requires HeapOk(vm, r, regions, brk) && i < |regions|
    ensures Absent(vm, r, regions[i].first + regions[i].pages)
    ensures regions[i].first > UBASE ==> Absent(vm, r, regions[i].first - 1)
  {
    hide Sound, Absent, Backed;
    var g := regions[i];
    forall h | h in regions ensures !h.Covers(g.first + g.pages) && (g.first > UBASE ==> !h.Covers(g.first - 1)) {
      var j :| 0 <= j < |regions| && regions[j] == h;
      assert j == i || Above(regions[i], regions[j]) || Above(regions[j], regions[i]);
    }
    assert !Covered(regions, g.first + g.pages);
    assert g.Ok(brk);
  }

  // ------------------------------------------------------------ one region more

  lemma FreshIsUncovered(regions: seq<Region>, brk: nat, m: nat)
    requires Layout(regions, brk) && brk <= m
    ensures !Covered(regions, m)
  {
  }

  lemma RangeIsAbsent(vm: Vm, r: nat, regions: seq<Region>, brk: nat, n: nat)
    requires HeapOk(vm, r, regions, brk) && brk + n <= UEND
    ensures AbsentRange(vm, r, brk, n)
  {
    hide Sound, Absent;
    forall m: nat | brk <= m < brk + n ensures Absent(vm, r, m) {
      FreshIsUncovered(regions, brk, m);
    }
  }

  lemma LayoutGrows(regions: seq<Region>, brk: nat, g: Region)
    requires Layout(regions, brk) && g.first == brk && 0 < g.pages && 0 < g.size <= g.pages * 4096 && brk + g.pages + 1 <= UEND
    ensures Layout([g] + regions, brk + g.pages + 1)
  {
    var all := [g] + regions;
    forall i | 0 <= i < |all| ensures all[i].Ok(brk + g.pages + 1) {
      if i > 0 { assert all[i] == regions[i - 1]; }
    }
    forall i, j | 0 <= i < j < |all| ensures Above(all[i], all[j]) {
      assert all[j] == regions[j - 1];
      if i > 0 { assert all[i] == regions[i - 1]; }
    }
  }

  lemma WindowGrows(vm: Vm, w: Vm, r: nat, regions: seq<Region>, brk: nat, g: Region, frames: seq<nat>)
    requires HeapOk(vm, r, regions, brk) && Mapped(vm, w, r, brk, frames)
    requires g.first == brk && |frames| == g.pages && brk + g.pages <= UEND
    ensures Window(w, r, [g] + regions)
  {
    hide Sound, OnlySpace, UPage, Translate, HoldsPage;
    forall m: nat | UBASE <= m < UEND
      ensures Covered([g] + regions, m) <==> g.Covers(m) || Covered(regions, m)
      ensures Covered([g] + regions, m) ==> Backed(w, r, m)
      ensures !Covered([g] + regions, m) ==> Absent(w, r, m)
    {
      CoveredMore(regions, g, m);
      hide Covered;
      if g.Covers(m) {
        var k := m - brk;
        assert MapsFresh(vm, w, r, brk, frames, k);
      } else {
        OutsideSame(vm, w, r, brk, |frames|, m);
        assert Backed(vm, r, m) || Absent(vm, r, m);
      }
    }
  }

  lemma CoveredMore(regions: seq<Region>, g: Region, m: nat)
    ensures Covered([g] + regions, m) <==> g.Covers(m) || Covered(regions, m)
  {
    if g.Covers(m) { assert g in [g] + regions; }
  }

  lemma GrowKeepsHeap(vm: Vm, w: Vm, r: nat, regions: seq<Region>, brk: nat, g: Region, frames: seq<nat>)
    requires HeapOk(vm, r, regions, brk) && Mapped(vm, w, r, brk, frames)
    requires g.first == brk && |frames| == g.pages && 0 < g.pages && 0 < g.size <= g.pages * 4096 && brk + g.pages + 1 <= UEND
    ensures HeapOk(w, r, [g] + regions, brk + g.pages + 1)
  {
    WindowGrows(vm, w, r, regions, brk, g, frames);
    LayoutGrows(regions, brk, g);
    hide Sound, OnlySpace, Layout, Window, MapsFresh, SameOutside, HoldsPage;
  }

  // ------------------------------------------------------------ one region less

  function Without(regions: seq<Region>, i: nat): seq<Region>
    requires i < |regions|
  {
    regions[..i] + regions[i + 1..]
  }

  ghost function FrameAt(vm: Vm, r: nat, m: nat): nat {
    var t := Translate(vm.mem, r, UPage(m));
    if t.Some? then t.value.frame else 0
  }

  ghost function FramesOf(vm: Vm, r: nat, g: Region): seq<nat> {
    seq<nat>(g.pages, k requires 0 <= k < g.pages => FrameAt(vm, r, g.first + k))
  }

  lemma RegionMaps(vm: Vm, r: nat, regions: seq<Region>, brk: nat, i: nat, k: nat)
    requires HeapOk(vm, r, regions, brk) && i < |regions| && k < regions[i].pages
    ensures MapsTo(vm, r, regions[i].first, FramesOf(vm, r, regions[i]), k)
    ensures regions[i].first + regions[i].pages < UEND
  {
    var g := regions[i];
    assert g.Ok(brk);
    assert g in regions && g.Covers(g.first + k);
    assert Backed(vm, r, g.first + k);
    FramesOfAt(vm, r, g, k);
    hide FramesOf, Sound, UPage, Layout, Window;
    assert Translate(vm.mem, r, UPage(g.first + k)) == Some(Pte(FrameAt(vm, r, g.first + k), 7));
  }

  lemma FramesOfAt(vm: Vm, r: nat, g: Region, k: nat)
    requires k < g.pages
    ensures |FramesOf(vm, r, g)| == g.pages && FramesOf(vm, r, g)[k] == FrameAt(vm, r, g.first + k)
  {
    hide FrameAt;
  }

  lemma WithoutKeepsLayout(regions: seq<Region>, brk: nat, i: nat)
    requires Layout(regions, brk) && i < |regions|
    ensures Layout(Without(regions, i), brk)
  {
    var rest := Without(regions, i);
    forall j | 0 <= j < |rest| ensures rest[j].Ok(brk) {
      assert rest[j] == regions[if j < i then j else j + 1];
    }
    forall j, k | 0 <= j < k < |rest| ensures Above(rest[j], rest[k]) {
      assert rest[j] == regions[if j < i then j else j + 1];
      assert rest[k] == regions[if k < i then k else k + 1];
    }
  }

  lemma CoveredLess(regions: seq<Region>, brk: nat, i: nat, m: nat)
    requires Layout(regions, brk) && i < |regions|
    ensures Covered(Without(regions, i), m) <==> Covered(regions, m) && !regions[i].Covers(m)
  {
    if Covered(Without(regions, i), m) { CoveredRest(regions, brk, i, m); }
    if Covered(regions, m) && !regions[i].Covers(m) { CoveredOther(regions, i, m); }
  }

  lemma RegionsApart(regions: seq<Region>, brk: nat, i: nat, j: nat)
    requires Layout(regions, brk) && i < |regions| && j < |regions| && i != j
    ensures Above(regions[i], regions[j]) || Above(regions[j], regions[i])
  {
    hide Above;
    var a, b := regions[i], regions[j];
  }

  lemma CoveredRest(regions: seq<Region>, brk: nat, i: nat, m: nat)
    requires Layout(regions, brk) && i < |regions| && Covered(Without(regions, i), m)
    ensures Covered(regions, m) && !regions[i].Covers(m)
  {
    hide Layout;
    var rest := Without(regions, i);
    var h :| h in rest && h.Covers(m);
    var j :| 0 <= j < |rest| && rest[j] == h;
    var jj := if j < i then j else j + 1;
    assert rest[j] == regions[jj];
    assert regions[jj] in regions;
    RegionsApart(regions, brk, i, jj);
  }

  lemma CoveredOther(regions: seq<Region>, i: nat, m: nat)
    requires i < |regions| && Covered(regions, m) && !regions[i].Covers(m)
    ensures Covered(Without(regions, i), m)
  {
    var rest := Without(regions, i);
    var h :| h in regions && h.Covers(m);
    var j :| 0 <= j < |regions| && regions[j] == h;
    assert rest[if j < i then j else j - 1] == h;
    assert h in rest;
  }

  /** A page of the window once the region `g` is unmapped. */
  lemma ShrunkPage(vm: Vm, w: Vm, r: nat, regions: seq<Region>, brk: nat, g: Region, m: nat)
    requires HeapOk(vm, r, regions, brk) && UBASE <= m < UEND && w.total == vm.total
    requires AbsentRange(w, r, g.first, g.pages) && SameOutside(vm, w, r, g.first, g.pages)
    ensures Covered(regions, m) && !g.Covers(m) ==> Backed(w, r, m)
    ensures !Covered(regions, m) || g.Covers(m) ==> Absent(w, r, m)
  {
    hide Sound, UPage, Translate, Covered, Layout;
    if g.Covers(m) {
      assert Absent(w, r, m);
    } else {
      OutsideSame(vm, w, r, g.first, g.pages, m);
      if Covered(regions, m) { assert Backed(vm, r, m); } else { assert Absent(vm, r, m); }
    }
  }

  lemma ShrinkKeepsHeap(vm: Vm, w: Vm, r: nat, regions: seq<Region>, brk: nat, i: nat)
    requires HeapOk(vm, r, regions, brk) && i < |regions|
    requires Unmapped(vm, w, r, regions[i].first, FramesOf(vm, r, regions[i]), regions[i].pages)
    ensures HeapOk(w, r, Without(regions, i), brk)
  {
    hide Sound, OnlySpace, UPage, Translate, HoldsPage, Without, FramesOf, Covered, AbsentRange, SameOutside, Backed, Absent, Layout;
    WithoutKeepsLayout(regions, brk, i);
    forall m: nat | UBASE <= m < UEND
      ensures Covered(Without(regions, i), m) ==> Backed(w, r, m)
      ensures !Covered(Without(regions, i), m) ==> Absent(w, r, m)
    {
      CoveredLess(regions, brk, i, m);
      ShrunkPage(vm, w, r, regions, brk, regions[i], m);
    }
  }

  /** Every frame of a freed region is free again. */
  lemma FreedFramesAreFree(vm: Vm, w: Vm, r: nat, regions: seq<Region>, brk: nat, i: nat, k: nat)
    requires HeapOk(vm, r, regions, brk) && i < |regions| && k < regions[i].pages
    requires Unmapped(vm, w, r, regions[i].first, FramesOf(vm, r, regions[i]), regions[i].pages)
    ensures FramesOf(vm, r, regions[i])[k] !in w.used
  {
    var f := FramesOf(vm, r, regions[i])[k];
    RegionMaps(vm, r, regions, brk, i, k);
    PageIsHeld(vm, r, regions[i].first + k, f);
    hide Tables, Exclusive, UPage, Translate, FramesOf, Layout, Window;
    LeafInUse(vm, r, f);
    assert !HoldsPage(w, r, f);
    assert Elsewhere(w, r, f) <==> Elsewhere(vm, r, f);
    assert !HoldsTable(w, r, f);
  }

  lemma PageIsHeld(vm: Vm, r: nat, m: nat, f: nat)
    requires Tables(vm) && r in vm.roots && r != vm.kernel && m < LIMIT && Managed(vm, f)
    requires Translate(vm.mem, r, UPage(m)) == Some(Pte(f, 7))
    ensures HoldsPage(vm, r, f) && UserLeaf(vm, On(vm.kernel, r, UPage(m), 3), UPage(m).i1)
    ensures Entry(vm, On(vm.kernel, r, UPage(m), 3), UPage(m).i1) == Pte(f, 7)
    ensures On(vm.kernel, r, UPage(m), 3) == Pt(r, 0, 0, UPage(m).i2) && UPage(m) == Page(0, 0, m / 512, m % 512)
  {
    UPageIs(m);
    hide UPage;
    SevenIsSmall(vm, r, UPage(m), f);
    assert UserLeaf(vm, On(vm.kernel, r, UPage(m), 3), UPage(m).i1);
  }

  /** A state with the same translations has the same heap. */
  lemma SameKeepsHeap(vm: Vm, w: Vm, r: nat, regions: seq<Region>, brk: nat)
    requires HeapOk(vm, r, regions, brk) && Sound(w) && SameSpaces(vm, w) && SameTranslations(vm, w)
    ensures HeapOk(w, r, regions, brk)
  {
    hide Sound, Layout, Translate, UPage, Covered;
    forall m: nat | UBASE <= m < UEND
      ensures Covered(regions, m) ==> Backed(w, r, m)
      ensures !Covered(regions, m) ==> Absent(w, r, m)
    {
      if Covered(regions, m) { assert Backed(vm, r, m); } else { assert Absent(vm, r, m); }
      assert Translate(w.mem, r, UPage(m)) == Translate(vm.mem, r, UPage(m));
    }
  }

  /** A new address space has an empty heap. */
  lemma NewSpaceHasEmptyHeap(vm: Vm, w: Vm, r: nat)
    requires Sound(vm) && CreateResult(vm, w, r) && r != 0
    ensures HeapOk(w, r, [], 0x1000_0000 / 4096)
  {
    assert r != w.kernel;
    hide Tables, Exclusive, UPage, Translate, Framed, Elsewhere;
    forall m: nat | UBASE <= m < UEND ensures Absent(w, r, m) && !Covered([], m) {
      UPageIs(m);
    }
  }
}
