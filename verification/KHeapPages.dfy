/** The pages behind the kernel heap: mapped one after another in the kernel half, or rolled back. */
module KHeapPages {
  import opened Basics
  import opened PageTables
  import opened PagingSteps
  import opened PagingSpaces
  import opened PagingOps

  const HEAP_START: nat := 0xFFFF_9000_0000_0000

  /** The slot of the PML4 that holds the heap; the kernel image lies in the last slot. */
  const HEAP_SLOT: nat := 288

  /** Pages of that slot: 512 GB. */
  const KPAGES: nat := 0x800_0000

  function KPage(n: nat): Page { PageOf(HEAP_START + n * 4096) }

  function KIndex(pg: Page): nat { pg.i3 * 0x4_0000 + pg.i2 * 512 + pg.i1 }

  lemma KPageIs(n: nat)
    requires n < KPAGES
    ensures KPage(n) == Page(HEAP_SLOT, n / 0x4_0000, n / 512 % 512, n % 512)
    ensures KPage(n).Kernel() && KIndex(KPage(n)) == n
  {
    KDigits(n);
    KAddress(n);
  }

  /** The base-512 digits of a page number. */
  lemma KDigits(n: nat)
    requires n < KPAGES
    ensures n / 0x4_0000 == n / 512 / 512 < 512 && n / 0x800_0000 == 0 && n / 0x4_0000 % 512 == n / 0x4_0000
    ensures n == n / 0x4_0000 * 0x4_0000 + n / 512 % 512 * 512 + n % 512
  {
    var a := n / 512;
    var b := a / 512;
    assert n == 512 * a + n % 512 && a == 512 * b + a % 512;
    assert n / 0x4_0000 == b;
  }

  /** The heap's start is a multiple of 512 GB, so its page number adds no low digit. */
  lemma KAddress(n: nat)
    ensures (HEAP_START + n * 4096) / 4096 % 512 == n % 512
    ensures (HEAP_START + n * 4096) / 0x20_0000 % 512 == n / 512 % 512
    ensures (HEAP_START + n * 4096) / 0x4000_0000 % 512 == n / 0x4_0000 % 512
    ensures (HEAP_START + n * 4096) / 0x80_0000_0000 == 33554208 + n / 0x800_0000
  {
    var va := HEAP_START + n * 4096;
    KLevel1(n);
    KLevel2(n);
    KLevel3(n);
    KLevel4(n);
  }

  lemma KLevel1(n: nat)
    ensures (HEAP_START + n * 4096) / 4096 % 512 == n % 512
  {
    assert (HEAP_START + n * 4096) / 4096 == HEAP_START / 4096 + n;
    assert HEAP_START / 4096 == 8796034301952 * 512;
  }

  lemma KLevel2(n: nat)
    ensures (HEAP_START + n * 4096) / 0x20_0000 % 512 == n / 512 % 512
  {
  }

  lemma KLevel3(n: nat)
    ensures (HEAP_START + n * 4096) / 0x4000_0000 % 512 == n / 0x4_0000 % 512
  {
  }

  lemma KLevel4(n: nat)
    ensures (HEAP_START + n * 4096) / 0x80_0000_0000 == 33554208 + n / 0x800_0000
  {
  }

  lemma KPageIsKernel(n: nat)
    requires n < KPAGES
    ensures KPage(n).Kernel()
  {
    KPageIs(n);
  }

  lemma KPageInjective(n: nat, m: nat)
    requires n < KPAGES && m < KPAGES
    ensures KPage(n) == KPage(m) <==> n == m
  {
    KPageIs(n);
    KPageIs(m);
    hide KPage, KIndex;
  }

  /** `pg` is one of the `n` heap pages from `b`. */
  predicate InRange(pg: Page, b: nat, n: nat) {
    pg.i4 == HEAP_SLOT && b <= KIndex(pg) < b + n
  }

  ghost predicate SameOutside(vm: Vm, w: Vm, b: nat, n: nat) {
    forall s, pg {:trigger Translate(w.mem, s, pg)} :: s in vm.roots && !InRange(pg, b, n) ==>
      Translate(w.mem, s, pg) == Translate(vm.mem, s, pg)
  }

  lemma OutsideUpdated(vm: Vm, v: Vm, w: Vm, b: nat, n: nat, m: Option<Pte>)
    requires SameOutside(vm, v, b, n) && v.roots == vm.roots && b + n < KPAGES
    requires Updated(v, w, vm.kernel, KPage(b + n), m)
    ensures SameOutside(vm, w, b, n + 1)
  {
    KPageIs(b + n);
    hide Translate, KPage, KIndex;
    forall s, pg | s in vm.roots && !InRange(pg, b, n + 1) ensures Translate(w.mem, s, pg) == Translate(vm.mem, s, pg) {
      assert Translate(v.mem, s, pg) == Translate(vm.mem, s, pg);
    }
  }

  lemma OutsideSame(vm: Vm, v: Vm, b: nat, n: nat, m: nat)
    requires SameOutside(vm, v, b, n) && m < KPAGES && !(b <= m < b + n) && vm.kernel in vm.roots
    ensures Translate(v.mem, vm.kernel, KPage(m)) == Translate(vm.mem, vm.kernel, KPage(m))
  {
    KPageIs(m);
    hide KPage, Translate, KIndex;
  }

  ghost predicate KAbsent(vm: Vm, m: nat) {
    Translate(vm.mem, vm.kernel, KPage(m)) == None
  }

  ghost predicate KBacked(vm: Vm, m: nat) {
    Translate(vm.mem, vm.kernel, KPage(m)).Some?
  }

  /** Exactly the first `n` pages of the heap zone are mapped. */
  ghost predicate HeapPages(vm: Vm, n: nat) {
    && (forall m: nat {:trigger KBacked(vm, m)} :: m < n ==> KBacked(vm, m))
    && (forall m: nat {:trigger KAbsent(vm, m)} :: n <= m < KPAGES ==> KAbsent(vm, m))
  }

  // ------------------------------------------------------------------ mapping

  /** Heap page `b + k` maps `frames[k]`, taken from the allocator for it. */
  ghost predicate MapsFresh(vm: Vm, w: Vm, b: nat, frames: seq<nat>, k: nat)
    requires k < |frames|
  {
    && Managed(vm, frames[k]) && frames[k] !in vm.used && Private(w, frames[k])
    && Translate(w.mem, vm.kernel, KPage(b + k)) == Some(Pte(frames[k], 3))
  }

  ghost predicate AllMapFresh(vm: Vm, w: Vm, b: nat, frames: seq<nat>) {
    forall k {:trigger frames[k]} :: 0 <= k < |frames| ==> MapsFresh(vm, w, b, frames, k)
  }

  ghost predicate Distinct(frames: seq<nat>) {
    forall i, j {:trigger frames[i], frames[j]} :: 0 <= i < j < |frames| ==> frames[i] != frames[j]
  }

  ghost predicate NewUse(vm: Vm, w: Vm, frames: seq<nat>) {
    forall g: nat {:trigger g in w.used} :: g in w.used ==> g in vm.used || g in frames || (Managed(w, g) && HoldsTable(w, vm.kernel, g))
  }

  /** The heap pages from `b` on were mapped to fresh frames; nothing else changed but tables. */
  ghost predicate Mapped(vm: Vm, w: Vm, b: nat, frames: seq<nat>) {
    && Sound(w) && SameSpaces(vm, w) && vm.used <= w.used && Distinct(frames)
    && AllMapFresh(vm, w, b, frames)
    && SameOutside(vm, w, b, |frames|) && NewUse(vm, w, frames) && PrivateKept(vm, w)
    && OthersHoldSame(vm, w, vm.kernel) && NoNewHuge(vm, w) && TablesKept(vm, w)
  }

  lemma MappedNone(vm: Vm, b: nat)
    requires Sound(vm)
    ensures Mapped(vm, vm, b, [])
  {
  }

  lemma FreshKept(vm: Vm, v: Vm, w: Vm, b: nat, frames: seq<nat>, f: nat, k: nat)
    requires k < |frames| && MapsFresh(vm, v, b, frames, k) && b + |frames| < KPAGES && vm.kernel in v.roots
    requires Updated(v, w, vm.kernel, KPage(b + |frames|), Some(Pte(f, 3))) && PrivateKept(v, w)
    ensures MapsFresh(vm, w, b, frames + [f], k)
  {
    KPageInjective(b + k, b + |frames|);
    hide Translate, KPage, Private;
    assert (frames + [f])[k] == frames[k];
  }

  lemma NewUseStep(vm: Vm, v: Vm, w: Vm, frames: seq<nat>, f: nat, pg: Page, ok: bool)
    requires NewUse(vm, v, frames) && v.kernel == vm.kernel && v.total == vm.total && pg.Kernel()
    requires AllocResult(v, w, vm.kernel, pg, 3, f, ok)
    ensures NewUse(vm, w, if ok then frames + [f] else frames)
  {
    hide Tables, Exclusive, Translate, OnlySpace, HoldsPage, HoldsTable, PrivateKept, Private;
    forall g: nat | g in w.used && g !in vm.used && g !in frames && !(ok && g == f) ensures Managed(w, g) && HoldsTable(w, vm.kernel, g) {
      if g in v.used { TablesStay(v, w, vm.kernel, g); }
    }
  }

  /** One page more. */
  lemma MappedStep(vm: Vm, v: Vm, w: Vm, b: nat, frames: seq<nat>, f: nat)
    requires Mapped(vm, v, b, frames) && b + |frames| < KPAGES && vm.kernel in vm.roots
    requires AllocResult(v, w, vm.kernel, KPage(b + |frames|), 3, f, true)
    ensures Mapped(vm, w, b, frames + [f])
  {
    KPageIsKernel(b + |frames|);
    AllocFacts(v, w, KPage(b + |frames|), f);
    NewUseStep(vm, v, w, frames, f, KPage(b + |frames|), true);
    hide AllocResult, KPage;
    MappedMore(vm, v, w, b, frames, f);
  }

  lemma MappedMore(vm: Vm, v: Vm, w: Vm, b: nat, frames: seq<nat>, f: nat)
    requires Mapped(vm, v, b, frames) && b + |frames| < KPAGES && vm.kernel in vm.roots
    requires Sound(w) && SameSpaces(v, w) && v.used <= w.used && Managed(v, f) && f !in v.used
    requires Updated(v, w, v.kernel, KPage(b + |frames|), Some(Pte(f, 3))) && Private(w, f) && PrivateKept(v, w)
    requires NewUse(vm, w, frames + [f]) && OthersHoldSame(v, w, v.kernel) && NoNewHuge(v, w) && TablesKept(v, w)
    ensures Mapped(vm, w, b, frames + [f])
  {
    HoldSameTwice(vm, v, w);
    NoNewHugeTransitive(vm, v, w);
    hide OthersHoldSame, NoNewHuge;
    hide KPage, Sound, Private, Updated, SameOutside, NewUse, AllMapFresh, Distinct, PrivateKept, MapsFresh;
    var n := |frames|;
    OutsideUpdated(vm, v, w, b, n, Some(Pte(f, 3)));
    FreshLast(vm, v, w, b, frames, f);
    AllFresh(vm, v, w, b, frames, f);
    FreshInUse(vm, v, b, frames);
    PrivateKeptTwice(vm, v, w);
    DistinctMore(frames, f);
    assert |frames + [f]| == n + 1;
  }

  lemma AllocFacts(v: Vm, w: Vm, pg: Page, f: nat)
    requires AllocResult(v, w, v.kernel, pg, 3, f, true) && pg.Kernel()
    ensures Sound(w) && SameSpaces(v, w) && v.used <= w.used && Managed(v, f) && f !in v.used
    ensures Updated(v, w, v.kernel, pg, Some(Pte(f, 3))) && Private(w, f) && PrivateKept(v, w)
    ensures OthersHoldSame(v, w, v.kernel) && NoNewHuge(v, w) && TablesKept(v, w)
  {
    assert Leaf(Pte(f, 3)) == Some(Pte(f, 3));
    hide Tables, Exclusive, Translate, OnlySpace, HoldsPage, HoldsTable, Private;
  }

  lemma FreshLast(vm: Vm, v: Vm, w: Vm, b: nat, frames: seq<nat>, f: nat)
    requires SameSpaces(vm, v) && vm.used <= v.used && vm.kernel in v.roots
    requires Managed(v, f) && f !in v.used && Private(w, f) && Updated(v, w, v.kernel, KPage(b + |frames|), Some(Pte(f, 3)))
    ensures MapsFresh(vm, w, b, frames + [f], |frames|)
  {
    hide Translate, KPage, Private;
    assert (frames + [f])[|frames|] == f;
  }

  lemma AllFresh(vm: Vm, v: Vm, w: Vm, b: nat, frames: seq<nat>, f: nat)
    requires Mapped(vm, v, b, frames) && b + |frames| < KPAGES && vm.kernel in v.roots
    requires Updated(v, w, vm.kernel, KPage(b + |frames|), Some(Pte(f, 3))) && PrivateKept(v, w)
    requires MapsFresh(vm, w, b, frames + [f], |frames|)
    ensures AllMapFresh(vm, w, b, frames + [f])
  {
    hide MapsFresh, Sound, Updated, PrivateKept, SameOutside, NewUse;
    forall k | 0 <= k < |frames + [f]| ensures MapsFresh(vm, w, b, frames + [f], k) {
      if k < |frames| {
        FreshAt(vm, v, b, frames, k);
        FreshKept(vm, v, w, b, frames, f, k);
      }
    }
  }

  lemma FreshAt(vm: Vm, v: Vm, b: nat, frames: seq<nat>, k: nat)
    requires AllMapFresh(vm, v, b, frames) && k < |frames|
    ensures MapsFresh(vm, v, b, frames, k)
  {
    var f := frames[k];
  }

  lemma DistinctMore(frames: seq<nat>, f: nat)
    requires Distinct(frames) && forall k {:trigger frames[k]} :: 0 <= k < |frames| ==> frames[k] != f
    ensures Distinct(frames + [f])
  {
  }

  lemma HoldSameTwice(a: Vm, b: Vm, c: Vm)
    requires OthersHoldSame(a, b, a.kernel) && OthersHoldSame(b, c, a.kernel)
    ensures OthersHoldSame(a, c, a.kernel)
  {
    hide HeldBy;
    forall s: nat, g: nat | s != a.kernel ensures HeldBy(c, s, g) <==> HeldBy(a, s, g) {
      assert HeldBy(b, s, g) <==> HeldBy(a, s, g);
    }
  }

  lemma PrivateKeptTwice(a: Vm, b: Vm, c: Vm)
    requires PrivateKept(a, b) && PrivateKept(b, c)
    ensures PrivateKept(a, c)
  {
    hide Private;
    forall g: nat | Private(a, g) ensures Private(c, g) { assert Private(b, g); }
  }

  lemma OutsideKept(vm: Vm, v: Vm, w: Vm, b: nat, n: nat)
    requires SameOutside(vm, v, b, n) && SameTranslations(v, w) && v.roots == vm.roots
    ensures SameOutside(vm, w, b, n)
  {
    hide Translate, InRange;
    forall s, q | s in vm.roots && !InRange(q, b, n) ensures Translate(w.mem, s, q) == Translate(vm.mem, s, q) {
      assert Translate(v.mem, s, q) == Translate(vm.mem, s, q);
    }
  }

  lemma FreshInUse(vm: Vm, v: Vm, b: nat, frames: seq<nat>)
    requires Mapped(vm, v, b, frames)
    ensures forall k {:trigger frames[k]} :: 0 <= k < |frames| ==> frames[k] in v.used
  {
    forall k | 0 <= k < |frames| ensures frames[k] in v.used { assert MapsFresh(vm, v, b, frames, k); }
  }

  /** A failed page leaves what was mapped so far. */
  lemma MappedFail(vm: Vm, v: Vm, w: Vm, b: nat, frames: seq<nat>, pg: Page, f: nat)
    requires Mapped(vm, v, b, frames) && vm.kernel in vm.roots && pg.Kernel()
    requires AllocResult(v, w, vm.kernel, pg, 3, f, false)
    ensures Mapped(vm, w, b, frames)
  {
    FailKeepsHoldings(vm, v, w, pg, f);
    hide OthersHoldSame, NoNewHuge;
    NewUseStep(vm, v, w, frames, f, pg, false);
    hide KPage, Translate, Tables, Exclusive, OnlySpace, Private, HoldsPage, HoldsTable, InRange;
    forall k | 0 <= k < |frames| ensures MapsFresh(vm, w, b, frames, k) {
      assert MapsFresh(vm, v, b, frames, k);
    }
    OutsideKept(vm, v, w, b, |frames|);
    PrivateKeptTwice(vm, v, w);
  }

  lemma FailKeepsHoldings(vm: Vm, v: Vm, w: Vm, pg: Page, f: nat)
    requires AllocResult(v, w, vm.kernel, pg, 3, f, false) && pg.Kernel() && v.kernel == vm.kernel
    requires OthersHoldSame(vm, v, vm.kernel) && NoNewHuge(vm, v)
    ensures OthersHoldSame(vm, w, vm.kernel) && NoNewHuge(vm, w)
  {
    hide Tables, Exclusive, Translate, HoldsPage, HoldsTable, Private;
    HoldSameTwice(vm, v, w);
    NoNewHugeTransitive(vm, v, w);
  }

  // ---------------------------------------------------------------- unmapping

  ghost predicate AbsentRange(w: Vm, b: nat, n: nat) {
    forall m: nat {:trigger KAbsent(w, m)} :: b <= m < b + n ==> KAbsent(w, m)
  }

  /** Frames of heap pages not yet unmapped: mapped, private. */
  ghost predicate StillMapped(w: Vm, b: nat, frames: seq<nat>, n: nat) {
    forall k {:trigger frames[k]} :: n <= k < |frames| ==> 0 <= k && StillMaps(w, b, frames, k)
  }

  ghost predicate StillMaps(w: Vm, b: nat, frames: seq<nat>, k: nat)
    requires k < |frames|
  {
    Managed(w, frames[k]) && Private(w, frames[k]) && Translate(w.mem, w.kernel, KPage(b + k)) == Some(Pte(frames[k], 3))
  }

  /** The first `n` of the pages mapped to `frames` are unmapped and their frames free. */
  ghost predicate Unmapped(v: Vm, w: Vm, b: nat, frames: seq<nat>, n: nat)
    requires n <= |frames|
  {
    && Sound(w) && SameSpaces(v, w) && w.frameOf == v.frameOf
    && (forall g: nat {:trigger g in w.used} :: g in w.used <==> g in v.used && g !in frames[..n])
    && AbsentRange(w, b, n) && SameOutside(v, w, b, n) && StillMapped(w, b, frames, n)
    && OthersHoldSame(v, w, v.kernel)
  }

  /** Clearing a kernel entry and giving its frame back changes nothing user spaces hold. */
  lemma KernelUnmapHolds(v: Vm, u: Vm, pg: Page, addr: nat, f: nat)
    requires UnmapResult(v, u, v.kernel, pg, addr)
    ensures OthersHoldSame(v, Freed(u, f), v.kernel)
  {
    hide Tables, Exclusive, Translate, Updated, HeldBy, Entry;
    forall s: nat, g: nat | s != v.kernel ensures HeldBy(Freed(u, f), s, g) <==> HeldBy(v, s, g) {
      HeldIgnoresUsed(u, Freed(u, f), s, g);
      if SmallPage(v, v.kernel, pg) { KernelWriteHolds(v, u, On(v.kernel, v.kernel, pg, 3), pg.i1, NoPte, s, g); }
    }
  }

  lemma UnmapKeepsPrivate(v: Vm, u: Vm, pg: Page, addr: nat, g: nat)
    requires UnmapResult(v, u, v.kernel, pg, addr) && Private(v, g)
    ensures Private(u, g)
  {
    hide Tables, Exclusive, Translate, Cell, Updated;
    forall q, j: Index | Managed(u, g) && UserLeaf(u, q, j) ensures Entry(u, q, j).frame != g {
      assert q != On(v.kernel, v.kernel, pg, 3);
      assert Entry(u, q, j) == Entry(v, q, j);
      assert UserLeaf(v, q, j);
    }
  }

  lemma FreePrivate(u: Vm, f: nat, g: nat)
    requires Sound(u) && Private(u, f)
    ensures Sound(Freed(u, f))
    ensures Private(u, g) && g != f ==> Private(Freed(u, f), g)
  {
    FreeKeepsTables(u, f);
    FreeKeepsExclusive(u, f);
    hide Tables, Exclusive, Cell;
    var w := Freed(u, f);
    forall q, j: Index | UserLeaf(w, q, j) ensures UserLeaf(u, q, j) && Entry(w, q, j) == Entry(u, q, j) {
    }
  }

  lemma ThreeIsSmall(v: Vm, pg: Page, f: nat, d: nat)
    requires Tables(v) && d <= 3 && On(v.kernel, v.kernel, pg, d) in v.frameOf
    requires Translate(v.mem, v.kernel, pg) == Some(Pte(f, 3))
    ensures SmallPage(v, v.kernel, pg)
    decreases 3 - d
  {
    TranslateIs(v, v.kernel, pg, d);
    if d < 3 {
      WalkStep(v, v.kernel, pg, d);
      assert Links(Entry(v, On(v.kernel, v.kernel, pg, d), pg.At(d)), d);
      ThreeIsSmall(v, pg, f, d + 1);
    }
  }

  lemma UnmappedStep(v0: Vm, v: Vm, u: Vm, b: nat, frames: seq<nat>, n: nat, addr: nat)
    requires n < |frames| && Unmapped(v0, v, b, frames, n) && Distinct(frames) && b + |frames| <= KPAGES
    requires UnmapResult(v, u, v.kernel, KPage(b + n), addr)
    ensures addr == frames[n] * 4096 && Unmapped(v0, Freed(u, frames[n]), b, frames, n + 1)
    ensures Managed(u, frames[n])
  {
    var f, w := frames[n], Freed(u, frames[n]);
    assert StillMaps(v, b, frames, n);
    assert On(v.kernel, v.kernel, KPage(b + n), 0) == Pml4(v.kernel);
    ThreeIsSmall(v, KPage(b + n), f, 0);
    hide Tables, Exclusive, Translate, KPage, SmallPage, Private;
    UnmapKeepsPrivate(v, u, KPage(b + n), addr, f);
    FreePrivate(u, f, f);
    KernelUnmapHolds(v, u, KPage(b + n), addr, f);
    HoldSameTwice(v0, v, w);
    hide OthersHoldSame;
    OutsideUpdated(v0, v, w, b, n, None);
    AbsentStep(v, w, b, n);
    hide Sound, SameOutside, AbsentRange;
    forall k | n + 1 <= k < |frames| ensures StillMaps(w, b, frames, k) {
      StillStep(v, u, b, frames, n, k, addr);
    }
    hide StillMaps, UnmapResult;
    assert frames[..n + 1] == frames[..n] + [f];
  }

  lemma AbsentStep(v: Vm, w: Vm, b: nat, n: nat)
    requires AbsentRange(v, b, n) && b + n < KPAGES && v.kernel in v.roots && w.kernel == v.kernel
    requires Updated(v, w, v.kernel, KPage(b + n), None)
    ensures AbsentRange(w, b, n + 1)
  {
    hide Translate, KPage;
    forall m: nat | b <= m < b + n + 1 ensures KAbsent(w, m) {
      KPageInjective(m, b + n);
      if m < b + n { assert KAbsent(v, m); }
    }
  }

  lemma StillStep(v: Vm, u: Vm, b: nat, frames: seq<nat>, n: nat, k: nat, addr: nat)
    requires n < k < |frames| && StillMapped(v, b, frames, n) && Distinct(frames) && b + |frames| <= KPAGES
    requires UnmapResult(v, u, v.kernel, KPage(b + n), addr) && v.kernel in v.roots && Sound(u) && Private(u, frames[n])
    requires Updated(v, u, v.kernel, KPage(b + n), None)
    ensures StillMaps(Freed(u, frames[n]), b, frames, k)
  {
    hide Tables, Exclusive, Translate, KPage, Private;
    assert StillMaps(v, b, frames, k);
    UnmapKeepsPrivate(v, u, KPage(b + n), addr, frames[k]);
    FreePrivate(u, frames[n], frames[k]);
    KPageInjective(b + k, b + n);
    assert frames[n] != frames[k];
  }

  /** Mapping and unmapping again: all translations as before, and only tables stay in use. */
  lemma RolledBack(vm: Vm, v: Vm, w: Vm, b: nat, frames: seq<nat>)
    requires Mapped(vm, v, b, frames) && Unmapped(v, w, b, frames, |frames|) && AbsentRange(vm, b, |frames|)
    requires b + |frames| <= KPAGES && Sound(vm)
    ensures Sound(w) && SameSpaces(vm, w) && SameTranslations(vm, w) && vm.used <= w.used && TablesKept(vm, w)
    ensures NewAreTables(vm, w, vm.kernel) && OthersHoldSame(vm, w, vm.kernel)
  {
    HoldSameTwice(vm, v, w);
    hide OthersHoldSame, NoNewHuge;
    assert frames[..|frames|] == frames;
    FreshWereFree(vm, v, b, frames);
    hide Tables, Exclusive, Translate, KPage, Private, HoldsTable;
    OnlyTablesRemain(vm, v, w, frames);
    hide NewUse;
    forall s, pg | s in vm.roots ensures Translate(w.mem, s, pg) == Translate(vm.mem, s, pg) {
      RolledBackAt(vm, v, w, b, |frames|, s, pg);
    }
  }

  lemma OnlyTablesRemain(vm: Vm, v: Vm, w: Vm, frames: seq<nat>)
    requires NewUse(vm, v, frames) && w.frameOf == v.frameOf && w.total == v.total
    requires forall g: nat {:trigger g in w.used} :: g in w.used <==> g in v.used && g !in frames
    ensures NewAreTables(vm, w, vm.kernel)
  {
    hide HoldsTable;
    forall g: nat | g in w.used ensures g in vm.used || (Managed(w, g) && HoldsTable(w, vm.kernel, g)) {
      assert g in v.used;
      if g !in vm.used { TablesStay(v, w, vm.kernel, g); }
    }
  }

  lemma FreshWereFree(vm: Vm, v: Vm, b: nat, frames: seq<nat>)
    requires Mapped(vm, v, b, frames)
    ensures forall g :: g in frames ==> g !in vm.used
  {
    forall g | g in frames ensures g !in vm.used {
      var k :| 0 <= k < |frames| && frames[k] == g;
      assert MapsFresh(vm, v, b, frames, k);
    }
  }

  lemma RolledBackAt(vm: Vm, v: Vm, w: Vm, b: nat, n: nat, s: nat, pg: Page)
    requires Tables(vm) && Tables(w) && SameSpaces(vm, v) && SameSpaces(v, w) && s in vm.roots && b + n <= KPAGES
    requires AbsentRange(vm, b, n) && AbsentRange(w, b, n) && SameOutside(vm, v, b, n) && SameOutside(v, w, b, n)
    ensures Translate(w.mem, s, pg) == Translate(vm.mem, s, pg)
  {
    if InRange(pg, b, n) {
      KIndexIs(pg);
      KernelHalfShared(vm, s, pg);
      KernelHalfShared(w, s, pg);
      assert KAbsent(vm, KIndex(pg)) && KAbsent(w, KIndex(pg));
    } else {
      hide Tables, Translate, InRange;
      assert Translate(v.mem, s, pg) == Translate(vm.mem, s, pg);
    }
  }

  lemma KIndexIs(pg: Page)
    requires InZone(pg)
    ensures KIndex(pg) < KPAGES && KPage(KIndex(pg)) == pg
  {
    hide KPage;
    DigitsOf(pg.i3, pg.i2, pg.i1);
    KPageIs(KIndex(pg));
  }

  lemma DigitsOf(a: Index, b: Index, c: Index)
    ensures var n := a * 0x4_0000 + b * 512 + c;
            0 <= n < KPAGES && n / 0x4_0000 == a && n / 512 % 512 == b && n % 512 == c
  {
    var n := a * 0x4_0000 + b * 512 + c;
    assert n == (a * 512 + b) * 512 + c;
    assert n / 512 == a * 512 + b;
    assert n / 0x4_0000 == a;
  }

  /** Why the heap could not grow: a large page in the way, or too few frames. */
  ghost predicate GrowthFails(vm: Vm, w: Vm, b: nat, pages: nat) {
    (exists m: nat :: b <= m < b + pages && Collides(vm, vm.kernel, KPage(m))) || FewFree(w, pages)
  }

  lemma GrowthReason(vm: Vm, v: Vm, u: Vm, w: Vm, b: nat, frames: seq<nat>, pages: nat, f: nat)
    requires Mapped(vm, v, b, frames) && AllocResult(v, u, v.kernel, KPage(b + |frames|), 3, f, false)
    requires Unmapped(u, w, b, frames, |frames|) && |frames| < pages
    ensures GrowthFails(vm, w, b, pages)
  {
    hide Tables, Exclusive, Translate, HoldsPage, HoldsTable, Private, KPage, NoNewHuge, OthersHoldSame, SameOutside, AbsentRange, StillMapped, AllMapFresh, NewUse;
    if Collides(v, v.kernel, KPage(b + |frames|)) {
      CollidesBefore(vm, v, vm.kernel, KPage(b + |frames|));
    } else {
      assert frames[..|frames|] == frames;
      FewAfterReturn(u, w, frames, f, pages);
    }
  }

  // -------------------------------------------------- what user spaces see of it

  /** The part of the kernel half that holds the heap. */
  predicate InZone(pg: Page) { pg.i4 == HEAP_SLOT }

  ghost predicate SameOffZone(vm: Vm, w: Vm) {
    forall s, pg {:trigger Translate(w.mem, s, pg)} :: s in vm.roots && !InZone(pg) ==>
      Translate(w.mem, s, pg) == Translate(vm.mem, s, pg)
  }

  /**
    The kernel heap took the frames `w.used - vm.used`: translations outside its zone and
    everything user spaces hold are as before.
   */
  ghost predicate KernelGrew(vm: Vm, w: Vm) {
    && Sound(w) && SameSpaces(vm, w) && vm.used <= w.used
    && SameOffZone(vm, w) && OthersHoldSame(vm, w, vm.kernel) && TookForKernel(vm, w) && KernelKeeps(vm, w)
  }

  /** A frame the kernel holds: one of its tables, or a page of its heap. */
  ghost predicate KernelHolds(w: Vm, g: nat) {
    HeldBy(w, w.kernel, g) || exists m: nat :: m < KPAGES && HeapPageIs(w, m, g)
  }

  ghost predicate HeapPageIs(w: Vm, m: nat, g: nat) {
    Translate(w.mem, w.kernel, KPage(m)) == Some(Pte(g, 3))
  }

  /** What the kernel heap took it holds. */
  ghost predicate TookForKernel(vm: Vm, w: Vm) {
    forall g: nat {:trigger g in w.used} :: g in w.used && g !in vm.used ==> KernelHolds(w, g)
  }

  /** What the kernel held it still holds. */
  ghost predicate KernelKeeps(vm: Vm, w: Vm) {
    forall g: nat {:trigger KernelHolds(w, g)} :: KernelHolds(vm, g) ==> KernelHolds(w, g)
  }

  lemma HeapPageStays(vm: Vm, w: Vm, g: nat)
    requires w.kernel == vm.kernel && w.total == vm.total && TablesKept(vm, w) && KernelHolds(vm, g)
    requires forall m: nat {:trigger KPage(m)} :: m < KPAGES && KBacked(vm, m) ==> Translate(w.mem, vm.kernel, KPage(m)) == Translate(vm.mem, vm.kernel, KPage(m))
    ensures KernelHolds(w, g)
  {
    hide Translate, KPage, HoldsTable, HoldsPage;
    if HeldBy(vm, vm.kernel, g) {
      NoKernelPage(vm, g);
      TablesStay(vm, w, vm.kernel, g);
    } else {
      var m: nat :| m < KPAGES && HeapPageIs(vm, m, g);
      assert KBacked(vm, m);
      assert HeapPageIs(w, m, g);
    }
  }

  lemma NoKernelPage(vm: Vm, g: nat)
    ensures !HoldsPage(vm, vm.kernel, g)
  {
  }

  lemma GrewNothing(vm: Vm)
    requires Sound(vm)
    ensures KernelGrew(vm, vm)
  {
  }

  /** A failed expansion, seen from user spaces. */
  lemma RestoredGrew(vm: Vm, w: Vm)
    requires Sound(w) && SameSpaces(vm, w) && SameTranslations(vm, w) && vm.used <= w.used && NewAreTables(vm, w, vm.kernel)
    requires OthersHoldSame(vm, w, vm.kernel) && TablesKept(vm, w) && vm.kernel in vm.roots
    ensures KernelGrew(vm, w)
  {
    hide Sound, Translate, KPage, OthersHoldSame, HoldsTable, HoldsPage;
    forall g: nat | KernelHolds(vm, g) ensures KernelHolds(w, g) { HeapPageStays(vm, w, g); }
  }

  lemma MappedGrew(vm: Vm, w: Vm, b: nat, frames: seq<nat>)
    requires Mapped(vm, w, b, frames) && b + |frames| <= KPAGES && HeapPages(vm, b) && vm.kernel in vm.roots
    ensures KernelGrew(vm, w)
  {
    hide Sound, Translate, KPage, OthersHoldSame, NoNewHuge, HoldsTable, Private, HoldsPage;
    forall m: nat | m < KPAGES && KBacked(vm, m)
      ensures Translate(w.mem, vm.kernel, KPage(m)) == Translate(vm.mem, vm.kernel, KPage(m))
    {
      assert m < b || KAbsent(vm, m);
      OutsideSame(vm, w, b, |frames|, m);
    }
    forall g: nat | KernelHolds(vm, g) ensures KernelHolds(w, g) { HeapPageStays(vm, w, g); }
    forall s, pg | s in vm.roots && !InZone(pg) ensures Translate(w.mem, s, pg) == Translate(vm.mem, s, pg) {
      assert !InRange(pg, b, |frames|);
    }
    forall g: nat | g in w.used && g !in vm.used ensures KernelHolds(w, g) {
      if g in frames {
        var k :| 0 <= k < |frames| && frames[k] == g;
        FreshAt(vm, w, b, frames, k);
        assert HeapPageIs(w, b + k, g);
      }
    }
  }
}
