/** Ranges of user pages mapped to fresh frames and unmapped again. */
module UHeapPages {
  import opened Basics
  import opened PageTables
  import opened PagingSteps
  import opened PagingSpaces
  import opened PagingOps

  /** The heap window lies below 1 GB: pages 0 .. 0x40000 are served by one page directory. */
  const LIMIT: nat := 0x40000

  function UPage(n: nat): Page { PageOf(n * 4096) }

  lemma UPageIs(n: nat)
    requires n < LIMIT
    ensures UPage(n) == Page(0, 0, n / 512, n % 512) && !UPage(n).Kernel()
  {
  }

  lemma UPageInjective(n: nat, m: nat)
    requires n < LIMIT && m < LIMIT
    ensures UPage(n) == UPage(m) <==> n == m
  {
    UPageIs(n);
    UPageIs(m);
  }

  lemma PageOfByte(n: nat, k: nat)
    requires n < LIMIT && k < 4096
    ensures PageOf(n * 4096 + k) == UPage(n)
  {
    UPageIs(n);
    assert (n * 4096 + k) / 4096 == n;
  }

  /** `pg` is one of the `n` pages from `b`. */
  predicate InRange(pg: Page, b: nat, n: nat) {
    pg.i4 == 0 && pg.i3 == 0 && b <= pg.i2 * 512 + pg.i1 < b + n
  }

  lemma UPageInRange(m: nat, b: nat, n: nat)
    requires m < LIMIT
    ensures InRange(UPage(m), b, n) <==> b <= m < b + n
  {
    UPageIs(m);
  }

  lemma InRangeIsUPage(pg: Page, b: nat, n: nat)
    requires InRange(pg, b, n)
    ensures pg == UPage(pg.i2 * 512 + pg.i1)
  {
    UPageIs(pg.i2 * 512 + pg.i1);
  }

  // ------------------------------------------------------------------ mapping

  /** Page `b + k` maps `frames[k]`, which was free, by a 4 KB entry. */
  ghost predicate MapsFresh(vm: Vm, w: Vm, r: nat, b: nat, frames: seq<nat>, k: nat)
    requires k < |frames|
  {
    && Managed(vm, frames[k]) && frames[k] !in vm.used
    && Translate(w.mem, r, UPage(b + k)) == Some(Pte(frames[k], 7))
  }

  ghost predicate SameOutside(vm: Vm, w: Vm, r: nat, b: nat, n: nat) {
    forall pg {:trigger Translate(w.mem, r, pg)} :: !InRange(pg, b, n) ==>
      Translate(w.mem, r, pg) == Translate(vm.mem, r, pg)
  }

  /** The pages `b ..` of `r` were mapped to fresh frames and nothing else changed. */
  ghost predicate Mapped(vm: Vm, w: Vm, r: nat, b: nat, frames: seq<nat>) {
    && Sound(w) && OnlySpace(vm, w, r) && SameSpaces(vm, w) && vm.used <= w.used
    && (forall k {:trigger frames[k]} :: 0 <= k < |frames| ==> MapsFresh(vm, w, r, b, frames, k))
    && SameOutside(vm, w, r, b, |frames|)
    && (forall g: nat {:trigger HoldsPage(w, r, g)} :: HoldsPage(w, r, g) <==> HoldsPage(vm, r, g) || g in frames)
    && NoNewHuge(vm, w)
  }

  lemma MappedNone(vm: Vm, r: nat, b: nat)
    requires Sound(vm)
    ensures Mapped(vm, vm, r, b, [])
  {
    OnlySpaceReflexive(vm, r);
  }

  lemma OutsideSame(vm: Vm, v: Vm, r: nat, b: nat, n: nat, m: nat)
    requires SameOutside(vm, v, r, b, n) && m < LIMIT && !(b <= m < b + n)
    ensures Translate(v.mem, r, UPage(m)) == Translate(vm.mem, r, UPage(m)) && !UPage(m).Kernel()
  {
    UPageIs(m);
    UPageInRange(m, b, n);
    hide UPage, Translate, InRange;
  }

  lemma OutsideUpdated(vm: Vm, v: Vm, w: Vm, r: nat, b: nat, n: nat, m: Option<Pte>)
    requires SameOutside(vm, v, r, b, n) && b + n < LIMIT && r in v.roots
    requires Updated(v, w, r, UPage(b + n), m)
    ensures SameOutside(vm, w, r, b, n + 1)
  {
    hide Translate, UPage;
    forall pg | !InRange(pg, b, n + 1) ensures Translate(w.mem, r, pg) == Translate(vm.mem, r, pg) {
      UPageInRange(b + n, b, n + 1);
      assert !InRange(pg, b, n);
      assert Translate(v.mem, r, pg) == Translate(vm.mem, r, pg);
    }
  }

  lemma FreshKept(vm: Vm, v: Vm, w: Vm, r: nat, b: nat, frames: seq<nat>, f: nat, k: nat)
    requires k < |frames| && MapsFresh(vm, v, r, b, frames, k) && b + |frames| < LIMIT && r in v.roots
    requires Updated(v, w, r, UPage(b + |frames|), Some(Pte(f, 7)))
    ensures MapsFresh(vm, w, r, b, frames + [f], k)
  {
    UPageInjective(b + k, b + |frames|);
    hide Translate, UPage;
    assert (frames + [f])[k] == frames[k];
  }

  /** One page more. */
  lemma MappedStep(vm: Vm, v: Vm, w: Vm, r: nat, b: nat, frames: seq<nat>, f: nat)
    requires Mapped(vm, v, r, b, frames) && b + |frames| < LIMIT && r in vm.roots && r != vm.kernel
    requires AllocResult(v, w, r, UPage(b + |frames|), 7, f, true)
    requires Translate(vm.mem, r, UPage(b + |frames|)) == None
    ensures Mapped(vm, w, r, b, frames + [f])
  {
    hide UPage, Translate, Tables, Exclusive, NoNewHuge;
    var n := |frames|;
    OutsideSame(vm, v, r, b, n, b + n);
    NoNewHugeTransitive(vm, v, w);
    assert Pte(0, 7).Present();
    assert NewUserPage(v, r, UPage(b + n), 7);
    OutsideUpdated(vm, v, w, r, b, n, Some(Pte(f, 7)));
    OnlySpaceTransitive(vm, v, w, r);
    hide OnlySpace, HoldsPage, Sound, SameOutside;
    forall k | 0 <= k < n + 1 ensures MapsFresh(vm, w, r, b, frames + [f], k) {
      if k < n {
        assert frames[k] == frames[k];
        FreshKept(vm, v, w, r, b, frames, f, k);
      }
    }
    hide Updated, MapsFresh;
    forall g: nat ensures HoldsPage(w, r, g) <==> HoldsPage(vm, r, g) || g in frames + [f] {
      assert HoldsPage(v, r, g) <==> HoldsPage(vm, r, g) || g in frames;
    }
  }

  // ---------------------------------------------------------------- unmapping

  lemma {:induction false} SmallFrom(vm: Vm, r: nat, pg: Page, f: nat, d: nat)
    requires Tables(vm) && r in vm.roots && d <= 3 && On(vm.kernel, r, pg, d) in vm.frameOf
    requires Translate(vm.mem, r, pg) == Some(Pte(f, 7))
    ensures On(vm.kernel, r, pg, 3) in vm.frameOf && Entry(vm, On(vm.kernel, r, pg, 3), pg.i1) == Pte(f, 7)
    decreases 3 - d
  {
    TranslateIs(vm, r, pg, d);
    if d < 3 {
      WalkStep(vm, r, pg, d);
      assert Links(Entry(vm, On(vm.kernel, r, pg, d), pg.At(d)), d);
      SmallFrom(vm, r, pg, f, d + 1);
    }
  }

  /** Flags 7 lack the large-page bit: the page is mapped by a 4 KB entry. */
  lemma SevenIsSmall(vm: Vm, r: nat, pg: Page, f: nat)
    requires Tables(vm) && r in vm.roots && Translate(vm.mem, r, pg) == Some(Pte(f, 7))
    ensures SmallPage(vm, r, pg) && On(vm.kernel, r, pg, 3) in vm.frameOf
    ensures Entry(vm, On(vm.kernel, r, pg, 3), pg.i1) == Pte(f, 7)
  {
    assert On(vm.kernel, r, pg, 0) == Pml4(r);
    SmallFrom(vm, r, pg, f, 0);
  }

  ghost predicate Absent(w: Vm, r: nat, m: nat) {
    Translate(w.mem, r, UPage(m)) == None
  }

  ghost predicate AbsentRange(w: Vm, r: nat, b: nat, n: nat) {
    forall m: nat {:trigger Absent(w, r, m)} :: b <= m < b + n ==> Absent(w, r, m)
  }

  /** Page `b + k` of `r` maps the managed frame `frames[k]` by a 4 KB entry. */
  ghost predicate MapsTo(vm: Vm, r: nat, b: nat, frames: seq<nat>, k: nat)
    requires k < |frames|
  {
    Managed(vm, frames[k]) && Translate(vm.mem, r, UPage(b + k)) == Some(Pte(frames[k], 7))
  }

  ghost predicate RangeMaps(vm: Vm, r: nat, b: nat, frames: seq<nat>) {
    forall k {:trigger frames[k]} :: 0 <= k < |frames| ==> MapsTo(vm, r, b, frames, k)
  }

  lemma AbsentUpdated(v: Vm, w: Vm, r: nat, b: nat, n: nat)
    requires AbsentRange(v, r, b, n) && b + n < LIMIT && r in v.roots && Updated(v, w, r, UPage(b + n), None)
    ensures AbsentRange(w, r, b, n + 1)
  {
    hide Translate, UPage;
    forall m: nat | b <= m < b + n + 1 ensures Absent(w, r, m) {
      UPageInjective(m, b + n);
      if m < b + n { assert Absent(v, r, m); }
    }
  }

  /** The first `n` of the pages mapped to `frames` are unmapped and their frames given back. */
  ghost predicate Unmapped(vm: Vm, w: Vm, r: nat, b: nat, frames: seq<nat>, n: nat)
    requires n <= |frames|
  {
    && Sound(w) && OnlySpace(vm, w, r) && SameSpaces(vm, w) && w.used <= vm.used && w.frameOf == vm.frameOf
    && AbsentRange(w, r, b, n) && SameOutside(vm, w, r, b, n)
    && (forall g: nat {:trigger HoldsPage(w, r, g)} :: HoldsPage(w, r, g) <==> HoldsPage(vm, r, g) && g !in frames[..n])
    && (forall g: nat {:trigger g in w.used} :: g in vm.used && g !in frames[..n] ==> g in w.used)
  }

  lemma UnmappedNone(vm: Vm, r: nat, b: nat, frames: seq<nat>)
    requires Sound(vm)
    ensures Unmapped(vm, vm, r, b, frames, 0)
  {
    OnlySpaceReflexive(vm, r);
  }

  /** Unmapping one page and freeing its frame. */
  lemma UnmapFrees(v: Vm, u: Vm, w: Vm, r: nat, pg: Page, addr: nat, f: nat)
    requires Sound(v) && r in v.roots && r != v.kernel && !pg.Kernel() && Managed(v, f)
    requires Translate(v.mem, r, pg) == Some(Pte(f, 7)) && UnmapResult(v, u, r, pg, addr) && w == Freed(u, f)
    ensures Sound(w) && OnlySpace(v, w, r) && SameSpaces(v, w) && w.used <= v.used && w.frameOf == v.frameOf
    ensures Updated(v, w, r, pg, None) && addr == f * 4096 && f in v.used && v.used <= w.used + {f}
    ensures forall g: nat {:trigger HoldsPage(w, r, g)} :: HoldsPage(w, r, g) <==> HoldsPage(v, r, g) && g != f
  {
    SevenIsSmall(v, r, pg, f);
    var p := On(v.kernel, r, pg, 3);
    hide Tables, Exclusive, Translate, SmallPage;
    assert UserLeaf(v, p, pg.i1);
    assert f in v.used by { LeafInUse(v, r, f); }
    UnmapOnlySpace(v, u, w, p, pg.i1);
    hide OnlySpace, HeldBy;
    forall g: nat ensures HoldsPage(w, r, g) <==> HoldsPage(v, r, g) && g != f {
      ClearPages(v, u, p, pg.i1, r, g);
      PagesIgnoreUsed(u, w);
    }
  }

  lemma UnmappedStep(vm: Vm, v: Vm, u: Vm, w: Vm, r: nat, b: nat, frames: seq<nat>, n: nat, addr: nat)
    requires n < |frames| && Unmapped(vm, v, r, b, frames, n) && b + |frames| <= LIMIT && r in vm.roots && r != vm.kernel
    requires MapsTo(vm, r, b, frames, n)
    requires UnmapResult(v, u, r, UPage(b + n), addr) && w == Freed(u, frames[n])
    ensures Unmapped(vm, w, r, b, frames, n + 1) && addr == frames[n] * 4096 && Managed(v, frames[n]) && frames[n] in v.used
  {
    hide UPage, Translate, Tables, Exclusive, UnmapResult;
    hide OnlySpace, Sound, SameOutside, AbsentRange, HoldsPage, Updated;
    OutsideSame(vm, v, r, b, n, b + n);
    UnmapFrees(v, u, w, r, UPage(b + n), addr, frames[n]);
    OutsideUpdated(vm, v, w, r, b, n, None);
    AbsentUpdated(v, w, r, b, n);
    OnlySpaceTransitive(vm, v, w, r);
    forall g: nat ensures HoldsPage(w, r, g) <==> HoldsPage(vm, r, g) && g !in frames[..n + 1] {
      assert HoldsPage(v, r, g) <==> HoldsPage(vm, r, g) && g !in frames[..n];
      assert frames[..n + 1] == frames[..n] + [frames[n]];
    }
    forall g: nat | g in vm.used && g !in frames[..n + 1] ensures g in w.used {
      assert frames[..n + 1] == frames[..n] + [frames[n]];
      assert g in v.used;
    }
  }

  lemma RolledBackTranslations(vm: Vm, v: Vm, w: Vm, r: nat, b: nat, n: nat, pg: Page)
    requires AbsentRange(vm, r, b, n) && SameOutside(vm, v, r, b, n) && SameOutside(v, w, r, b, n) && AbsentRange(w, r, b, n)
    ensures Translate(w.mem, r, pg) == Translate(vm.mem, r, pg)
  {
    hide Translate, UPage;
    if InRange(pg, b, n) {
      InRangeIsUPage(pg, b, n);
      assert Absent(vm, r, pg.i2 * 512 + pg.i1) && Absent(w, r, pg.i2 * 512 + pg.i1);
    } else {
      hide InRange;
      assert Translate(v.mem, r, pg) == Translate(vm.mem, r, pg);
    }
  }

  /** Mapping a range and unmapping it again leaves every translation and every page holding as it was. */
  lemma RolledBack(vm: Vm, v: Vm, w: Vm, r: nat, b: nat, frames: seq<nat>)
    requires Mapped(vm, v, r, b, frames) && Unmapped(v, w, r, b, frames, |frames|) && r in vm.roots && Sound(vm)
    requires AbsentRange(vm, r, b, |frames|)
    ensures Sound(w) && OnlySpace(vm, w, r) && SameSpaces(vm, w) && SameTranslations(vm, w)
    ensures forall g: nat {:trigger HoldsPage(w, r, g)} :: HoldsPage(w, r, g) <==> HoldsPage(vm, r, g)
  {
    hide Tables, Exclusive, Translate, UPage, AbsentRange, SameOutside;
    OnlySpaceTransitive(vm, v, w, r);
    forall g: nat ensures HoldsPage(w, r, g) <==> HoldsPage(vm, r, g) {
      assert HoldsPage(v, r, g) <==> HoldsPage(vm, r, g) || g in frames;
      assert frames[..|frames|] == frames;
      if g in frames {
        var k :| 0 <= k < |frames| && frames[k] == g;
        assert MapsFresh(vm, v, r, b, frames, k);
        FreeIsNotHeld(vm, r, g);
      }
    }
    forall s, pg | s in vm.roots ensures Translate(w.mem, s, pg) == Translate(vm.mem, s, pg) {
      if s == r { RolledBackTranslations(vm, v, w, r, b, |frames|, pg); }
    }
  }

  /** A failed allocation leaves the range as far as it got. */
  lemma MappedFail(vm: Vm, v: Vm, w: Vm, r: nat, b: nat, frames: seq<nat>, pg: Page, f: nat)
    requires Mapped(vm, v, r, b, frames) && r in vm.roots && !pg.Kernel()
    requires AllocResult(v, w, r, pg, 7, f, false)
    ensures Mapped(vm, w, r, b, frames)
  {
    NoNewHugeTransitive(vm, v, w);
    hide Tables, Exclusive, Translate, UPage, HoldsPage, NoNewHuge;
    OnlySpaceTransitive(vm, v, w, r);
    hide OnlySpace, Sound;
    forall k | 0 <= k < |frames| ensures MapsFresh(vm, w, r, b, frames, k) {
      assert MapsFresh(vm, v, r, b, frames, k);
    }
    forall g: nat ensures HoldsPage(w, r, g) <==> HoldsPage(vm, r, g) || g in frames {
      assert HoldsPage(v, r, g) <==> HoldsPage(vm, r, g) || g in frames;
    }
    OutsideKept(vm, v, w, r, b, |frames|);
  }

  lemma OutsideKept(vm: Vm, v: Vm, w: Vm, r: nat, b: nat, n: nat)
    requires SameOutside(vm, v, r, b, n) && r in v.roots && SameTranslations(v, w)
    ensures SameOutside(vm, w, r, b, n)
  {
    hide Translate, InRange;
    forall q | !InRange(q, b, n) ensures Translate(w.mem, r, q) == Translate(vm.mem, r, q) {
      assert Translate(v.mem, r, q) == Translate(vm.mem, r, q);
    }
  }

  /** Why a range of user pages could not be mapped: a large page in the way, or too few frames. */
  ghost predicate RangeFails(vm: Vm, w: Vm, r: nat, b: nat, pages: nat) {
    (exists m: nat :: b <= m < b + pages && Collides(vm, r, UPage(m))) || FewFree(w, pages)
  }

  lemma RangeReason(vm: Vm, v: Vm, u: Vm, w: Vm, r: nat, b: nat, frames: seq<nat>, pages: nat, f: nat)
    requires Mapped(vm, v, r, b, frames) && AllocResult(v, u, r, UPage(b + |frames|), 7, f, false)
    requires Unmapped(u, w, r, b, frames, |frames|) && |frames| < pages
    ensures RangeFails(vm, w, r, b, pages)
  {
    hide Tables, Exclusive, Translate, HoldsPage, HoldsTable, Private, UPage, NoNewHuge, OnlySpace, SameOutside, AbsentRange, MapsFresh;
    if Collides(v, r, UPage(b + |frames|)) {
      CollidesBefore(vm, v, r, UPage(b + |frames|));
    } else {
      assert frames[..|frames|] == frames;
      FewAfterReturn(u, w, frames, f, pages);
    }
  }

  lemma FreshIsMapped(vm: Vm, v: Vm, r: nat, b: nat, frames: seq<nat>, k: nat)
    requires Mapped(vm, v, r, b, frames) && k < |frames|
    ensures MapsTo(v, r, b, frames, k)
  {
    hide Sound, OnlySpace, Translate, UPage, HoldsPage;
    assert frames[k] == frames[k];
  }
}
