/** What each paging operation promises, as relations between states. */
module PagingOps {
  import opened Basics
  import opened PageTables
  import opened PagingSteps
  import opened PagingSpaces
  import opened PagingTeardown

  ghost predicate NoneFree(vm: Vm) {
    forall f :: Managed(vm, f) ==> f in vm.used
  }

  /** The root whose tables serve `pg`: kernel pages are served by the kernel's. */
  function Owner(vm: Vm, r: nat, pg: Page): nat {
    if pg.Kernel() then vm.kernel else r
  }

  // -------------------------------------------------------------- one level

  /** One level of the walk of a map: the next table, fresh if it was absent. */
  ghost predicate LevelResult(vm: Vm, w: Vm, p: Place, i: Index, next: nat, ok: bool) {
    var c := Child(vm.kernel, p, i);
    var huge := p.Depth() > 0 && Entry(vm, p, i).Huge();
    && (ok ==> !huge && c in w.frameOf && next == w.frameOf[c]
               && (w == vm || exists f: nat :: CanInstall(vm, p, i, f) && HasNewTable(vm, w, p, i, f)))
    && (!ok ==> w == vm && (huge || NoneFree(vm)))
  }

  lemma LevelGrows(vm: Vm, w: Vm, p: Place, i: Index, next: nat, ok: bool)
    requires Tables(vm) && LevelResult(vm, w, p, i, next, ok)
    ensures Grown(vm, w, p.root)
  {
    hide Tables, Grown, HasNewTable, CanInstall;
    if w == vm {
      GrownReflexive(vm, p.root);
    } else {
      var f: nat :| CanInstall(vm, p, i, f) && HasNewTable(vm, w, p, i, f);
      InstallGrows(vm, w, p, i, f);
    }
  }

  lemma LevelTakesOne(vm: Vm, w: Vm, p: Place, i: Index, next: nat, ok: bool)
    requires LevelResult(vm, w, p, i, next, ok)
    ensures |w.used| <= |vm.used| + 1
  {
    if w != vm {
      var f: nat :| CanInstall(vm, p, i, f) && HasNewTable(vm, w, p, i, f);
      hide Entry;
    }
  }

  lemma LevelGrowsOn(vm: Vm, w: Vm, r: nat, pg: Page, d: nat, next: nat, ok: bool)
    requires Tables(vm) && r in vm.roots && d < 3 && On(vm.kernel, r, pg, d) in vm.frameOf
    requires LevelResult(vm, w, On(vm.kernel, r, pg, d), pg.At(d), next, ok)
    ensures Grown(vm, w, Owner(vm, r, pg))
    ensures ok ==> On(w.kernel, r, pg, d + 1) in w.frameOf && next == w.frameOf[On(w.kernel, r, pg, d + 1)]
  {
    var p, i := On(vm.kernel, r, pg, d), pg.At(d);
    ChildOn(vm.kernel, r, pg, d);
    LevelGrows(vm, w, p, i, next, ok);
    if d == 0 && pg.Kernel() && w != vm {
      var f: nat :| CanInstall(vm, p, i, f) && HasNewTable(vm, w, p, i, f);
      InstallSetup(vm, p, i, f);
    }
    if w == vm { GrownReflexive(vm, Owner(vm, r, pg)); }
    hide Tables, Translate, Exclusive, OnlySpace, Private, HasNewTable;
  }

  lemma LevelLinked(vm: Vm, p: Place, i: Index)
    requires Tables(vm) && p in vm.frameOf && p.Depth() < 3
    requires Entry(vm, p, i).Present() && !(p.Depth() > 0 && Entry(vm, p, i).Huge())
    ensures Child(vm.kernel, p, i) in vm.frameOf
    ensures Entry(vm, p, i).frame == vm.frameOf[Child(vm.kernel, p, i)]
  {
    assert LinkOk(vm, p, i);
  }

  lemma TablesSized(vm: Vm, p: Place)
    requires Tables(vm) && p in vm.frameOf
    ensures Sized(vm.mem) && vm.total <= |vm.mem| && vm.frameOf[p] < |vm.mem|
  {
    assert PlaceOk(vm, p);
  }

  lemma LevelStops(vm: Vm, p: Place, i: Index)
    requires (p.Depth() > 0 && Entry(vm, p, i).Huge()) || NoneFree(vm)
    ensures LevelResult(vm, vm, p, i, 0, false)
  {
  }

  lemma LevelPresent(vm: Vm, p: Place, i: Index)
    requires Tables(vm) && p in vm.frameOf && p.Depth() < 3
    requires Entry(vm, p, i).Present() && !(p.Depth() > 0 && Entry(vm, p, i).Huge())
    ensures LevelResult(vm, vm, p, i, Entry(vm, p, i).frame, true)
  {
    LevelLinked(vm, p, i);
  }

  lemma LevelInstalls(vm: Vm, p: Place, i: Index, f: nat)
    requires Tables(vm) && CanInstall(vm, p, i, f) && !(p.Depth() > 0 && Entry(vm, p, i).Huge())
    ensures Sized(vm.mem) && f < |vm.mem| && vm.frameOf[p] < |vm.mem| && |Zeroed(vm.mem, f)| == |vm.mem|
    ensures Sized(Zeroed(vm.mem, f)) && Tables(Installed(vm, p, i, f))
    ensures LevelResult(vm, Installed(vm, p, i, f), p, i, f, true)
    ensures Cell(Installed(vm, p, i, f).mem, vm.frameOf[p], i) == TableLink(f)
  {
    InstallSetup(vm, p, i, f);
    InstallHasNewTable(vm, p, i, f);
    CellOfZeroed(vm.mem, f);
    var w := Installed(vm, p, i, f);
    InstallKeepsTables(vm, w, p, i, f);
    hide Tables, Zeroed, Put, Cell;
    assert Entry(w, p, i) == TableLink(f);
    assert w.frameOf[p] == vm.frameOf[p];
  }

  /** A huge-page mark stands in the way at depth `d`. */
  ghost predicate HugeAt(vm: Vm, r: nat, pg: Page, d: nat) {
    On(vm.kernel, r, pg, d) in vm.frameOf && Entry(vm, On(vm.kernel, r, pg, d), pg.At(d)).Huge()
  }

  lemma LevelKeepsHuge(vm: Vm, w: Vm, r: nat, pg: Page, d: nat, next: nat, ok: bool, d2: nat)
    requires Tables(vm) && d < d2 < 3 && On(vm.kernel, r, pg, d) in vm.frameOf
    requires LevelResult(vm, w, On(vm.kernel, r, pg, d), pg.At(d), next, ok)
    ensures HugeAt(w, r, pg, d2) <==> HugeAt(vm, r, pg, d2)
  {
    if w != vm {
      var p, i, q := On(vm.kernel, r, pg, d), pg.At(d), On(vm.kernel, r, pg, d2);
      var f: nat :| CanInstall(vm, p, i, f) && HasNewTable(vm, w, p, i, f);
      InstallSetup(vm, p, i, f);
      hide Tables, CanInstall, Cell;
      assert q != p;
      if q in w.frameOf {
        assert Entry(w, q, pg.At(d2)) ==
               if q == Child(vm.kernel, p, i) then NoPte else Entry(vm, q, pg.At(d2));
      }
    }
  }

  // --------------------------------------------------------------------- map

  ghost predicate Collides(vm: Vm, r: nat, pg: Page) {
    HugeAt(vm, r, pg, 1) || HugeAt(vm, r, pg, 2)
  }

  /** Every translation is as before, except that `pg` has the value `m` where `r`'s tables serve it. */
  ghost predicate Updated(vm: Vm, w: Vm, r: nat, pg: Page, m: Option<Pte>) {
    forall s, g {:trigger Translate(w.mem, s, g)} :: s in vm.roots ==>
      Translate(w.mem, s, g) == if g == pg && (s == r || pg.Kernel()) then m else Translate(vm.mem, s, g)
  }

  ghost predicate SameTranslations(vm: Vm, w: Vm) {
    forall s, g {:trigger Translate(w.mem, s, g)} :: s in vm.roots ==> Translate(w.mem, s, g) == Translate(vm.mem, s, g)
  }

  ghost predicate SameSpaces(vm: Vm, w: Vm) {
    w.kernel == vm.kernel && w.total == vm.total && w.roots == vm.roots && |w.mem| == |vm.mem|
  }

  /** A user page takes over a frame of its own. */
  ghost predicate Adopting(vm: Vm, r: nat, pg: Page, e: Pte) {
    && Exclusive(vm) && r != vm.kernel && !pg.Kernel()
    && e.Present() && Managed(vm, e.frame) && Private(vm, e.frame) && Translate(vm.mem, r, pg) == None
  }

  ghost predicate MapResult(vm: Vm, w: Vm, r: nat, pg: Page, e: Pte, ok: bool) {
    && Tables(w) && SameSpaces(vm, w) && vm.used <= w.used && TablesKept(vm, w) && NewAreTables(vm, w, Owner(vm, r, pg))
    && |w.used| <= |vm.used| + 3 && NoNewHuge(vm, w)
    && (ok ==> Updated(vm, w, r, pg, Leaf(e)) && !Collides(vm, r, pg))
    && (!ok ==> SameTranslations(vm, w) && (Collides(vm, r, pg) || NoneFree(w)))
    && (!ok && Exclusive(vm) ==> Exclusive(w) && OnlySpace(vm, w, Owner(vm, r, pg)))
    && (!ok ==> PrivateKept(vm, w))
    && (ok && Exclusive(vm) && (pg.Kernel() || r == vm.kernel || !e.Present() || Private(vm, e.frame)) ==> Exclusive(w))
    && (ok && Adopting(vm, r, pg, e) ==> Framed(vm, w, r) && Adopted(vm, w, r, e.frame) && PageGained(vm, w, r, e.frame))
    && (!ok ==> PagesSame(vm, w))
    && (ok && (pg.Kernel() || r == vm.kernel) ==> PrivateKept(vm, w))
    && (ok && Exclusive(vm) && (pg.Kernel() || r == vm.kernel) ==> OthersHoldSame(vm, w, vm.kernel))
  }

  /** Frames kept apart from every table and every user page stay so. */
  ghost predicate PrivateKept(vm: Vm, w: Vm) {
    forall g: nat {:trigger Private(w, g)} :: Private(vm, g) ==> Private(w, g)
  }

  lemma MapFails(vm: Vm, w: Vm, r: nat, pg: Page, e: Pte)
    requires Grown(vm, w, Owner(vm, r, pg)) && (Collides(vm, r, pg) || NoneFree(w)) && |w.used| <= |vm.used| + 3
    ensures MapResult(vm, w, r, pg, e, false)
  {
    hide Tables, Exclusive, OnlySpace, Translate, Private, Collides, NoneFree, NoNewHuge;
  }

  /** The final store of a successful map. */
  lemma MapStores(vm: Vm, v: Vm, w: Vm, r: nat, pg: Page, e: Pte)
    requires Grown(vm, v, Owner(vm, r, pg)) && r in vm.roots && On(v.kernel, r, pg, 3) in v.frameOf
    requires HasEntry(v, w, On(v.kernel, r, pg, 3), pg.i1, e) && !Collides(vm, r, pg) && |v.used| <= |vm.used| + 3
    ensures MapResult(vm, w, r, pg, e, true) && Tables(w)
  {
    var p := On(v.kernel, r, pg, 3);
    WriteKeepsTables(v, w, p, pg.i1, e);
    StoreUpdates(v, w, r, pg, e);
    hide Tables, Translate, Collides;
    assert Updated(vm, w, r, pg, Leaf(e));
    forall g: nat | g in w.used ensures g in vm.used || (Managed(w, g) && HoldsTable(w, Owner(vm, r, pg), g)) {
      if g !in vm.used { TablesStay(v, w, Owner(vm, r, pg), g); }
    }
    if Exclusive(vm) && (pg.Kernel() || r == vm.kernel || !e.Present() || Private(vm, e.frame)) {
      WriteKeepsExclusive(v, w, p, pg.i1, e);
    }
    if Adopting(vm, r, pg, e) {
      StoreAdopts(vm, v, w, r, pg, e);
    }
    LeafAddsNoHuge(v, w, p, pg.i1, e);
    NoNewHugeTransitive(vm, v, w);
    if pg.Kernel() || r == vm.kernel {
      StoreKeepsPrivate(vm, v, w, r, pg, e);
      if Exclusive(vm) { KernelStoreHolds(vm, v, w, p, pg.i1, e); }
    }
    hide NoNewHuge, OthersHoldSame;
    hide Exclusive, Private, Framed, Adopted, Adopting;
  }

  lemma StoreUpdates(v: Vm, w: Vm, r: nat, pg: Page, e: Pte)
    requires Tables(v) && On(v.kernel, r, pg, 3) in v.frameOf
    requires HasEntry(v, w, On(v.kernel, r, pg, 3), pg.i1, e)
    ensures Updated(v, w, r, pg, Leaf(e))
  {
    hide Tables, Translate, HasEntry;
    forall s, g | s in v.roots
      ensures Translate(w.mem, s, g) == if g == pg && (s == r || pg.Kernel()) then Leaf(e) else Translate(v.mem, s, g)
    {
      WriteTranslates(v, w, On(v.kernel, r, pg, 3), pg.i1, e, s, g);
      ReadsLeaf(v.kernel, r, pg, s, g);
    }
  }

  lemma LeafAddsNoHuge(v: Vm, w: Vm, p: Place, i: Index, e: Pte)
    requires HasEntry(v, w, p, i, e) && p.Pt?
    ensures NoNewHuge(v, w)
  {
    hide Cell;
    forall q: Place, j: Index | (q.Pdpt? || q.Pd?) && Entry(w, q, j).Huge() ensures Entry(v, q, j).Huge() {
      assert q in w.frameOf;
    }
  }

  /** A store into a kernel table changes nothing user spaces hold. */
  lemma KernelWriteHolds(v: Vm, w: Vm, p: Place, i: Index, e: Pte, s: nat, g: nat)
    requires HasEntry(v, w, p, i, e) && p.root == v.kernel
    ensures HeldBy(w, s, g) <==> HeldBy(v, s, g)
  {
    hide Cell;
    assert HoldsTable(w, s, g) <==> HoldsTable(v, s, g);
    if HoldsPage(w, s, g) {
      var q, j: Index :| UserLeaf(w, q, j) && q.root == s && Entry(w, q, j).frame == g;
      assert Entry(w, q, j) == Entry(v, q, j);
      assert UserLeaf(v, q, j);
    }
    if HoldsPage(v, s, g) {
      var q, j: Index :| UserLeaf(v, q, j) && q.root == s && Entry(v, q, j).frame == g;
      assert Entry(w, q, j) == Entry(v, q, j);
      assert UserLeaf(w, q, j);
    }
  }

  lemma KernelStoreHolds(vm: Vm, v: Vm, w: Vm, p: Place, i: Index, e: Pte)
    requires OnlySpace(vm, v, vm.kernel) && v.kernel == vm.kernel && HasEntry(v, w, p, i, e) && p.root == v.kernel
    ensures OthersHoldSame(vm, w, vm.kernel)
  {
    hide HeldBy, HasEntry, OthersTranslate, RestSame;
    forall s: nat, g: nat | s != vm.kernel ensures HeldBy(w, s, g) <==> HeldBy(vm, s, g) {
      KernelWriteHolds(v, w, p, i, e, s, g);
      assert HeldBy(v, s, g) <==> HeldBy(vm, s, g);
    }
  }

  lemma StoreKeepsPrivate(vm: Vm, v: Vm, w: Vm, r: nat, pg: Page, e: Pte)
    requires Grown(vm, v, Owner(vm, r, pg)) && (pg.Kernel() || r == vm.kernel)
    requires HasEntry(v, w, On(v.kernel, r, pg, 3), pg.i1, e)
    ensures PrivateKept(vm, w)
  {
    var p := On(v.kernel, r, pg, 3);
    hide Tables, Translate, Exclusive, OnlySpace, PagesSame, Cell;
    forall g: nat | Private(vm, g) ensures Private(w, g) {
      assert Private(v, g);
      forall q, j: Index | Managed(w, g) && UserLeaf(w, q, j) ensures Entry(w, q, j).frame != g {
        assert q != p;
        assert Entry(w, q, j) == Entry(v, q, j);
        assert UserLeaf(v, q, j);
      }
    }
  }

  lemma StoreAdopts(vm: Vm, v: Vm, w: Vm, r: nat, pg: Page, e: Pte)
    requires Grown(vm, v, r) && r in vm.roots && Adopting(vm, r, pg, e) && On(v.kernel, r, pg, 3) in v.frameOf
    requires HasEntry(v, w, On(v.kernel, r, pg, 3), pg.i1, e)
    ensures Framed(vm, w, r) && Adopted(vm, w, r, e.frame) && PageGained(vm, w, r, e.frame)
  {
    var p := On(v.kernel, r, pg, 3);
    assert Translate(v.mem, r, pg) == None;
    TranslateIs(v, r, pg, 3);
    assert !Entry(v, p, pg.i1).Present();
    hide Tables, Translate, Entry;
    assert Private(v, e.frame);
    MapAdopts(v, w, p, pg.i1, e);
    hide Exclusive, Private, HasEntry;
    FramedTransitive(vm, v, w, r);
    hide Framed, Elsewhere, HoldsPage;
    forall g: nat ensures HoldsPage(w, r, g) <==> HoldsPage(vm, r, g) || g == e.frame {
      assert HoldsPage(v, r, g) <==> HoldsPage(vm, r, g);
    }
    forall g: nat ensures Elsewhere(w, r, g) <==> Elsewhere(vm, r, g) && g != e.frame {
      assert Elsewhere(v, r, g) <==> Elsewhere(vm, r, g);
    }
  }

  // ------------------------------------------------------------------- unmap

  /** `pg` is mapped by a 4 KB entry. */
  ghost predicate SmallPage(vm: Vm, r: nat, pg: Page) {
    Entry(vm, On(vm.kernel, r, pg, 3), pg.i1).Present()
  }

  ghost predicate UnmapResult(vm: Vm, w: Vm, r: nat, pg: Page, addr: nat) {
    && Tables(w) && SameSpaces(vm, w) && w.used == vm.used
    && (!SmallPage(vm, r, pg) ==> w == vm && addr == 0)
    && (SmallPage(vm, r, pg) ==>
          && Translate(vm.mem, r, pg).Some? && addr == Translate(vm.mem, r, pg).value.frame * 4096
          && Updated(vm, w, r, pg, None)
          && HasEntry(vm, w, On(vm.kernel, r, pg, 3), pg.i1, NoPte))
    && (Exclusive(vm) ==> Exclusive(w))
  }

  lemma UnmapStores(vm: Vm, w: Vm, r: nat, pg: Page)
    requires Tables(vm) && r in vm.roots && SmallPage(vm, r, pg)
    requires HasEntry(vm, w, On(vm.kernel, r, pg, 3), pg.i1, NoPte)
    ensures UnmapResult(vm, w, r, pg, Entry(vm, On(vm.kernel, r, pg, 3), pg.i1).frame * 4096)
  {
    var p := On(vm.kernel, r, pg, 3);
    WriteKeepsTables(vm, w, p, pg.i1, NoPte);
    StoreUpdates(vm, w, r, pg, NoPte);
    TranslateIs(vm, r, pg, 3);
    hide Tables;
    if Exclusive(vm) { WriteKeepsExclusive(vm, w, p, pg.i1, NoPte); }
  }

  /** A walk that stops before the last level found no 4 KB page. */
  lemma StoppedWalk(vm: Vm, r: nat, pg: Page, d: nat)
    requires Tables(vm) && r in vm.roots && d < 3 && On(vm.kernel, r, pg, d) in vm.frameOf
    requires !Links(Entry(vm, On(vm.kernel, r, pg, d), pg.At(d)), d)
    ensures !SmallPage(vm, r, pg)
    ensures Translate(vm.mem, r, pg).Some? <==> Entry(vm, On(vm.kernel, r, pg, d), pg.At(d)).Present()
  {
    WalkStep(vm, r, pg, d);
    TranslateIs(vm, r, pg, d);
    if On(vm.kernel, r, pg, 3) in vm.frameOf {
      OnAbove(vm, r, pg, 3);
      OnAbove(vm, r, pg, 2);
    }
  }

  // ---------------------------------------------------------- allocate and map

  /** The page was absent from a user half and is now present. */
  predicate NewUserPage(vm: Vm, r: nat, pg: Page, flags: nat) {
    r != vm.kernel && !pg.Kernel() && Pte(0, flags).Present() && Translate(vm.mem, r, pg) == None
  }

  /** A page is taken from the allocator and mapped, or nothing but empty tables remains. */
  ghost predicate AllocResult(vm: Vm, w: Vm, r: nat, pg: Page, flags: nat, f: nat, ok: bool) {
    && Sound(w) && SameSpaces(vm, w) && vm.used <= w.used && TablesKept(vm, w)
    && |w.used| <= |vm.used| + 4 && NoNewHuge(vm, w)
    && (ok && (pg.Kernel() || r == vm.kernel) ==> OthersHoldSame(vm, w, vm.kernel))
    && (ok ==> Managed(vm, f) && f !in vm.used && f in w.used && Updated(vm, w, r, pg, Leaf(Pte(f, flags))))
    && (ok && NewUserPage(vm, r, pg, flags) ==> PageGained(vm, w, r, f))
    && (!ok ==> SameTranslations(vm, w) && PagesSame(vm, w) && (Collides(vm, r, pg) || OnlyFree(w, f)))
    && (forall g: nat {:trigger g in w.used} :: g in w.used ==> g in vm.used || (ok && g == f) || (Managed(w, g) && HoldsTable(w, Owner(vm, r, pg), g)))
    && (ok && (pg.Kernel() || r == vm.kernel) ==> Private(w, f))
    && (!ok || pg.Kernel() || r == vm.kernel ==> PrivateKept(vm, w))
    && (!ok || NewUserPage(vm, r, pg, flags) ==> OnlySpace(vm, w, Owner(vm, r, pg)))
  }

  /** Every managed frame but possibly `f` is in use. */
  ghost predicate OnlyFree(w: Vm, f: nat) {
    forall g: nat {:trigger g in w.used} :: Managed(w, g) ==> g in w.used || g == f
  }

  /** Every managed frame outside `s` is in use. */
  ghost predicate FullBut(w: Vm, s: set<nat>) {
    forall g: nat {:trigger g in w.used} :: Managed(w, g) ==> g in w.used || g in s
  }

  /** At most `n` managed frames are free. */
  ghost predicate FewFree(w: Vm, n: nat) {
    exists s: set<nat> :: |s| <= n && FullBut(w, s)
  }

  lemma CollidesBefore(vm: Vm, v: Vm, r: nat, pg: Page)
    requires NoNewHuge(vm, v) && v.kernel == vm.kernel && Collides(v, r, pg)
    ensures Collides(vm, r, pg)
  {
    assert !NoPte.Huge();
    hide Cell;
    if HugeAt(v, r, pg, 1) {
      assert Entry(v, On(v.kernel, r, pg, 1), pg.i3).Huge();
    } else {
      assert Entry(v, On(v.kernel, r, pg, 2), pg.i2).Huge();
    }
  }

  function SetOf(s: seq<nat>): set<nat> { set x | x in s }

  lemma SetIsSmall(s: seq<nat>)
    ensures |SetOf(s)| <= |s|
  {
    if s != [] {
      var t := s[..|s| - 1];
      SetIsSmall(t);
      assert SetOf(s) == SetOf(t) + {s[|s| - 1]};
    }
  }

  /** With all frames but `f` in use and then `frames` given back, few frames are free. */
  lemma FewAfterReturn(u: Vm, w: Vm, frames: seq<nat>, f: nat, n: nat)
    requires OnlyFree(u, f) && w.total == u.total && |frames| < n
    requires forall g: nat {:trigger g in w.used} :: g in u.used && g !in frames ==> g in w.used
    ensures FewFree(w, n)
  {
    SetIsSmall(frames);
    var s := SetOf(frames) + {f};
    forall g: nat | Managed(w, g) ensures g in w.used || g in s {
      assert g in u.used || g == f;
    }
    assert FullBut(w, s);
  }

  function Taken(vm: Vm, f: nat): Vm { vm.(used := vm.used + {f}) }

  lemma AllocSucceeds(vm: Vm, w: Vm, r: nat, pg: Page, flags: nat, f: nat)
    requires Sound(vm) && Managed(vm, f) && f !in vm.used && r in vm.roots
    requires MapResult(Taken(vm, f), w, r, pg, Pte(f, flags), true)
    ensures AllocResult(vm, w, r, pg, flags, f, true)
  {
    var v := Taken(vm, f);
    TakenKeepsSound(vm, f);
    assert PagesSame(vm, v) by { PagesIgnoreUsed(vm, v); }
    assert PrivateKept(vm, v) by { TakenKeepsPrivate(vm, f); }
    assert NoNewHuge(vm, w) by { HugeIgnoresUsed(vm, v); NoNewHugeTransitive(vm, v, w); }
    if pg.Kernel() || r == vm.kernel { HoldIgnoresTaken(vm, f, w); }
    hide NoNewHuge, OthersHoldSame;
    hide Tables, Exclusive, Translate, Private, HeldBy, HoldsPage;
    assert f in v.used;
    assert Updated(vm, w, r, pg, Leaf(Pte(f, flags)));
    if NewUserPage(vm, r, pg, flags) {
      assert Adopting(v, r, pg, Pte(f, flags));
      TakenThenAdopted(vm, w, r, f);
    }
    hide OnlySpace, Framed, Adopted;
  }

  lemma TakenThenAdopted(vm: Vm, w: Vm, r: nat, f: nat)
    requires Sound(vm) && Managed(vm, f) && f !in vm.used
    requires Framed(Taken(vm, f), w, r) && Adopted(Taken(vm, f), w, r, f)
    ensures OnlySpace(vm, w, r)
  {
    var v := Taken(vm, f);
    FreeIsNotHeld(vm, r, f);
    hide Tables, Exclusive, Translate, HeldBy;
    forall s: nat, g: nat ensures HeldBy(v, s, g) <==> HeldBy(vm, s, g) { HeldIgnoresUsed(vm, v, s, g); }
    forall g: nat ensures Elsewhere(w, r, g) <==> Elsewhere(vm, r, g) {
      assert Elsewhere(w, r, g) <==> Elsewhere(v, r, g) && g != f;
    }
  }

  lemma TakenKeepsPrivate(vm: Vm, f: nat)
    ensures PrivateKept(vm, Taken(vm, f))
  {
    var v := Taken(vm, f);
    hide Cell;
    forall g: nat | Private(vm, g) ensures Private(v, g) {
      forall q, j: Index | Managed(v, g) && UserLeaf(v, q, j) ensures Entry(v, q, j).frame != g {
        assert UserLeaf(vm, q, j);
      }
    }
  }

  lemma FreedKeepsPrivate(vm: Vm, v: Vm, w: Vm, f: nat)
    requires v == Taken(vm, f) && f !in vm.used && PrivateKept(vm, v) && PrivateKept(v, w) && w.total == vm.total
    ensures PrivateKept(vm, Freed(w, f))
  {
    var z := Freed(w, f);
    hide Cell;
    forall g: nat | Private(vm, g) ensures Private(z, g) {
      assert Private(v, g) && Private(w, g);
      forall q, j: Index | Managed(z, g) && UserLeaf(z, q, j) ensures Entry(z, q, j).frame != g {
        assert UserLeaf(w, q, j);
      }
    }
  }

  lemma PagesIgnoreUsed(v: Vm, w: Vm)
    requires w == v.(used := w.used)
    ensures PagesSame(v, w)
  {
    forall s: nat, g: nat ensures HoldsPage(w, s, g) <==> HoldsPage(v, s, g) {
      if HoldsPage(w, s, g) {
        var q, j: Index :| UserLeaf(w, q, j) && q.root == s && Entry(w, q, j).frame == g;
        assert UserLeaf(v, q, j);
      }
      if HoldsPage(v, s, g) {
        var q, j: Index :| UserLeaf(v, q, j) && q.root == s && Entry(v, q, j).frame == g;
        assert UserLeaf(w, q, j);
      }
    }
  }

  /** A failed map hands its frame back. */
  lemma AllocFails(vm: Vm, w: Vm, r: nat, pg: Page, flags: nat, f: nat)
    requires Sound(vm) && Managed(vm, f) && f !in vm.used && r in vm.roots
    requires MapResult(Taken(vm, f), w, r, pg, Pte(f, flags), false)
    ensures Sound(Freed(w, f)) && SameSpaces(vm, Freed(w, f)) && SameTranslations(vm, Freed(w, f))
    ensures OnlySpace(vm, Freed(w, f), Owner(vm, r, pg)) && PagesSame(vm, Freed(w, f)) && vm.used <= Freed(w, f).used
    ensures PrivateKept(vm, Freed(w, f)) && NewAreTables(vm, Freed(w, f), Owner(vm, r, pg)) && TablesKept(vm, Freed(w, f))
    ensures Collides(vm, r, pg) || OnlyFree(Freed(w, f), f)
    ensures |Freed(w, f).used| <= |vm.used| + 4 && NoNewHuge(vm, Freed(w, f))
  {
    var v := Taken(vm, f);
    HugeIgnoresUsed(vm, v);
    HugeIgnoresUsed(w, Freed(w, f));
    NoNewHugeTransitive(vm, v, w);
    NoNewHugeTransitive(vm, w, Freed(w, f));
    FailureReason(vm, w, r, pg, f);
    PagesIgnoreUsed(vm, v);
    PagesIgnoreUsed(w, Freed(w, f));
    TakenKeepsPrivate(vm, f);
    FreedKeepsPrivate(vm, v, w, f);
    TakenKeepsSound(vm, f);
    assert Private(w, f);
    forall g: nat | g in Freed(w, f).used ensures g in vm.used || (Managed(w, g) && HoldsTable(Freed(w, f), Owner(vm, r, pg), g)) {
      if g !in vm.used { TablesStay(w, Freed(w, f), Owner(vm, r, pg), g); }
    }
    FreeKeepsTables(w, f);
    FreeKeepsExclusive(w, f);
    hide Tables, Exclusive, Translate, Private, HoldsPage;
    TakenThenFreed(vm, w, Owner(vm, r, pg), f);
    hide OnlySpace;
  }

  lemma HugeIgnoresUsed(v: Vm, w: Vm)
    requires w == v.(used := w.used)
    ensures NoNewHuge(v, w)
  {
  }

  lemma HoldIgnoresTaken(vm: Vm, f: nat, w: Vm)
    requires OthersHoldSame(Taken(vm, f), w, vm.kernel)
    ensures OthersHoldSame(vm, w, vm.kernel)
  {
    hide HeldBy;
    forall s: nat, g: nat | s != vm.kernel ensures HeldBy(w, s, g) <==> HeldBy(vm, s, g) {
      HeldIgnoresUsed(vm, Taken(vm, f), s, g);
      assert HeldBy(w, s, g) <==> HeldBy(Taken(vm, f), s, g);
    }
  }

  lemma FailureReason(vm: Vm, w: Vm, r: nat, pg: Page, f: nat)
    requires Collides(Taken(vm, f), r, pg) || NoneFree(w)
    ensures Collides(vm, r, pg) || OnlyFree(Freed(w, f), f)
  {
    hide Cell;
  }

  lemma TakenThenFreed(vm: Vm, w: Vm, o: nat, f: nat)
    requires Managed(vm, f) && f !in vm.used && OnlySpace(Taken(vm, f), w, o)
    requires Private(w, f)
    ensures OnlySpace(vm, Freed(w, f), o)
  {
    var v := Taken(vm, f);
    var z := Freed(w, f);
    PrivateIsNotHeld(w, o, f);
    hide Private, HeldBy, Translate;
    forall s: nat, g: nat ensures HeldBy(v, s, g) <==> HeldBy(vm, s, g) { HeldIgnoresUsed(vm, v, s, g); }
    forall s: nat, g: nat ensures HeldBy(z, s, g) <==> HeldBy(w, s, g) { HeldIgnoresUsed(w, z, s, g); }
    forall g: nat ensures Elsewhere(z, o, g) <==> Elsewhere(vm, o, g) {
      assert Elsewhere(w, o, g) <==> Elsewhere(v, o, g);
    }
  }

  // ------------------------------------------------------- create and destroy

  /** Frame `f` is being filled from the kernel root: user slots empty, kernel slots below `n` copied. */
  ghost predicate Cloning(mem: Memory, now: Memory, k: nat, f: nat, n: nat) {
    && Sized(now) && |now| == |mem|
    && (forall g, j: nat {:trigger Cell(now, g, j)} :: 0 <= g && g != f ==> Cell(now, g, j) == Cell(mem, g, j))
    && (forall j: nat {:trigger Cell(now, f, j)} :: j < n ==>
          Cell(now, f, j) == if j < KERNEL_SLOT then NoPte else Cell(mem, k, j))
  }

  lemma CloningStarts(mem: Memory, k: nat, f: nat)
    requires Sized(mem) && f < |mem|
    ensures Cloning(mem, Zeroed(mem, f), k, f, KERNEL_SLOT)
  {
    CellOfZeroed(mem, f);
    hide Cell, Zeroed;
  }

  lemma CloningStep(mem: Memory, now: Memory, k: nat, f: nat, n: nat)
    requires Cloning(mem, now, k, f, n) && f < |now| && KERNEL_SLOT <= n < ENTRIES && k != f
    ensures n < |now[f]| && Cloning(mem, Put(now, f, n, Cell(now, k, n)), k, f, n + 1)
  {
    CellOfPut(now, f, n, Cell(now, k, n));
    hide Cell, Put;
  }

  /** A new space has the kernel's mappings and no others; nothing else changes. */
  ghost predicate CreateResult(vm: Vm, w: Vm, f: nat) {
    && (f == 0 ==> w == vm && NoneFree(vm))
    && (f != 0 ==>
          && f !in vm.roots && w.roots == vm.roots + {f} && w.kernel == vm.kernel && w.total == vm.total
          && Tables(w) && SameTranslations(vm, w)
          && (forall pg {:trigger Translate(w.mem, f, pg)} ::
                Translate(w.mem, f, pg) == if pg.Kernel() then Translate(vm.mem, vm.kernel, pg) else None)
          && (Exclusive(vm) ==> Exclusive(w) && Framed(vm, w, f))
          && (Exclusive(vm) ==> forall g: nat {:trigger Elsewhere(w, f, g)} :: Elsewhere(w, f, g) <==> g in vm.used))
  }

  lemma CloneIsNewRoot(vm: Vm, w: Vm, f: nat)
    requires Tables(vm) && Managed(vm, f) && f !in vm.used
    requires Cloning(vm.mem, w.mem, vm.kernel, f, ENTRIES)
    requires w == Vm(w.mem, vm.total, vm.used + {f}, vm.kernel, vm.roots + {f}, vm.frameOf[Pml4(f) := f])
    ensures CreateResult(vm, w, f) && Tables(w)
  {
    FreshFrame(vm, f);
    assert PlaceOk(vm, Pml4(vm.kernel));
    hide Cell;
    assert HasNewRoot(vm, w, f);
    NewRootKeepsTables(vm, w, f);
    forall r, pg | r in w.roots
      ensures r != f ==> Translate(w.mem, r, pg) == Translate(vm.mem, r, pg)
      ensures r == f ==> Translate(w.mem, r, pg) == if pg.Kernel() then Translate(vm.mem, vm.kernel, pg) else None
    {
      NewRootTranslates(vm, w, f, r, pg);
    }
    hide Tables, Translate;
    if Exclusive(vm) { NewRootOnlySpace(vm, w, f); }
    hide Exclusive, HasNewRoot, Framed, Elsewhere;
  }

  /**
    Teardown: every other space keeps its translations and its frames. With the root freed,
    exactly the frames the space did not hold stay in use; otherwise the space keeps its
    root alone and maps no user page.
   */
  ghost predicate DestroyResult(vm: Vm, w: Vm, r: nat, freeRoot: bool) {
    && Sound(w) && Framed(vm, w, r)
    && (freeRoot ==> w.roots == vm.roots - {r}
                     && forall g: nat {:trigger g in w.used} :: g in w.used <==> Elsewhere(vm, r, g))
    && (!freeRoot ==> w.roots == vm.roots && RestSame(vm, w, r)
                      && (forall g: nat {:trigger HeldBy(w, r, g)} :: HeldBy(w, r, g) <==> g == r && Managed(vm, r))
                      && (forall pg: Page {:trigger Translate(w.mem, r, pg)} :: !pg.Kernel() ==> Translate(w.mem, r, pg) == None))
  }

  lemma DestroyKeepsRoot(vm: Vm, w: Vm, r: nat)
    requires Emptied(vm, w, Pml4(r), KERNEL_SLOT)
    ensures DestroyResult(vm, w, r, false)
  {
    hide Tables, Exclusive, Translate, Untouched, Entry;
    forall g: nat ensures HeldBy(w, r, g) <==> g == r && Managed(w, r) {
      EmptiedRootIsBare(vm, w, r, Page(0, 0, 0, 0));
      DropRootHeld(w, r, r, g);
    }
    forall pg: Page | !pg.Kernel() ensures Translate(w.mem, r, pg) == None {
      EmptiedRootIsBare(vm, w, r, pg);
    }
  }

  lemma DestroyFreesRoot(vm: Vm, v: Vm, r: nat)
    requires Emptied(vm, v, Pml4(r), KERNEL_SLOT)
    ensures DestroyResult(vm, WithoutRoot(v, r), r, true)
  {
    var w := WithoutRoot(v, r);
    EmptiedRootIsBare(vm, v, r, Page(0, 0, 0, 0));
    DropRootOnlySpace(v, r);
    hide Tables, Exclusive, Translate, Untouched, Entry, HeldBy, Bare;
    FramedTransitive(vm, v, w, r);
    hide Framed, Elsewhere;
    forall g: nat ensures g in w.used <==> Elsewhere(vm, r, g) {
      assert Elsewhere(v, r, g) <==> Elsewhere(vm, r, g);
    }
  }
}
