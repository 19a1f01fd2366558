/** Who holds which frame: the account of one address space across the elementary changes. */
module PagingSpaces {
  import opened PageTables
  import opened PagingSteps

  ghost predicate HoldsTable(vm: Vm, r: nat, f: nat) {
    exists p :: p in vm.frameOf && p.root == r && vm.frameOf[p] == f
  }

  ghost predicate HoldsPage(vm: Vm, r: nat, f: nat) {
    exists p, i: Index {:trigger UserLeaf(vm, p, i)} :: UserLeaf(vm, p, i) && p.root == r && Entry(vm, p, i).frame == f
  }

  /** The managed frames of the address space rooted at `r`: its tables and its user pages. */
  ghost predicate HeldBy(vm: Vm, r: nat, f: nat) {
    Managed(vm, f) && (HoldsTable(vm, r, f) || HoldsPage(vm, r, f))
  }

  /** Used by someone other than `r`. */
  ghost predicate Elsewhere(vm: Vm, r: nat, f: nat) {
    f in vm.used && !HeldBy(vm, r, f)
  }

  ghost predicate Sound(vm: Vm) {
    Tables(vm) && Exclusive(vm)
  }

  ghost predicate OthersHoldSame(vm: Vm, w: Vm, r: nat) {
    forall s, f {:trigger HeldBy(w, s, f)} :: s != r && 0 <= s && 0 <= f ==> (HeldBy(w, s, f) <==> HeldBy(vm, s, f))
  }

  ghost predicate RestSame(vm: Vm, w: Vm, r: nat) {
    forall f {:trigger Elsewhere(w, r, f)} :: 0 <= f ==> (Elsewhere(w, r, f) <==> Elsewhere(vm, r, f))
  }

  ghost predicate OthersTranslate(vm: Vm, w: Vm, r: nat) {
    forall s, pg {:trigger Translate(w.mem, s, pg)} :: s in vm.roots && s != r ==>
      Translate(w.mem, s, pg) == Translate(vm.mem, s, pg)
  }

  /**
    Only the address space `r` changed: every other root translates as before and holds
    the same frames, and every frame `r` gained or gave up was free before or is free now.
   */
  ghost predicate OnlySpace(vm: Vm, w: Vm, r: nat) {
    Framed(vm, w, r) && RestSame(vm, w, r)
  }

  ghost predicate Framed(vm: Vm, w: Vm, r: nat) {
    && w.kernel == vm.kernel && w.total == vm.total && |w.mem| == |vm.mem|
    && w.roots - {r} == vm.roots - {r}
    && OthersTranslate(vm, w, r) && OthersHoldSame(vm, w, r)
  }

  lemma OnlySpaceTransitive(a: Vm, b: Vm, c: Vm, r: nat)
    requires OnlySpace(a, b, r) && OnlySpace(b, c, r)
    ensures OnlySpace(a, c, r)
  {
    FramedTransitive(a, b, c, r);
    hide Elsewhere, Framed;
    forall f: nat ensures Elsewhere(c, r, f) <==> Elsewhere(a, r, f) {
      assert Elsewhere(b, r, f) <==> Elsewhere(a, r, f);
    }
  }

  lemma FramedTransitive(a: Vm, b: Vm, c: Vm, r: nat)
    requires Framed(a, b, r) && Framed(b, c, r)
    ensures Framed(a, c, r)
  {
    hide HeldBy, Translate;
    assert forall s :: s in a.roots && s != r ==> s in b.roots by {
      forall s | s in a.roots && s != r ensures s in b.roots { assert s in a.roots - {r}; }
    }
    forall s, pg | s in a.roots && s != r ensures Translate(c.mem, s, pg) == Translate(a.mem, s, pg) {
      assert Translate(b.mem, s, pg) == Translate(a.mem, s, pg);
    }
    forall s: nat, f: nat | s != r ensures HeldBy(c, s, f) <==> HeldBy(a, s, f) {
      assert HeldBy(b, s, f) <==> HeldBy(a, s, f);
    }
  }

  lemma OnlySpaceReflexive(vm: Vm, r: nat)
    ensures OnlySpace(vm, vm, r)
  {
  }

  // ---------------------------------------------------- linking a fresh table

  lemma InstallTables(vm: Vm, w: Vm, p: Place, i: Index, f: nat, s: nat, g: nat)
    requires Tables(vm) && CanInstall(vm, p, i, f) && HasNewTable(vm, w, p, i, f)
    ensures HoldsTable(w, s, g) <==> HoldsTable(vm, s, g) || (s == p.root && g == f)
  {
    InstallSetup(vm, p, i, f);
    hide Tables, Entry;
    var c := Child(vm.kernel, p, i);
    if HoldsTable(w, s, g) {
      var q :| q in w.frameOf && q.root == s && w.frameOf[q] == g;
    }
    if HoldsTable(vm, s, g) {
      var q :| q in vm.frameOf && q.root == s && vm.frameOf[q] == g;
      assert q in w.frameOf && w.frameOf[q] == g;
    }
    assert c in w.frameOf && w.frameOf[c] == f;
  }

  lemma InstallPages(vm: Vm, w: Vm, p: Place, i: Index, f: nat, s: nat, g: nat)
    requires Tables(vm) && CanInstall(vm, p, i, f) && HasNewTable(vm, w, p, i, f)
    ensures HoldsPage(w, s, g) <==> HoldsPage(vm, s, g)
  {
    InstallSetup(vm, p, i, f);
    hide Tables, Cell;
    if HoldsPage(w, s, g) {
      var q, j: Index :| UserLeaf(w, q, j) && q.root == s && Entry(w, q, j).frame == g;
      assert Entry(w, q, j) == Entry(vm, q, j);
      assert UserLeaf(vm, q, j);
    }
    if HoldsPage(vm, s, g) {
      var q, j: Index :| UserLeaf(vm, q, j) && q.root == s && Entry(vm, q, j).frame == g;
      assert Entry(w, q, j) == Entry(vm, q, j);
      assert UserLeaf(w, q, j);
    }
  }

  lemma InstallOnlySpace(vm: Vm, w: Vm, p: Place, i: Index, f: nat)
    requires Sound(vm) && CanInstall(vm, p, i, f) && HasNewTable(vm, w, p, i, f)
    ensures Sound(w) && OnlySpace(vm, w, p.root)
  {
    InstallKeepsTables(vm, w, p, i, f);
    InstallKeepsExclusive(vm, w, p, i, f);
    hide Tables, Exclusive, HoldsTable, HoldsPage, Translate, Entry;
    forall s, pg | s in vm.roots ensures Translate(w.mem, s, pg) == Translate(vm.mem, s, pg) {
      InstallKeepsTranslations(vm, w, p, i, f, s, pg);
    }
    forall s: nat, g: nat ensures HeldBy(w, s, g) <==> HeldBy(vm, s, g) || (s == p.root && g == f) {
      InstallTables(vm, w, p, i, f, s, g);
      InstallPages(vm, w, p, i, f, s, g);
    }
    FreeIsNotHeld(vm, p.root, f);
  }

  lemma FreeIsNotHeld(vm: Vm, r: nat, f: nat)
    requires Sound(vm) && Managed(vm, f) && f !in vm.used
    ensures !HeldBy(vm, r, f)
  {
    FreshFrame(vm, f);
    hide Tables, Cell;
    if HoldsPage(vm, r, f) {
      LeafInUse(vm, r, f);
    }
  }

  lemma LeafInUse(vm: Vm, r: nat, f: nat)
    requires Exclusive(vm) && HoldsPage(vm, r, f)
    ensures f in vm.used
    ensures forall q :: q in vm.frameOf ==> vm.frameOf[q] != f
  {
    var q, j: Index :| UserLeaf(vm, q, j) && q.root == r && Entry(vm, q, j).frame == f;
    assert LeafOk(vm, q, j);
  }

  // ------------------------------------------------------------- leaf entries

  lemma SetPages(vm: Vm, w: Vm, p: Place, i: Index, e: Pte, s: nat, g: nat)
    requires HasEntry(vm, w, p, i, e) && p in vm.frameOf && p.Pt? && p.root != vm.kernel
    requires !Entry(vm, p, i).Present() && e.Present()
    ensures HoldsPage(w, s, g) <==> HoldsPage(vm, s, g) || (s == p.root && g == e.frame && Managed(vm, g))
  {
    hide Cell;
    assert Entry(w, p, i) == e;
    if HoldsPage(w, s, g) {
      var q, j: Index :| UserLeaf(w, q, j) && q.root == s && Entry(w, q, j).frame == g;
      assert Entry(w, q, j) == if q == p && j == i then e else Entry(vm, q, j);
      assert UserLeaf(vm, q, j) || (q == p && j == i);
    }
    if HoldsPage(vm, s, g) {
      var q, j: Index :| UserLeaf(vm, q, j) && q.root == s && Entry(vm, q, j).frame == g;
      assert Entry(w, q, j) == Entry(vm, q, j);
      assert UserLeaf(w, q, j);
    }
    if s == p.root && g == e.frame && Managed(vm, g) { assert UserLeaf(w, p, i); }
  }

  /** Clearing a slot gives up the page it mapped, and only that one. */
  lemma ClearPages(vm: Vm, w: Vm, p: Place, i: Index, s: nat, g: nat)
    requires Exclusive(vm) && HasEntry(vm, w, p, i, NoPte)
    ensures HoldsPage(w, s, g) <==>
              HoldsPage(vm, s, g) && !(UserLeaf(vm, p, i) && g == Entry(vm, p, i).frame)
  {
    hide Cell;
    if HoldsPage(w, s, g) {
      var q, j: Index :| UserLeaf(w, q, j) && q.root == s && Entry(w, q, j).frame == g;
      assert Entry(w, q, j) == if q == p && j == i then NoPte else Entry(vm, q, j);
      assert UserLeaf(vm, q, j);
      assert !UserLeaf(vm, p, i) || LeavesApart(vm, p, i, q, j);
    }
    if HoldsPage(vm, s, g) && !(UserLeaf(vm, p, i) && g == Entry(vm, p, i).frame) {
      var q, j: Index :| UserLeaf(vm, q, j) && q.root == s && Entry(vm, q, j).frame == g;
      assert Entry(w, q, j) == Entry(vm, q, j);
      assert UserLeaf(w, q, j);
    }
  }

  lemma ReadsOwnSpace(k: nat, r: nat, pg: Page, p: Place, i: Index)
    requires Reads(k, r, pg, p, i) && p.Depth() > 0 && p.root != k
    ensures r == p.root
  {
  }

  lemma WriteOthersTranslate(vm: Vm, w: Vm, p: Place, i: Index, e: Pte)
    requires Tables(vm) && CanWrite(vm, p, i, e) && HasEntry(vm, w, p, i, e) && p.root != vm.kernel
    requires p.Pt? || !e.Present()
    ensures OthersTranslate(vm, w, p.root)
  {
    hide Tables, Translate, HasEntry, CanWrite;
    forall s, pg | s in vm.roots && s != p.root ensures Translate(w.mem, s, pg) == Translate(vm.mem, s, pg) {
      WriteTranslates(vm, w, p, i, e, s, pg);
      if Reads(vm.kernel, s, pg, p, i) { ReadsOwnSpace(vm.kernel, s, pg, p, i); }
    }
  }

  /** The frame leaves the rest of the system and becomes the space's own. */
  ghost predicate Adopted(v: Vm, w: Vm, r: nat, f: nat) {
    forall g {:trigger Elsewhere(w, r, g)} :: 0 <= g ==> (Elsewhere(w, r, g) <==> Elsewhere(v, r, g) && g != f)
  }

  /** An absent page of the space now maps the private frame `e.frame`. */
  lemma MapAdopts(v: Vm, w: Vm, p: Place, i: Index, e: Pte)
    requires Sound(v) && Managed(v, e.frame) && Private(v, e.frame)
    requires p in v.frameOf && p.Pt? && p.root != v.kernel && e.Present() && !Entry(v, p, i).Present()
    requires HasEntry(v, w, p, i, e)
    ensures Sound(w) && Framed(v, w, p.root) && Adopted(v, w, p.root, e.frame) && PageGained(v, w, p.root, e.frame)
  {
    WriteKeepsTables(v, w, p, i, e);
    WriteKeepsExclusive(v, w, p, i, e);
    WriteOthersTranslate(v, w, p, i, e);
    hide Tables, Exclusive, Translate;
    forall s: nat, g: nat
      ensures HeldBy(w, s, g) <==> HeldBy(v, s, g) || (s == p.root && g == e.frame)
      ensures HoldsPage(w, s, g) <==> HoldsPage(v, s, g) || (s == p.root && g == e.frame)
    {
      SetPages(v, w, p, i, e, s, g);
      hide HoldsPage;
      assert HoldsTable(w, s, g) <==> HoldsTable(v, s, g);
    }
    hide HoldsPage, HoldsTable, Entry;
  }

  lemma PrivateIsNotHeld(v: Vm, r: nat, f: nat)
    requires Private(v, f) && Managed(v, f)
    ensures !HeldBy(v, r, f)
  {
    hide Cell;
  }

  /** The slot is cleared and the frame it mapped goes back to the allocator. */
  lemma UnmapOnlySpace(vm: Vm, v: Vm, w: Vm, p: Place, i: Index)
    requires Sound(vm) && p in vm.frameOf && p.Pt? && p.root != vm.kernel && Entry(vm, p, i).Present()
    requires HasEntry(vm, v, p, i, NoPte) && w == Freed(v, Entry(vm, p, i).frame)
    ensures Sound(w) && OnlySpace(vm, w, p.root)
  {
    var f := Entry(vm, p, i).frame;
    WriteKeepsTables(vm, v, p, i, NoPte);
    WriteKeepsExclusive(vm, v, p, i, NoPte);
    WriteOthersTranslate(vm, v, p, i, NoPte);
    forall s: nat, g: nat
      ensures HeldBy(w, s, g) <==> HeldBy(vm, s, g) && !(Managed(vm, f) && g == f)
      ensures HoldsPage(v, s, g) ==> !(Managed(vm, f) && g == f)
    {
      UnmapHeld(vm, v, w, p, i, s, g);
    }
    assert Managed(vm, f) ==> f in vm.used && forall q :: q in vm.frameOf ==> vm.frameOf[q] != f by {
      if Managed(vm, f) { assert LeafOk(vm, p, i); }
    }
    NoLeafMaps(v, f);
    FreeKeepsTables(v, f);
    FreeKeepsExclusive(v, f);
    assert Managed(vm, f) ==> HeldBy(vm, p.root, f) by {
      if Managed(vm, f) { assert UserLeaf(vm, p, i); }
    }
    forall s: nat | s != p.root && Managed(vm, f) ensures !HeldBy(vm, s, f) {
      LeafNotHeldByOthers(vm, p, i, s);
    }
    hide HoldsPage, HoldsTable, Translate, Tables, Exclusive, Entry;
  }

  lemma LeafNotHeldByOthers(vm: Vm, p: Place, i: Index, s: nat)
    requires Exclusive(vm) && UserLeaf(vm, p, i) && s != p.root
    ensures !HeldBy(vm, s, Entry(vm, p, i).frame)
  {
    hide Cell;
    var f := Entry(vm, p, i).frame;
    assert LeafOk(vm, p, i);
    forall q, j: Index | UserLeaf(vm, q, j) && q.root == s ensures Entry(vm, q, j).frame != f {
      assert LeavesApart(vm, p, i, q, j);
    }
  }

  lemma NoLeafMaps(v: Vm, f: nat)
    requires forall s: nat {:trigger HoldsPage(v, s, f)} :: HoldsPage(v, s, f) ==> !Managed(v, f)
    ensures Managed(v, f) ==> forall q, j: Index {:trigger UserLeaf(v, q, j)} :: UserLeaf(v, q, j) ==> Entry(v, q, j).frame != f
  {
    forall q, j: Index | UserLeaf(v, q, j) && Managed(v, f) ensures Entry(v, q, j).frame != f {
      assert HoldsPage(v, q.root, Entry(v, q, j).frame);
    }
  }

  lemma UnmapHeld(vm: Vm, v: Vm, w: Vm, p: Place, i: Index, s: nat, g: nat)
    requires Sound(vm) && p in vm.frameOf && p.Pt? && p.root != vm.kernel && Entry(vm, p, i).Present()
    requires HasEntry(vm, v, p, i, NoPte) && w == Freed(v, Entry(vm, p, i).frame)
    ensures HeldBy(w, s, g) <==> HeldBy(vm, s, g) && !(Managed(vm, Entry(vm, p, i).frame) && g == Entry(vm, p, i).frame)
    ensures HoldsPage(v, s, g) ==> !(Managed(vm, Entry(vm, p, i).frame) && g == Entry(vm, p, i).frame)
  {
    var f := Entry(vm, p, i).frame;
    ClearPages(vm, v, p, i, s, g);
    HeldIgnoresUsed(v, w, s, g);
    assert Managed(vm, f) ==> forall q :: q in vm.frameOf ==> vm.frameOf[q] != f by {
      if Managed(vm, f) { assert LeafOk(vm, p, i); }
    }
    hide Tables, Exclusive, HoldsPage, Entry;
    assert HoldsTable(v, s, g) <==> HoldsTable(vm, s, g);
  }

  lemma HeldIgnoresUsed(v: Vm, w: Vm, s: nat, g: nat)
    requires w == v.(used := w.used)
    ensures HeldBy(w, s, g) <==> HeldBy(v, s, g)
  {
    if HoldsPage(w, s, g) {
      var q, j: Index :| UserLeaf(w, q, j) && q.root == s && Entry(w, q, j).frame == g;
      assert UserLeaf(v, q, j);
    }
    if HoldsPage(v, s, g) {
      var q, j: Index :| UserLeaf(v, q, j) && q.root == s && Entry(v, q, j).frame == g;
      assert UserLeaf(w, q, j);
    }
  }

  /** A huge page of the space is dropped; the allocator is not involved. */
  lemma ClearHugeOnlySpace(vm: Vm, w: Vm, p: Place, i: Index)
    requires Sound(vm) && CanWrite(vm, p, i, NoPte) && !p.Pt? && p.root != vm.kernel
    requires HasEntry(vm, w, p, i, NoPte)
    ensures Sound(w) && OnlySpace(vm, w, p.root)
  {
    WriteKeepsTables(vm, w, p, i, NoPte);
    WriteKeepsExclusive(vm, w, p, i, NoPte);
    WriteOthersTranslate(vm, w, p, i, NoPte);
    forall s: nat, g: nat ensures HeldBy(w, s, g) <==> HeldBy(vm, s, g) {
      ClearPages(vm, w, p, i, s, g);
      hide HoldsPage, Tables, Exclusive, Entry;
      assert HoldsTable(w, s, g) <==> HoldsTable(vm, s, g);
    }
    hide HoldsPage, HoldsTable, Translate, Tables, Exclusive, Entry;
  }

  // ------------------------------------------------------- unlinking a table

  lemma DropHeld(vm: Vm, w: Vm, p: Place, s: nat, g: nat)
    requires Sound(vm) && CanDrop(vm, p) && LostTable(vm, w, p)
    ensures HoldsTable(w, s, g) <==> HoldsTable(vm, s, g) && g != vm.frameOf[p]
    ensures HoldsPage(w, s, g) <==> HoldsPage(vm, s, g)
  {
    DropSetup(vm, p);
    hide Cell, Tables, Exclusive;
    if HoldsTable(vm, s, g) && g != vm.frameOf[p] {
      var q :| q in vm.frameOf && q.root == s && vm.frameOf[q] == g;
      assert q in w.frameOf && w.frameOf[q] == g;
    }
    if HoldsTable(w, s, g) {
      var q :| q in w.frameOf && q.root == s && w.frameOf[q] == g;
      assert q in vm.frameOf;
    }
    DropPages(vm, w, p, s, g);
  }

  lemma DropPages(vm: Vm, w: Vm, p: Place, s: nat, g: nat)
    requires Sound(vm) && CanDrop(vm, p) && LostTable(vm, w, p)
    ensures HoldsPage(w, s, g) <==> HoldsPage(vm, s, g)
  {
    hide Cell, Tables, Exclusive;
    DropSetup(vm, p);
    if HoldsPage(w, s, g) {
      var q, j: Index :| UserLeaf(w, q, j) && q.root == s && Entry(w, q, j).frame == g;
      assert Entry(w, q, j) == Entry(vm, q, j);
      assert UserLeaf(vm, q, j);
    }
    if HoldsPage(vm, s, g) {
      var q, j: Index :| UserLeaf(vm, q, j) && q.root == s && Entry(vm, q, j).frame == g;
      assert q != p;
      assert Entry(w, q, j) == Entry(vm, q, j);
      assert UserLeaf(w, q, j);
    }
  }

  lemma DropOnlySpace(vm: Vm, w: Vm, p: Place)
    requires Sound(vm) && CanDrop(vm, p) && LostTable(vm, w, p)
    ensures Sound(w) && OnlySpace(vm, w, p.root)
  {
    var f := vm.frameOf[p];
    DropKeepsTables(vm, w, p);
    DropKeepsExclusive(vm, w, p);
    DropSetup(vm, p);
    assert PlaceOk(vm, p);
    forall s, pg | s in vm.roots ensures Translate(w.mem, s, pg) == Translate(vm.mem, s, pg) {
      DropKeepsTranslations(vm, w, p, s, pg);
    }
    hide Tables, CanDrop, Entry, Translate;
    assert HoldsTable(vm, p.root, f);
    forall s: nat, g: nat ensures HeldBy(w, s, g) <==> HeldBy(vm, s, g) && g != f {
      DropHeld(vm, w, p, s, g);
      if HoldsPage(vm, s, g) { LeafInUse(vm, s, g); }
    }
    hide HoldsTable, HoldsPage, Exclusive;
    forall s: nat, g: nat | s != p.root ensures HeldBy(w, s, g) <==> HeldBy(vm, s, g) {
      if g == f { NotHeldByOthers(vm, p, s); }
    }
  }

  lemma NotHeldByOthers(vm: Vm, p: Place, s: nat)
    requires Sound(vm) && p in vm.frameOf && s != p.root
    ensures !HeldBy(vm, s, vm.frameOf[p])
  {
    hide Linked, Roots, Places, Cell;
    forall q | q in vm.frameOf && q.root == s ensures vm.frameOf[q] != vm.frameOf[p] {
      assert Apart(vm, p, q);
    }
    if HoldsPage(vm, s, vm.frameOf[p]) { LeafInUse(vm, s, vm.frameOf[p]); }
  }

  // ---------------------------------------------------- whole address spaces

  /** A new space holds its root and nothing else. */
  lemma NewRootOnlySpace(vm: Vm, w: Vm, f: nat)
    requires Sound(vm) && Managed(vm, f) && f !in vm.used && HasNewRoot(vm, w, f)
    ensures Sound(w) && Framed(vm, w, f)
    ensures forall g: nat {:trigger Elsewhere(w, f, g)} :: Elsewhere(w, f, g) <==> g in vm.used
  {
    FreshFrame(vm, f);
    NewRootKeepsTables(vm, w, f);
    NewRootKeepsExclusive(vm, w, f);
    forall s, pg | s in vm.roots && s != f ensures Translate(w.mem, s, pg) == Translate(vm.mem, s, pg) {
      NewRootTranslates(vm, w, f, s, pg);
    }
    hide Tables, Exclusive, Translate;
    forall s: nat, g: nat
      ensures HeldBy(w, s, g) <==> HeldBy(vm, s, g) || (s == f && g == f)
      ensures !HeldBy(vm, f, g)
    {
      NewRootHeld(vm, w, f, s, g);
      NewRootHeld(vm, w, f, f, g);
    }
    hide HeldBy, Entry;
  }

  lemma NewRootHeld(vm: Vm, w: Vm, f: nat, s: nat, g: nat)
    requires Sound(vm) && Managed(vm, f) && f !in vm.used && HasNewRoot(vm, w, f)
    ensures HoldsTable(w, s, g) <==> HoldsTable(vm, s, g) || (s == f && g == f)
    ensures HoldsPage(w, s, g) <==> HoldsPage(vm, s, g)
    ensures !HoldsTable(vm, f, g) && !HoldsPage(vm, f, g)
  {
    FreshFrame(vm, f);
    hide Tables, Exclusive, Cell;
    NewRootPages(vm, w, f, s, g);
    hide Entry;
    if HoldsTable(w, s, g) {
      var q :| q in w.frameOf && q.root == s && w.frameOf[q] == g;
      assert q in vm.frameOf || q == Pml4(f);
    }
    if HoldsTable(vm, s, g) {
      var q :| q in vm.frameOf && q.root == s && vm.frameOf[q] == g;
      assert q in w.frameOf && w.frameOf[q] == g;
    }
    assert Pml4(f) in w.frameOf;
  }

  lemma NewRootPages(vm: Vm, w: Vm, f: nat, s: nat, g: nat)
    requires Sound(vm) && Managed(vm, f) && f !in vm.used && HasNewRoot(vm, w, f)
    ensures HoldsPage(w, s, g) <==> HoldsPage(vm, s, g)
  {
    hide Tables, Exclusive, Cell;
    if HoldsPage(w, s, g) {
      var q, j: Index :| UserLeaf(w, q, j) && q.root == s && Entry(w, q, j).frame == g;
      assert Entry(w, q, j) == Entry(vm, q, j);
      assert UserLeaf(vm, q, j);
    }
    if HoldsPage(vm, s, g) {
      var q, j: Index :| UserLeaf(vm, q, j) && q.root == s && Entry(vm, q, j).frame == g;
      assert Entry(w, q, j) == Entry(vm, q, j);
      assert UserLeaf(w, q, j);
    }
  }

  /** Dropping a bare root leaves in use exactly what the space did not hold. */
  lemma DropRootOnlySpace(vm: Vm, r: nat)
    requires Sound(vm) && Bare(vm, r)
    ensures Sound(WithoutRoot(vm, r)) && Framed(vm, WithoutRoot(vm, r), r)
    ensures forall g: nat {:trigger g in WithoutRoot(vm, r).used} :: g in WithoutRoot(vm, r).used <==> Elsewhere(vm, r, g)
  {
    var w := WithoutRoot(vm, r);
    DropRootKeepsTables(vm, r);
    DropRootKeepsExclusive(vm, r);
    BareHasNoTables(vm, r);
    assert PlaceOk(vm, Pml4(r));
    hide Tables, Exclusive, Cell, Bare;
    forall s: nat, g: nat
      ensures s != r ==> (HeldBy(w, s, g) <==> HeldBy(vm, s, g))
      ensures HeldBy(vm, r, g) <==> g == r && Managed(vm, r)
    {
      DropRootHeld(vm, r, s, g);
    }
    hide HeldBy, Entry;
  }

  lemma DropRootHeld(vm: Vm, r: nat, s: nat, g: nat)
    requires Sound(vm) && Bare(vm, r)
    ensures s != r ==> (HeldBy(WithoutRoot(vm, r), s, g) <==> HeldBy(vm, s, g))
    ensures HeldBy(vm, r, g) <==> g == r && Managed(vm, r)
  {
    var w := WithoutRoot(vm, r);
    BareHasNoTables(vm, r);
    assert PlaceOk(vm, Pml4(r));
    hide Tables, Exclusive, Cell, Bare;
    assert Pml4(r) in vm.frameOf && vm.frameOf[Pml4(r)] == r;
    if s != r {
      assert HoldsPage(w, s, g) <==> HoldsPage(vm, s, g) by { DropRootPages(vm, r, s, g); }
      if HoldsTable(vm, s, g) {
        var q :| q in vm.frameOf && q.root == s && vm.frameOf[q] == g;
        assert q in w.frameOf && w.frameOf[q] == g;
      }
    }
  }

  lemma DropRootPages(vm: Vm, r: nat, s: nat, g: nat)
    ensures HoldsPage(WithoutRoot(vm, r), s, g) <==> HoldsPage(vm, s, g)
  {
    var w := WithoutRoot(vm, r);
    if HoldsPage(w, s, g) {
      var q, j: Index :| UserLeaf(w, q, j) && q.root == s && Entry(w, q, j).frame == g;
      assert UserLeaf(vm, q, j);
    }
    if HoldsPage(vm, s, g) {
      var q, j: Index :| UserLeaf(vm, q, j) && q.root == s && Entry(vm, q, j).frame == g;
      assert UserLeaf(w, q, j);
    }
  }

  // -------------------------------------------------------- frames in transit

  /** The allocator hands out `f`; no space holds it yet. */
  lemma TakenKeepsSound(vm: Vm, f: nat)
    requires Tables(vm) && Managed(vm, f) && f !in vm.used
    ensures Tables(vm.(used := vm.used + {f}))
    ensures Exclusive(vm) ==> Exclusive(vm.(used := vm.used + {f})) && Private(vm.(used := vm.used + {f}), f)
  {
    var w := vm.(used := vm.used + {f});
    FreshFrame(vm, f);
    TakenKeepsTables(vm, w);
    if Exclusive(vm) {
      hide Tables, Cell;
      forall q, j: Index | UserLeaf(w, q, j)
        ensures UserLeaf(vm, q, j) && LeafOk(w, q, j) && Entry(w, q, j).frame != f
      {
        assert UserLeaf(vm, q, j);
        assert LeafOk(vm, q, j);
      }
      forall q, j: Index, s, m: Index | UserLeaf(w, q, j) && UserLeaf(w, s, m) && (q != s || j != m)
        ensures LeavesApart(w, q, j, s, m)
      {
        assert LeavesApart(vm, q, j, s, m);
      }
    }
  }

  lemma TakenKeepsTables(vm: Vm, w: Vm)
    requires Tables(vm) && w == vm.(used := w.used) && vm.used <= w.used
    ensures Tables(w)
  {
    hide Cell;
    forall q | q in w.frameOf ensures PlaceOk(w, q) { assert PlaceOk(vm, q); }
    forall q, s | q in w.frameOf && s in w.frameOf && q != s ensures Apart(w, q, s) { assert Apart(vm, q, s); }
    forall q, j: Index | q in w.frameOf && q.Depth() < 3 ensures LinkOk(w, q, j) { assert LinkOk(vm, q, j); }
    forall r, j: Index | r in w.roots ensures RootOk(w, r, j) { assert RootOk(vm, r, j); }
  }

  lemma InstallKeepsPrivate(vm: Vm, w: Vm, p: Place, i: Index, f: nat, g: nat)
    requires Tables(vm) && CanInstall(vm, p, i, f) && HasNewTable(vm, w, p, i, f) && Private(vm, g)
    ensures Private(w, g)
  {
    InstallSetup(vm, p, i, f);
    hide Tables, Cell;
    forall q, j: Index | Managed(w, g) && UserLeaf(w, q, j) ensures Entry(w, q, j).frame != g {
      assert Entry(w, q, j) == Entry(vm, q, j);
      assert UserLeaf(vm, q, j);
    }
  }

  // ---------------------------------------------------- growing the hierarchy

  /** Every space holds the same user pages. */
  ghost predicate PagesSame(vm: Vm, w: Vm) {
    forall s: nat, g: nat {:trigger HoldsPage(w, s, g)} :: HoldsPage(w, s, g) <==> HoldsPage(vm, s, g)
  }

  /** The space `r` holds one page more, `f`. */
  ghost predicate PageGained(vm: Vm, w: Vm, r: nat, f: nat) {
    forall g: nat {:trigger HoldsPage(w, r, g)} :: HoldsPage(w, r, g) <==> HoldsPage(vm, r, g) || g == f
  }

  /** Every frame that came into use is a table of `owner`. */
  ghost predicate NewAreTables(vm: Vm, w: Vm, owner: nat) {
    forall g: nat {:trigger g in w.used} :: g in w.used ==> g in vm.used || (Managed(w, g) && HoldsTable(w, owner, g))
  }

  /** No table that can map large pages gained a large-page mark. */
  ghost predicate NoNewHuge(vm: Vm, w: Vm) {
    forall p: Place, i: Index {:trigger Entry(w, p, i)} :: (p.Pdpt? || p.Pd?) && Entry(w, p, i).Huge() ==> Entry(vm, p, i).Huge()
  }

  lemma NoNewHugeTransitive(a: Vm, b: Vm, c: Vm)
    requires NoNewHuge(a, b) && NoNewHuge(b, c)
    ensures NoNewHuge(a, c)
  {
    hide Entry;
    forall p: Place, i: Index | (p.Pdpt? || p.Pd?) && Entry(c, p, i).Huge() ensures Entry(a, p, i).Huge() {
      assert Entry(b, p, i).Huge();
    }
  }

  lemma InstallAddsNoHuge(vm: Vm, w: Vm, p: Place, i: Index, f: nat)
    requires HasNewTable(vm, w, p, i, f)
    ensures NoNewHuge(vm, w)
  {
    assert !NoPte.Huge() && !TableLink(f).Huge();
    hide Cell;
    forall q: Place, j: Index | (q.Pdpt? || q.Pd?) && Entry(w, q, j).Huge() ensures Entry(vm, q, j).Huge() {
      assert q in w.frameOf;
    }
  }

  ghost predicate TablesKept(vm: Vm, w: Vm) {
    forall q :: q in vm.frameOf ==> q in w.frameOf && w.frameOf[q] == vm.frameOf[q]
  }

  lemma TablesStay(v: Vm, w: Vm, o: nat, g: nat)
    requires HoldsTable(v, o, g) && TablesKept(v, w)
    ensures HoldsTable(w, o, g)
  {
    var q :| q in v.frameOf && q.root == o && v.frameOf[q] == g;
    assert q in w.frameOf && w.frameOf[q] == g;
  }

  /** Only empty tables were added, on behalf of the owner of the walked half. */
  ghost predicate Grown(vm: Vm, w: Vm, owner: nat) {
    && Tables(w) && w.kernel == vm.kernel && w.total == vm.total && w.roots == vm.roots && |w.mem| == |vm.mem|
    && vm.used <= w.used
    && TablesKept(vm, w)
    && (forall r, pg {:trigger Translate(w.mem, r, pg)} :: r in vm.roots ==> Translate(w.mem, r, pg) == Translate(vm.mem, r, pg))
    && (Exclusive(vm) ==> Exclusive(w) && OnlySpace(vm, w, owner))
    && PagesSame(vm, w) && NewAreTables(vm, w, owner) && NoNewHuge(vm, w)
    && (forall g {:trigger Private(w, g)} :: 0 <= g && Private(vm, g) ==> Private(w, g))
  }

  lemma GrownTransitive(a: Vm, b: Vm, c: Vm, owner: nat)
    requires Grown(a, b, owner) && Grown(b, c, owner)
    ensures Grown(a, c, owner)
  {
    hide Tables, Translate, Exclusive, Private;
    if Exclusive(a) { OnlySpaceTransitive(a, b, c, owner); }
    NoNewHugeTransitive(a, b, c);
    hide OnlySpace, HoldsPage, HoldsTable, NoNewHuge;
    forall g: nat | g in c.used ensures g in a.used || HoldsTable(c, owner, g) {
      if g in b.used && g !in a.used { TablesStay(b, c, owner, g); }
    }
    forall s: nat, g: nat ensures HoldsPage(c, s, g) <==> HoldsPage(a, s, g) {
      assert HoldsPage(b, s, g) <==> HoldsPage(a, s, g);
    }
    forall g: nat | Private(a, g) ensures Private(c, g) { assert Private(b, g); }
    forall r, pg | r in a.roots ensures Translate(c.mem, r, pg) == Translate(a.mem, r, pg) {
      assert Translate(b.mem, r, pg) == Translate(a.mem, r, pg);
    }
  }

  lemma InstallGrows(vm: Vm, w: Vm, p: Place, i: Index, f: nat)
    requires Tables(vm) && CanInstall(vm, p, i, f) && HasNewTable(vm, w, p, i, f)
    ensures Grown(vm, w, p.root)
  {
    InstallSetup(vm, p, i, f);
    InstallKeepsTables(vm, w, p, i, f);
    if Exclusive(vm) { InstallOnlySpace(vm, w, p, i, f); }
    InstallTables(vm, w, p, i, f, p.root, f);
    InstallAddsNoHuge(vm, w, p, i, f);
    hide Tables, Exclusive, Translate, OnlySpace, Private, HoldsPage, HoldsTable, NoNewHuge;
    forall s: nat, g: nat ensures HoldsPage(w, s, g) <==> HoldsPage(vm, s, g) { InstallPages(vm, w, p, i, f, s, g); }
    forall g: nat | Private(vm, g) ensures Private(w, g) { InstallKeepsPrivate(vm, w, p, i, f, g); }
    forall r, pg | r in vm.roots ensures Translate(w.mem, r, pg) == Translate(vm.mem, r, pg) {
      InstallKeepsTranslations(vm, w, p, i, f, r, pg);
    }
  }

  lemma GrownReflexive(vm: Vm, owner: nat)
    requires Tables(vm)
    ensures Grown(vm, vm, owner)
  {
    hide Tables, Exclusive, Translate, Private;
    OnlySpaceReflexive(vm, owner);
  }
}
