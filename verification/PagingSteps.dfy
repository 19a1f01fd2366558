/** The elementary changes of page tables, and what each keeps. */
module PagingSteps {
  import opened Basics
  import opened PageTables

  // ------------------------------------------------------------ translations

  lemma OnAbove(vm: Vm, r: nat, pg: Page, d: nat)
    requires Tables(vm) && r in vm.roots && 0 < d <= 3 && On(vm.kernel, r, pg, d) in vm.frameOf
    ensures On(vm.kernel, r, pg, d - 1) in vm.frameOf
  {
    hide Linked, Separate;
    assert PlaceOk(vm, On(vm.kernel, r, pg, d));
  }

  /** A table met by a translation is where the translation goes on. */
  lemma {:induction false} TranslateIs(vm: Vm, r: nat, pg: Page, d: nat)
    requires Tables(vm) && r in vm.roots && d <= 3 && On(vm.kernel, r, pg, d) in vm.frameOf
    ensures Translate(vm.mem, r, pg) == Walk(vm.mem, vm.frameOf[On(vm.kernel, r, pg, d)], d, pg)
  {
    if d == 0 {
      assert PlaceOk(vm, Pml4(r));
    } else {
      hide Tables, Cell, InHuge, On;
      OnAbove(vm, r, pg, d);
      TranslateIs(vm, r, pg, d - 1);
      WalkStep(vm, r, pg, d - 1);
    }
  }

  /** Translating `pg` from `r` reads slot `i` of `p`. */
  predicate Reads(k: nat, r: nat, pg: Page, p: Place, i: Index) {
    On(k, r, pg, p.Depth()) == p && pg.At(p.Depth()) == i
  }

  /** All frames of tables agree with `mem` except at slot `i` of `p`. */
  ghost predicate SameExcept(vm: Vm, mem: Memory, p: Place, i: Index) {
    forall q, j {:trigger Entry(vm, q, j)} :: q in vm.frameOf && 0 <= j < ENTRIES && (q != p || j != i) ==>
      Cell(mem, vm.frameOf[q], j) == Entry(vm, q, j)
  }

  lemma OthersTranslateSame(vm: Vm, mem: Memory, p: Place, i: Index, r: nat, pg: Page)
    requires Tables(vm) && r in vm.roots && SameExcept(vm, mem, p, i)
    requires !Reads(vm.kernel, r, pg, p, i)
    ensures Translate(mem, r, pg) == Translate(vm.mem, r, pg)
  {
    forall d: nat | d <= 3 && On(vm.kernel, r, pg, d) in vm.frameOf
      ensures Cell(mem, vm.frameOf[On(vm.kernel, r, pg, d)], pg.At(d)) == Entry(vm, On(vm.kernel, r, pg, d), pg.At(d))
    {
      assert On(vm.kernel, r, pg, d).Depth() == d;
    }
    TranslateSame(vm, mem, r, pg);
  }

  lemma ChildInjective(k: nat, p: Place, i: Index, q: Place, j: Index)
    requires p.Depth() < 3 && q.Depth() < 3 && Child(k, p, i) == Child(k, q, j)
    requires p.Pml4? ==> i < KERNEL_SLOT
    ensures p == q && i == j
  {
  }

  // ---------------------------------------------------- linking a fresh table

  /** Slot `i` of `p` is absent and `f` is a free frame. */
  predicate CanInstall(vm: Vm, p: Place, i: Index, f: nat) {
    && p in vm.frameOf && p.Depth() < 3 && !Entry(vm, p, i).Present()
    && f !in vm.used && Managed(vm, f)
  }

  lemma InstallSetup(vm: Vm, p: Place, i: Index, f: nat)
    requires Tables(vm) && CanInstall(vm, p, i, f)
    ensures f < |vm.mem| && vm.frameOf[p] < |vm.mem| && Child(vm.kernel, p, i) !in vm.frameOf
    ensures p.Pml4? ==> i < KERNEL_SLOT
    ensures forall q :: q in vm.frameOf ==> vm.frameOf[q] != f
  {
    hide Separate;
    assert PlaceOk(vm, p);
    assert LinkOk(vm, p, i);
    if p.Pml4? { assert RootOk(vm, p.root, i); }
    forall q | q in vm.frameOf
      ensures vm.frameOf[q] != f
    {
      assert PlaceOk(vm, q);
    }
  }

  function Installed(vm: Vm, p: Place, i: Index, f: nat): Vm
    requires Sized(vm.mem) && p in vm.frameOf && vm.frameOf[p] < |vm.mem| && f < |vm.mem|
  {
    assert |Zeroed(vm.mem, f)[vm.frameOf[p]]| == ENTRIES;
    vm.(mem := Put(Zeroed(vm.mem, f), vm.frameOf[p], i, TableLink(f)),
        used := vm.used + {f},
        frameOf := vm.frameOf[Child(vm.kernel, p, i) := f])
  }

  /** `w` is `vm` with a fresh table `f` at slot `i` of `p`, seen entry by entry. */
  ghost predicate HasNewTable(vm: Vm, w: Vm, p: Place, i: Index, f: nat) {
    var c := Child(vm.kernel, p, i);
    && Sized(w.mem) && |w.mem| == |vm.mem| && w.total == vm.total
    && w.kernel == vm.kernel && w.roots == vm.roots
    && w.used == vm.used + {f}
    && w.frameOf == vm.frameOf[c := f]
    && (forall q, j {:trigger Entry(w, q, j)} :: q in w.frameOf && 0 <= j < ENTRIES ==>
          Entry(w, q, j) == if q == c then NoPte else if q == p && j == i then TableLink(f) else Entry(vm, q, j))
  }

  lemma InstallHasNewTable(vm: Vm, p: Place, i: Index, f: nat)
    requires Tables(vm) && CanInstall(vm, p, i, f)
    ensures f < |vm.mem| && vm.frameOf[p] < |vm.mem| && Sized(vm.mem) && vm.total <= |vm.mem|
    ensures HasNewTable(vm, Installed(vm, p, i, f), p, i, f)
  {
    InstallSetup(vm, p, i, f);
    CellOfZeroed(vm.mem, f);
    CellOfPut(Zeroed(vm.mem, f), vm.frameOf[p], i, TableLink(f));
    var w := Installed(vm, p, i, f);
    var c := Child(vm.kernel, p, i);
    hide Cell, Put, Zeroed, Linked, Roots, Places;
    forall q, j | q in w.frameOf && 0 <= j < ENTRIES
      ensures Entry(w, q, j) == if q == c then NoPte else if q == p && j == i then TableLink(f) else Entry(vm, q, j)
    {
      if q != c && q != p { assert Apart(vm, p, q); }
    }
  }

  lemma InstallPlaces(vm: Vm, w: Vm, p: Place, i: Index, f: nat)
    requires Tables(vm) && CanInstall(vm, p, i, f) && HasNewTable(vm, w, p, i, f)
    ensures Places(w) && Separate(w)
  {
    InstallSetup(vm, p, i, f);
    hide Linked, Roots;
    assert PlaceOk(vm, p);
    forall q | q in w.frameOf ensures PlaceOk(w, q) {
      if q in vm.frameOf { assert PlaceOk(vm, q); }
    }
    forall q, s | q in w.frameOf && s in w.frameOf && q != s ensures Apart(w, q, s) {
      if q in vm.frameOf && s in vm.frameOf { assert Apart(vm, q, s); }
    }
  }

  lemma NoChildrenOfAbsent(vm: Vm, c: Place, j: Index)
    requires Tables(vm) && c !in vm.frameOf && 0 < c.Depth() < 3
    ensures Child(vm.kernel, c, j) !in vm.frameOf
  {
    hide Linked, Roots, Separate;
    assert Child(vm.kernel, c, j) !in vm.frameOf || PlaceOk(vm, Child(vm.kernel, c, j));
  }

  lemma InstallLinked(vm: Vm, w: Vm, p: Place, i: Index, f: nat)
    requires Tables(vm) && CanInstall(vm, p, i, f) && HasNewTable(vm, w, p, i, f)
    ensures Linked(w)
  {
    InstallSetup(vm, p, i, f);
    var c := Child(vm.kernel, p, i);
    forall q, j: Index | q in w.frameOf && q.Depth() < 3 ensures LinkOk(w, q, j) {
      if q == c {
        NoChildrenOfAbsent(vm, c, j);
        assert Entry(w, q, j) == NoPte;
        assert Child(vm.kernel, q, j) != c;
      } else if q == p && j == i {
        assert Entry(w, q, j) == TableLink(f);
      } else {
        assert LinkOk(vm, q, j);
        assert Entry(w, q, j) == Entry(vm, q, j);
        if Child(vm.kernel, q, j) == c { ChildInjective(vm.kernel, p, i, q, j); }
      }
    }
  }

  lemma InstallRoots(vm: Vm, w: Vm, p: Place, i: Index, f: nat)
    requires Tables(vm) && CanInstall(vm, p, i, f) && HasNewTable(vm, w, p, i, f)
    ensures Roots(w)
  {
    InstallSetup(vm, p, i, f);
    hide Linked, Separate;
    assert PlaceOk(vm, Pml4(vm.kernel));
    forall r, j: Index | r in w.roots ensures RootOk(w, r, j) {
      assert PlaceOk(vm, Pml4(r));
      assert RootOk(vm, r, j);
      assert Entry(w, Pml4(r), j) == Cell(w.mem, r, j);
      assert Entry(w, Pml4(vm.kernel), j) == Cell(w.mem, vm.kernel, j);
    }
  }

  lemma InstallKeepsTables(vm: Vm, w: Vm, p: Place, i: Index, f: nat)
    requires Tables(vm) && CanInstall(vm, p, i, f) && HasNewTable(vm, w, p, i, f)
    ensures Tables(w)
  {
    InstallPlaces(vm, w, p, i, f);
    InstallLinked(vm, w, p, i, f);
    InstallRoots(vm, w, p, i, f);
  }

  /** An empty table maps nothing: no address space sees the change. */
  lemma InstallKeepsTranslations(vm: Vm, w: Vm, p: Place, i: Index, f: nat, r: nat, pg: Page)
    requires Tables(vm) && CanInstall(vm, p, i, f) && HasNewTable(vm, w, p, i, f) && r in vm.roots
    ensures Translate(w.mem, r, pg) == Translate(vm.mem, r, pg)
  {
    hide Tables, Cell, InHuge;
    InstallSetup(vm, p, i, f);
    InstallKeepsTables(vm, w, p, i, f);
    var c := Child(vm.kernel, p, i);
    var d := p.Depth();
    if Reads(vm.kernel, r, pg, p, i) {
      ChildOn(vm.kernel, r, pg, d);
      TranslateIs(vm, r, pg, d);
      TranslateIs(w, r, pg, d + 1);
      assert Entry(w, c, pg.At(d + 1)) == NoPte;
    } else {
      forall q, j: nat | q in vm.frameOf && j < ENTRIES && (q != p || j != i)
        ensures Cell(w.mem, vm.frameOf[q], j) == Entry(vm, q, j)
      {
        assert Entry(w, q, j) == Entry(vm, q, j);
      }
      OthersTranslateSame(vm, w.mem, p, i, r, pg);
    }
  }

  lemma InstallKeepsExclusive(vm: Vm, w: Vm, p: Place, i: Index, f: nat)
    requires Tables(vm) && CanInstall(vm, p, i, f) && HasNewTable(vm, w, p, i, f) && Exclusive(vm)
    ensures Exclusive(w)
  {
    InstallSetup(vm, p, i, f);
    hide Tables, Cell;
    forall q, j: Index | UserLeaf(w, q, j) ensures LeafOk(w, q, j) && UserLeaf(vm, q, j) {
      assert Entry(w, q, j) == Entry(vm, q, j);
      assert LeafOk(vm, q, j);
    }
    forall q, j: Index, s, m: Index | UserLeaf(w, q, j) && UserLeaf(w, s, m) && (q != s || j != m)
      ensures LeavesApart(w, q, j, s, m)
    {
      assert LeavesApart(vm, q, j, s, m);
    }
  }

  // -------------------------------------------------------- writing an entry

  /** Slot `i` of `p` may become `e` without linking or unlinking a table. */
  predicate CanWrite(vm: Vm, p: Place, i: Index, e: Pte) {
    && p in vm.frameOf && p.Depth() > 0
    && (p.Pt? || (!Links(Entry(vm, p, i), p.Depth()) && !Links(e, p.Depth())))
  }

  /** `w` is `vm` with `e` in slot `i` of `p`, seen entry by entry. */
  ghost predicate HasEntry(vm: Vm, w: Vm, p: Place, i: Index, e: Pte) {
    && Sized(w.mem) && |w.mem| == |vm.mem| && w == vm.(mem := w.mem)
    && (forall q, j {:trigger Entry(w, q, j)} :: q in w.frameOf && 0 <= j < ENTRIES ==>
          Entry(w, q, j) == if q == p && j == i then e else Entry(vm, q, j))
  }

  lemma WriteHasEntry(vm: Vm, p: Place, i: Index, e: Pte)
    requires Tables(vm) && p in vm.frameOf
    ensures vm.frameOf[p] < |vm.mem| && Sized(vm.mem)
    ensures HasEntry(vm, vm.(mem := Put(vm.mem, vm.frameOf[p], i, e)), p, i, e)
  {
    assert PlaceOk(vm, p);
    CellOfPut(vm.mem, vm.frameOf[p], i, e);
    var w := vm.(mem := Put(vm.mem, vm.frameOf[p], i, e));
    hide Cell, Put, Linked, Roots, Places;
    forall q, j | q in w.frameOf && 0 <= j < ENTRIES
      ensures Entry(w, q, j) == if q == p && j == i then e else Entry(vm, q, j)
    {
      if q != p { assert Apart(vm, p, q); }
    }
  }

  lemma WriteKeepsTables(vm: Vm, w: Vm, p: Place, i: Index, e: Pte)
    requires Tables(vm) && CanWrite(vm, p, i, e) && HasEntry(vm, w, p, i, e)
    ensures Tables(w)
  {
    forall q | q in w.frameOf ensures PlaceOk(w, q) { assert PlaceOk(vm, q); }
    forall q, s | q in w.frameOf && s in w.frameOf && q != s ensures Apart(w, q, s) { assert Apart(vm, q, s); }
    forall q, j: Index | q in w.frameOf && q.Depth() < 3 ensures LinkOk(w, q, j) {
      assert LinkOk(vm, q, j);
      assert Entry(w, q, j) == if q == p && j == i then e else Entry(vm, q, j);
    }
    assert PlaceOk(vm, Pml4(vm.kernel));
    forall r, j: Index | r in w.roots ensures RootOk(w, r, j) {
      assert PlaceOk(vm, Pml4(r));
      assert RootOk(vm, r, j);
      assert Entry(w, Pml4(r), j) == Cell(w.mem, r, j);
      assert Entry(w, Pml4(vm.kernel), j) == Cell(w.mem, vm.kernel, j);
    }
  }

  /** What slot value `e` of a page table means. */
  function Leaf(e: Pte): (r: Option<Pte>)
    ensures r.Some? <==> e.flags % 2 == 1
  {
    if e.Present() then Some(e) else None
  }

  /** Exactly the translations that read the slot change. */
  lemma WriteTranslates(vm: Vm, w: Vm, p: Place, i: Index, e: Pte, r: nat, pg: Page)
    requires Tables(vm) && CanWrite(vm, p, i, e) && HasEntry(vm, w, p, i, e) && r in vm.roots
    requires p.Pt? || !e.Present()
    ensures Translate(w.mem, r, pg) == if Reads(vm.kernel, r, pg, p, i) then Leaf(e) else Translate(vm.mem, r, pg)
  {
    WriteKeepsTables(vm, w, p, i, e);
    hide Tables, Cell, InHuge;
    if Reads(vm.kernel, r, pg, p, i) {
      TranslateIs(w, r, pg, p.Depth());
      assert Entry(w, p, i) == e;
    } else {
      forall q, j: nat | q in vm.frameOf && j < ENTRIES && (q != p || j != i)
        ensures Cell(w.mem, vm.frameOf[q], j) == Entry(vm, q, j)
      {
        assert Entry(w, q, j) == Entry(vm, q, j);
      }
      OthersTranslateSame(vm, w.mem, p, i, r, pg);
    }
  }

  lemma ReadsLeaf(k: nat, r0: nat, pg0: Page, r: nat, pg: Page)
    ensures Reads(k, r, pg, On(k, r0, pg0, 3), pg0.i1) <==> pg == pg0 && (r == r0 || pg0.Kernel())
  {
  }

  /** A frame that may become a user page: in use, no table, mapped in no user half. */
  ghost predicate Private(vm: Vm, f: nat) {
    Managed(vm, f) ==>
      && f in vm.used
      && (forall q :: q in vm.frameOf ==> vm.frameOf[q] != f)
      && (forall q, j: Index {:trigger UserLeaf(vm, q, j)} :: UserLeaf(vm, q, j) ==> Entry(vm, q, j).frame != f)
  }

  lemma WriteKeepsExclusive(vm: Vm, w: Vm, p: Place, i: Index, e: Pte)
    requires Exclusive(vm) && CanWrite(vm, p, i, e) && HasEntry(vm, w, p, i, e)
    requires p.root != vm.kernel && e.Present() && p.Pt? ==> Private(vm, e.frame)
    ensures Exclusive(w)
  {
    hide Cell;
    forall q, j: Index | UserLeaf(w, q, j) && (q != p || j != i)
      ensures UserLeaf(vm, q, j) && LeafOk(w, q, j) && Entry(w, q, j) == Entry(vm, q, j)
    {
      assert Entry(w, q, j) == Entry(vm, q, j);
      assert LeafOk(vm, q, j);
    }
    forall q, j: Index | UserLeaf(w, q, j) ensures LeafOk(w, q, j) {
    }
    forall q, j: Index, s, m: Index | UserLeaf(w, q, j) && UserLeaf(w, s, m) && (q != s || j != m)
      ensures LeavesApart(w, q, j, s, m)
    {
      assert LeavesApart(vm, q, j, s, m) || (q == p && j == i) || (s == p && m == i);
    }
  }

  // --------------------------------------------------------- releasing frames

  /** The allocator takes `f` back, if it manages it. */
  function Freed(vm: Vm, f: nat): Vm {
    if Managed(vm, f) then vm.(used := vm.used - {f}) else vm
  }

  lemma FreeKeepsTables(vm: Vm, f: nat)
    requires Tables(vm)
    requires Managed(vm, f) ==> forall q :: q in vm.frameOf ==> vm.frameOf[q] != f
    ensures Tables(Freed(vm, f))
  {
    var w := Freed(vm, f);
    hide Cell;
    forall q | q in w.frameOf ensures PlaceOk(w, q) { assert PlaceOk(vm, q); }
    forall q, s | q in w.frameOf && s in w.frameOf && q != s ensures Apart(w, q, s) { assert Apart(vm, q, s); }
    forall q, j: Index | q in w.frameOf && q.Depth() < 3 ensures LinkOk(w, q, j) { assert LinkOk(vm, q, j); }
    forall r, j: Index | r in w.roots ensures RootOk(w, r, j) { assert RootOk(vm, r, j); }
  }

  lemma FreeKeepsExclusive(vm: Vm, f: nat)
    requires Exclusive(vm)
    requires Managed(vm, f) ==> forall q, j: Index {:trigger UserLeaf(vm, q, j)} :: UserLeaf(vm, q, j) ==> Entry(vm, q, j).frame != f
    ensures Exclusive(Freed(vm, f))
  {
    var w := Freed(vm, f);
    hide Cell;
    forall q, j: Index | UserLeaf(w, q, j) ensures LeafOk(w, q, j) && UserLeaf(vm, q, j) {
      assert UserLeaf(vm, q, j);
      assert LeafOk(vm, q, j);
    }
    forall q, j: Index, s, m: Index | UserLeaf(w, q, j) && UserLeaf(w, s, m) && (q != s || j != m)
      ensures LeavesApart(w, q, j, s, m)
    {
      assert LeavesApart(vm, q, j, s, m);
    }
  }

  // ------------------------------------------------------- unlinking a table

  /** An empty user table. */
  ghost predicate CanDrop(vm: Vm, p: Place) {
    && p in vm.frameOf && p.Depth() > 0 && p.root != vm.kernel
    && (forall i: Index {:trigger Entry(vm, p, i)} :: !Entry(vm, p, i).Present())
  }

  /** `w` is `vm` without the table at `p`, its frame given back. */
  ghost predicate LostTable(vm: Vm, w: Vm, p: Place)
    requires p in vm.frameOf
  {
    && Sized(w.mem) && |w.mem| == |vm.mem| && w.total == vm.total
    && w.kernel == vm.kernel && w.roots == vm.roots
    && w.used == Freed(vm, vm.frameOf[p]).used
    && w.frameOf == vm.frameOf - {p}
    && (forall q, j {:trigger Entry(w, q, j)} :: q in w.frameOf && 0 <= j < ENTRIES ==>
          Entry(w, q, j) == if q == p.Up() && j == p.Slot() then NoPte else Entry(vm, q, j))
  }

  lemma DropLostTable(vm: Vm, p: Place)
    requires Tables(vm) && CanDrop(vm, p)
    ensures p.Up() in vm.frameOf && vm.frameOf[p.Up()] < |vm.mem| && p.Slot() < ENTRIES && Sized(vm.mem)
    ensures LostTable(vm, Freed(vm, vm.frameOf[p]).(mem := Put(vm.mem, vm.frameOf[p.Up()], p.Slot(), NoPte),
                                                    frameOf := vm.frameOf - {p}), p)
  {
    assert PlaceOk(vm, p);
    WriteHasEntry(vm, p.Up(), p.Slot(), NoPte);
    var v := vm.(mem := Put(vm.mem, vm.frameOf[p.Up()], p.Slot(), NoPte));
    var w := Freed(vm, vm.frameOf[p]).(mem := v.mem, frameOf := vm.frameOf - {p});
    hide Cell, Put, Tables, CanDrop;
    forall q, j | q in w.frameOf && 0 <= j < ENTRIES
      ensures Entry(w, q, j) == if q == p.Up() && j == p.Slot() then NoPte else Entry(vm, q, j)
    {
      assert Entry(w, q, j) == Entry(v, q, j);
    }
  }

  lemma DropSetup(vm: Vm, p: Place)
    requires Tables(vm) && CanDrop(vm, p)
    ensures p.Up() in vm.frameOf && (p.Up().Pml4? ==> p.Slot() < KERNEL_SLOT)
    ensures Child(vm.kernel, p.Up(), p.Slot()) == p
    ensures forall q :: q in vm.frameOf && !q.Pml4? ==> q.Up() != p
    ensures forall q :: q in vm.frameOf && q != p ==> vm.frameOf[q] != vm.frameOf[p]
  {
    hide Cell, Roots;
    assert PlaceOk(vm, p);
    forall q | q in vm.frameOf && q != p ensures vm.frameOf[q] != vm.frameOf[p] { assert Apart(vm, q, p); }
    forall q | q in vm.frameOf && !q.Pml4? ensures q.Up() != p {
      assert Child(vm.kernel, q.Up(), q.Slot()) == q || q.Up() != p;
      assert q.Up() != p || LinkOk(vm, p, q.Slot());
    }
  }

  lemma DropPlaces(vm: Vm, w: Vm, p: Place)
    requires Tables(vm) && CanDrop(vm, p) && LostTable(vm, w, p)
    ensures Places(w) && Separate(w)
  {
    DropSetup(vm, p);
    hide Linked, Roots, Cell, CanDrop;
    forall q | q in w.frameOf ensures PlaceOk(w, q) { assert PlaceOk(vm, q); }
    forall q, s | q in w.frameOf && s in w.frameOf && q != s ensures Apart(w, q, s) { assert Apart(vm, q, s); }
  }

  lemma DropLinked(vm: Vm, w: Vm, p: Place)
    requires Tables(vm) && CanDrop(vm, p) && LostTable(vm, w, p)
    ensures Linked(w)
  {
    DropSetup(vm, p);
    hide Roots, Cell, CanDrop, Places, Separate;
    forall q, j: Index | q in w.frameOf && q.Depth() < 3 ensures LinkOk(w, q, j) {
      assert LinkOk(vm, q, j);
      assert Entry(w, q, j) == if q == p.Up() && j == p.Slot() then NoPte else Entry(vm, q, j);
      if Child(vm.kernel, q, j) == p { ChildInjective(vm.kernel, p.Up(), p.Slot(), q, j); }
    }
  }

  lemma DropKeepsTables(vm: Vm, w: Vm, p: Place)
    requires Tables(vm) && CanDrop(vm, p) && LostTable(vm, w, p)
    ensures Tables(w)
  {
    DropSetup(vm, p);
    DropPlaces(vm, w, p);
    DropLinked(vm, w, p);
    hide Linked, Separate, CanDrop;
    assert PlaceOk(vm, Pml4(vm.kernel));
    forall r, j: Index | r in w.roots ensures RootOk(w, r, j) {
      assert PlaceOk(vm, Pml4(r));
      assert RootOk(vm, r, j);
      assert Entry(w, Pml4(r), j) == Cell(w.mem, r, j);
      assert Entry(w, Pml4(vm.kernel), j) == Cell(w.mem, vm.kernel, j);
    }
  }

  lemma DropKeepsTranslations(vm: Vm, w: Vm, p: Place, r: nat, pg: Page)
    requires Tables(vm) && CanDrop(vm, p) && LostTable(vm, w, p) && r in vm.roots
    ensures Translate(w.mem, r, pg) == Translate(vm.mem, r, pg)
  {
    DropSetup(vm, p);
    DropKeepsTables(vm, w, p);
    var d := p.Depth() - 1;
    hide Tables, Cell, InHuge;
    if Reads(vm.kernel, r, pg, p.Up(), p.Slot()) {
      ChildOn(vm.kernel, r, pg, d);
      TranslateIs(vm, r, pg, d + 1);
      assert !Entry(vm, p, pg.At(d + 1)).Present();
      TranslateIs(w, r, pg, d);
      assert Entry(w, p.Up(), p.Slot()) == NoPte;
    } else {
      SkippedRead(vm, w, p, r, pg);
    }
  }

  lemma SkippedRead(vm: Vm, w: Vm, p: Place, r: nat, pg: Page)
    requires Tables(vm) && CanDrop(vm, p) && LostTable(vm, w, p) && r in vm.roots
    requires !Reads(vm.kernel, r, pg, p.Up(), p.Slot())
    ensures Translate(w.mem, r, pg) == Translate(vm.mem, r, pg)
  {
    DropSetup(vm, p);
    forall d: nat | d <= 3 && On(vm.kernel, r, pg, d) in vm.frameOf
      ensures Cell(w.mem, vm.frameOf[On(vm.kernel, r, pg, d)], pg.At(d)) == Entry(vm, On(vm.kernel, r, pg, d), pg.At(d))
    {
      var q := On(vm.kernel, r, pg, d);
      assert q != p;
      assert Entry(w, q, pg.At(d)) == Entry(vm, q, pg.At(d));
    }
    TranslateSame(vm, w.mem, r, pg);
  }

  lemma DropKeepsExclusive(vm: Vm, w: Vm, p: Place)
    requires Tables(vm) && Exclusive(vm) && CanDrop(vm, p) && LostTable(vm, w, p)
    ensures Exclusive(w)
  {
    DropSetup(vm, p);
    hide Cell, Tables, CanDrop;
    forall q, j: Index | UserLeaf(w, q, j)
      ensures UserLeaf(vm, q, j) && LeafOk(w, q, j) && Entry(w, q, j) == Entry(vm, q, j)
    {
      assert Entry(w, q, j) == Entry(vm, q, j);
      assert LeafOk(vm, q, j);
    }
    forall q, j: Index, s, m: Index | UserLeaf(w, q, j) && UserLeaf(w, s, m) && (q != s || j != m)
      ensures LeavesApart(w, q, j, s, m)
    {
      assert LeavesApart(vm, q, j, s, m);
    }
  }

  // ---------------------------------------------------- whole address spaces

  /** Every address space translates every kernel address as the kernel does. */
  lemma KernelHalfShared(vm: Vm, r: nat, pg: Page)
    requires Tables(vm) && r in vm.roots && pg.Kernel()
    ensures Translate(vm.mem, r, pg) == Translate(vm.mem, vm.kernel, pg)
  {
    assert PlaceOk(vm, Pml4(vm.kernel));
    assert RootOk(vm, vm.kernel, pg.i4);
    assert LinkOk(vm, Pml4(vm.kernel), pg.i4);
    TranslateIs(vm, r, pg, 1);
    TranslateIs(vm, vm.kernel, pg, 1);
  }

  /** `w` is `vm` with a new root `f`: kernel slots cloned, the rest empty. */
  ghost predicate HasNewRoot(vm: Vm, w: Vm, f: nat) {
    && Sized(w.mem) && |w.mem| == |vm.mem| && w.total == vm.total && w.kernel == vm.kernel
    && w.roots == vm.roots + {f}
    && w.used == vm.used + {f}
    && w.frameOf == vm.frameOf[Pml4(f) := f]
    && (forall q, j {:trigger Entry(w, q, j)} :: q in w.frameOf && 0 <= j < ENTRIES ==>
          Entry(w, q, j) == if q != Pml4(f) then Entry(vm, q, j)
                            else if j < KERNEL_SLOT then NoPte else Entry(vm, Pml4(vm.kernel), j))
  }

  lemma FreshFrame(vm: Vm, f: nat)
    requires Tables(vm) && Managed(vm, f) && f !in vm.used
    ensures f < |vm.mem| && f !in vm.roots && f != vm.kernel
    ensures forall q :: q in vm.frameOf ==> vm.frameOf[q] != f && q.root != f
  {
    hide Linked, Separate;
    forall q | q in vm.frameOf ensures vm.frameOf[q] != f { assert PlaceOk(vm, q); }
    assert f !in vm.roots || PlaceOk(vm, Pml4(f));
    forall q | q in vm.frameOf ensures q.root != f { assert PlaceOk(vm, q); }
  }

  lemma NewRootKeepsTables(vm: Vm, w: Vm, f: nat)
    requires Tables(vm) && Managed(vm, f) && f !in vm.used && HasNewRoot(vm, w, f)
    ensures Tables(w)
  {
    FreshFrame(vm, f);
    NewRootLinked(vm, w, f);
    hide Linked;
    forall q | q in w.frameOf ensures PlaceOk(w, q) {
      if q != Pml4(f) { assert PlaceOk(vm, q); }
    }
    forall q, s | q in w.frameOf && s in w.frameOf && q != s ensures Apart(w, q, s) {
      if q != Pml4(f) && s != Pml4(f) { assert Apart(vm, q, s); }
    }
    NewRootRoots(vm, w, f);
  }

  lemma NewRootRoots(vm: Vm, w: Vm, f: nat)
    requires Tables(vm) && Managed(vm, f) && f !in vm.used && HasNewRoot(vm, w, f)
    ensures Roots(w)
  {
    FreshFrame(vm, f);
    hide Linked, Separate;
    assert PlaceOk(vm, Pml4(vm.kernel));
    forall r, j: Index | r in w.roots ensures RootOk(w, r, j) {
      assert RootOk(vm, vm.kernel, j);
      assert Entry(w, Pml4(r), j) == Cell(w.mem, w.frameOf[Pml4(r)], j);
      assert Entry(w, Pml4(vm.kernel), j) == Cell(w.mem, vm.kernel, j);
      if r != f {
        assert PlaceOk(vm, Pml4(r));
        assert RootOk(vm, r, j);
      }
    }
  }

  lemma NewRootLinked(vm: Vm, w: Vm, f: nat)
    requires Tables(vm) && Managed(vm, f) && f !in vm.used && HasNewRoot(vm, w, f)
    ensures Linked(w)
  {
    FreshFrame(vm, f);
    hide Places, Separate;
    forall q, j: Index | q in w.frameOf && q.Depth() < 3 ensures LinkOk(w, q, j) {
      if q == Pml4(f) {
        assert LinkOk(vm, Pml4(vm.kernel), j);
        assert Entry(w, q, j) == if j < KERNEL_SLOT then NoPte else Entry(vm, Pml4(vm.kernel), j);
      } else {
        assert LinkOk(vm, q, j);
        assert Entry(w, q, j) == Entry(vm, q, j);
      }
    }
  }

  /** The old spaces see nothing; the new one has the kernel half and no user page. */
  lemma NewRootTranslates(vm: Vm, w: Vm, f: nat, r: nat, pg: Page)
    requires Tables(vm) && Managed(vm, f) && f !in vm.used && HasNewRoot(vm, w, f) && r in w.roots
    ensures r != f ==> Translate(w.mem, r, pg) == Translate(vm.mem, r, pg)
    ensures r == f ==> Translate(w.mem, r, pg) == if pg.Kernel() then Translate(vm.mem, vm.kernel, pg) else None
  {
    FreshFrame(vm, f);
    NewRootKeepsTables(vm, w, f);
    if r != f {
      NewRootSame(vm, w, f, r, pg);
    } else if pg.Kernel() {
      KernelHalfShared(w, f, pg);
      NewRootSame(vm, w, f, vm.kernel, pg);
    } else {
      hide Tables;
      assert Entry(w, Pml4(f), pg.i4) == NoPte;
    }
  }

  lemma NewRootSame(vm: Vm, w: Vm, f: nat, r: nat, pg: Page)
    requires Tables(vm) && Managed(vm, f) && f !in vm.used && HasNewRoot(vm, w, f) && r in vm.roots
    ensures Translate(w.mem, r, pg) == Translate(vm.mem, r, pg)
  {
    FreshFrame(vm, f);
    forall d: nat | d <= 3 && On(vm.kernel, r, pg, d) in vm.frameOf
      ensures Cell(w.mem, vm.frameOf[On(vm.kernel, r, pg, d)], pg.At(d)) == Entry(vm, On(vm.kernel, r, pg, d), pg.At(d))
    {
      var q := On(vm.kernel, r, pg, d);
      assert Entry(w, q, pg.At(d)) == Entry(vm, q, pg.At(d));
    }
    TranslateSame(vm, w.mem, r, pg);
  }

  lemma NewRootKeepsExclusive(vm: Vm, w: Vm, f: nat)
    requires Tables(vm) && Exclusive(vm) && Managed(vm, f) && f !in vm.used && HasNewRoot(vm, w, f)
    ensures Exclusive(w)
  {
    FreshFrame(vm, f);
    hide Cell, Tables;
    forall q, j: Index | UserLeaf(w, q, j)
      ensures UserLeaf(vm, q, j) && LeafOk(w, q, j) && Entry(w, q, j) == Entry(vm, q, j)
    {
      assert Entry(w, q, j) == Entry(vm, q, j);
      assert LeafOk(vm, q, j);
    }
    forall q, j: Index, s, m: Index | UserLeaf(w, q, j) && UserLeaf(w, s, m) && (q != s || j != m)
      ensures LeavesApart(w, q, j, s, m)
    {
      assert LeavesApart(vm, q, j, s, m);
    }
  }

  /** A user root without user tables. */
  ghost predicate Bare(vm: Vm, r: nat) {
    && r in vm.roots && r != vm.kernel
    && (forall i: Index {:trigger Entry(vm, Pml4(r), i)} :: i < KERNEL_SLOT ==> !Entry(vm, Pml4(r), i).Present())
  }

  function WithoutRoot(vm: Vm, r: nat): Vm {
    Freed(vm, r).(roots := vm.roots - {r}, frameOf := vm.frameOf - {Pml4(r)})
  }

  lemma BareHasNoTables(vm: Vm, r: nat)
    requires Tables(vm) && Bare(vm, r)
    ensures r != vm.kernel && forall q :: q in vm.frameOf && q.root == r ==> q == Pml4(r)
    ensures forall q :: q in vm.frameOf && q != Pml4(r) ==> vm.frameOf[q] != r
  {
    assert PlaceOk(vm, Pml4(r));
    forall q | q in vm.frameOf && q != Pml4(r) ensures vm.frameOf[q] != r { assert Apart(vm, q, Pml4(r)); }
    forall i: Index ensures Pdpt(r, i) !in vm.frameOf {
      if Pdpt(r, i) in vm.frameOf { NotThere(vm, r, i); }
    }
    hide Separate, Linked, Roots;
    forall q | q in vm.frameOf && q.root == r ensures q == Pml4(r) {
      assert PlaceOk(vm, q);
      assert q.Pml4? || PlaceOk(vm, q.Up());
      assert !q.Pt? || PlaceOk(vm, q.Up().Up());
    }
  }

  lemma NotThere(vm: Vm, r: nat, i: Index)
    requires Tables(vm) && Bare(vm, r)
    ensures Pdpt(r, i) !in vm.frameOf
  {
    hide Separate;
    assert LinkOk(vm, Pml4(r), i);
    assert Pdpt(r, i) !in vm.frameOf || PlaceOk(vm, Pdpt(r, i));
  }

  lemma DropRootKeepsTables(vm: Vm, r: nat)
    requires Tables(vm) && Bare(vm, r)
    ensures Tables(WithoutRoot(vm, r))
  {
    hide Bare, Cell;
    BareHasNoTables(vm, r);
    var w := WithoutRoot(vm, r);
    assert PlaceOk(vm, Pml4(vm.kernel));
    forall q | q in w.frameOf ensures PlaceOk(w, q) { assert PlaceOk(vm, q); }
    forall s, j: Index | s in w.roots ensures RootOk(w, s, j) { assert RootOk(vm, s, j); }
    DropRootLinks(vm, r);
  }

  lemma DropRootLinks(vm: Vm, r: nat)
    requires Tables(vm) && Bare(vm, r)
    ensures Separate(WithoutRoot(vm, r)) && Linked(WithoutRoot(vm, r))
  {
    hide Bare, Cell, Places, Roots;
    BareHasNoTables(vm, r);
    var w := WithoutRoot(vm, r);
    forall q, s | q in w.frameOf && s in w.frameOf && q != s ensures Apart(w, q, s) { assert Apart(vm, q, s); }
    forall q, j: Index | q in w.frameOf && q.Depth() < 3 ensures LinkOk(w, q, j) {
      assert LinkOk(vm, q, j);
      assert Entry(w, q, j) == Entry(vm, q, j);
    }
  }

  lemma DropRootKeepsExclusive(vm: Vm, r: nat)
    requires Tables(vm) && Exclusive(vm) && Bare(vm, r)
    ensures Exclusive(WithoutRoot(vm, r))
  {
    BareHasNoTables(vm, r);
    assert PlaceOk(vm, Pml4(r));
    var w := WithoutRoot(vm, r);
    hide Bare, Cell, Tables;
    forall q, j: Index | UserLeaf(w, q, j)
      ensures UserLeaf(vm, q, j) && LeafOk(w, q, j) && Entry(w, q, j) == Entry(vm, q, j)
    {
      assert Entry(w, q, j) == Entry(vm, q, j);
      assert LeafOk(vm, q, j);
    }
    forall q, j: Index, s, m: Index | UserLeaf(w, q, j) && UserLeaf(w, s, m) && (q != s || j != m)
      ensures LeavesApart(w, q, j, s, m)
    {
      assert LeavesApart(vm, q, j, s, m);
    }
  }
}
