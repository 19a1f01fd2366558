/** Emptying a user address space table by table. */
module PagingTeardown {
  import opened Basics
  import opened PageTables
  import opened PagingSteps
  import opened PagingSpaces

  /** `q` is `p` or a table below it. */
  predicate Inside(q: Place, p: Place) {
    && q.root == p.root
    && match p
       case Pml4(_) => true
       case Pdpt(_, a) => !q.Pml4? && q.i4 == a
       case Pd(_, a, b) => (q.Pd? || q.Pt?) && q.i4 == a && q.i3 == b
       case Pt(_, _, _, _) => q == p
  }

  /** Every table outside `p` is where it was and has the same entries. */
  ghost predicate Untouched(vm: Vm, w: Vm, p: Place) {
    forall q {:trigger q in w.frameOf} :: !Inside(q, p) ==>
      && (q in w.frameOf <==> q in vm.frameOf)
      && (q in vm.frameOf ==> w.frameOf[q] == vm.frameOf[q])
      && forall j: nat {:trigger Entry(w, q, j)} :: j < ENTRIES ==> Entry(w, q, j) == Entry(vm, q, j)
  }

  /** The first `n` slots of the user table `p` have been emptied, nothing outside it touched. */
  ghost predicate Emptied(vm: Vm, w: Vm, p: Place, n: nat) {
    && Sound(w) && OnlySpace(vm, w, p.root) && Untouched(vm, w, p) && w.roots == vm.roots
    && p in w.frameOf && p in vm.frameOf && w.frameOf[p] == vm.frameOf[p] && p.root != w.kernel
    && (forall j: nat {:trigger Entry(w, p, j)} :: j < n ==> !Entry(w, p, j).Present())
  }

  lemma ChildInside(k: nat, p: Place, i: Index, q: Place)
    requires p.Depth() < 3 && (p.Pml4? ==> i < KERNEL_SLOT)
    ensures Inside(Child(k, p, i), p) && !Inside(p, Child(k, p, i))
    ensures Inside(q, Child(k, p, i)) ==> Inside(q, p)
    ensures Child(k, p, i).Up() == p && Child(k, p, i).Slot() == i && Child(k, p, i).root == p.root
  {
  }

  lemma EmptiedNone(vm: Vm, p: Place)
    requires Sound(vm) && p in vm.frameOf && p.root != vm.kernel
    ensures Emptied(vm, vm, p, 0)
  {
    OnlySpaceReflexive(vm, p.root);
  }

  lemma EmptiedSkip(vm: Vm, w: Vm, p: Place, n: nat)
    requires Emptied(vm, w, p, n) && n < ENTRIES && !Entry(w, p, n).Present()
    ensures Emptied(vm, w, p, n + 1)
  {
    hide Sound, OnlySpace, Untouched, Entry;
  }

  /** One slot was cleared without unlinking a table. */
  lemma EmptiedClear(vm: Vm, v: Vm, w: Vm, p: Place, n: Index)
    requires Emptied(vm, v, p, n) && Sound(w) && OnlySpace(v, w, p.root)
    requires w.roots == v.roots && w.frameOf == v.frameOf
    requires forall q, j: nat {:trigger Entry(w, q, j)} :: q in w.frameOf && j < ENTRIES ==>
               Entry(w, q, j) == if q == p && j == n then NoPte else Entry(v, q, j)
    ensures Emptied(vm, w, p, n + 1)
  {
    OnlySpaceTransitive(vm, v, w, p.root);
    hide Sound, OnlySpace, Cell;
    forall q | !Inside(q, p)
      ensures q in w.frameOf <==> q in vm.frameOf
      ensures q in vm.frameOf ==> w.frameOf[q] == vm.frameOf[q]
      ensures forall j: nat {:trigger Entry(w, q, j)} :: j < ENTRIES ==> Entry(w, q, j) == Entry(vm, q, j)
    {
      assert q in v.frameOf <==> q in vm.frameOf;
      forall j: nat | j < ENTRIES ensures Entry(w, q, j) == Entry(vm, q, j) {
        assert Entry(v, q, j) == Entry(vm, q, j);
      }
    }
  }

  lemma UntouchedTransitive(a: Vm, b: Vm, c: Vm, p: Place)
    requires Untouched(a, b, p) && Untouched(b, c, p)
    ensures Untouched(a, c, p)
  {
    hide Cell, Entry, Inside;
    forall q | !Inside(q, p)
      ensures q in c.frameOf <==> q in a.frameOf
      ensures q in a.frameOf ==> c.frameOf[q] == a.frameOf[q]
      ensures forall j: nat {:trigger Entry(c, q, j)} :: j < ENTRIES ==> Entry(c, q, j) == Entry(a, q, j)
    {
      assert q in b.frameOf <==> q in a.frameOf;
      assert q in c.frameOf <==> q in b.frameOf;
      forall j: nat | j < ENTRIES ensures Entry(c, q, j) == Entry(a, q, j) {
        assert Entry(b, q, j) == Entry(a, q, j);
      }
    }
  }

  lemma UntouchedWiden(v: Vm, w: Vm, p: Place, i: Index)
    requires Untouched(v, w, Child(v.kernel, p, i)) && p.Depth() < 3 && (p.Pml4? ==> i < KERNEL_SLOT)
    ensures Untouched(v, w, p)
  {
    hide Entry;
    forall q | !Inside(q, p) ensures !Inside(q, Child(v.kernel, p, i)) { ChildInside(v.kernel, p, i, q); }
    hide Inside, Child;
  }

  lemma LostUntouched(v: Vm, w: Vm, p: Place, i: Index)
    requires p.Depth() < 3 && (p.Pml4? ==> i < KERNEL_SLOT) && Child(v.kernel, p, i) in v.frameOf
    requires LostTable(v, w, Child(v.kernel, p, i))
    ensures Untouched(v, w, p)
  {
    var c := Child(v.kernel, p, i);
    hide Cell;
    forall q | !Inside(q, p)
      ensures q in w.frameOf <==> q in v.frameOf
      ensures q in v.frameOf ==> w.frameOf[q] == v.frameOf[q]
      ensures forall j: nat {:trigger Entry(w, q, j)} :: j < ENTRIES ==> Entry(w, q, j) == Entry(v, q, j)
    {
      ChildInside(v.kernel, p, i, q);
      assert q != c && q != p;
      forall j: nat | j < ENTRIES ensures Entry(w, q, j) == Entry(v, q, j) {
      }
    }
  }

  /** The subtree at slot `n` was emptied and its table unlinked. */
  lemma EmptiedSubtree(vm: Vm, v: Vm, u: Vm, w: Vm, p: Place, n: Index)
    requires Emptied(vm, v, p, n) && p.Depth() < 3 && (p.Pml4? ==> n < KERNEL_SLOT)
    requires Emptied(v, u, Child(v.kernel, p, n), ENTRIES)
    requires LostTable(u, w, Child(v.kernel, p, n))
    ensures Emptied(vm, w, p, n + 1)
  {
    var c := Child(v.kernel, p, n);
    ChildInside(v.kernel, p, n, p);
    assert CanDrop(u, c);
    DropOnlySpace(u, w, c);
    OnlySpaceTransitive(vm, v, u, p.root);
    OnlySpaceTransitive(vm, u, w, p.root);
    UntouchedWiden(v, u, p, n);
    LostUntouched(u, w, p, n);
    UntouchedTransitive(vm, v, u, p);
    UntouchedTransitive(vm, u, w, p);
    hide Sound, OnlySpace, CanDrop, Cell, Child;
    assert p in u.frameOf && u.frameOf[p] == v.frameOf[p];
    assert p in w.frameOf && w.frameOf[p] == u.frameOf[p];
    forall j: nat | j < n + 1 ensures !Entry(w, p, j).Present() {
      if j < n {
        assert Entry(u, p, j) == Entry(v, p, j);
        assert Entry(w, p, j) == Entry(u, p, j);
      } else {
        assert Entry(w, p, j) == NoPte;
      }
    }
    hide Untouched;
  }

  /** A root whose user slots are emptied holds nothing but itself and maps no user page. */
  lemma EmptiedRootIsBare(vm: Vm, w: Vm, r: nat, pg: Page)
    requires Emptied(vm, w, Pml4(r), KERNEL_SLOT)
    ensures Bare(w, r)
    ensures !pg.Kernel() ==> Translate(w.mem, r, pg) == None
  {
    assert PlaceOk(w, Pml4(r));
    assert On(w.kernel, r, pg, 0) == Pml4(r);
    if !pg.Kernel() {
      assert !Entry(w, Pml4(r), pg.i4).Present();
    }
  }
}
