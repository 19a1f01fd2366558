/**
  Whole runs of the paging operations: the kernel half stays shared, the tables refine
  partial maps, and an address space gives back exactly what it took.
 */
module PagingRuns {
  import opened Basics
  import opened PageTables
  import opened PagingSteps
  import opened PagingSpaces
  import opened PagingOps

  /** A finished operation with its outcome. `root` 0 of a create stands for failure; `Skip` is no call at all. */
  datatype Op =
    | Map(r: nat, pg: Page, e: Pte, ok: bool)
    | Unmap(r: nat, pg: Page, addr: nat)
    | Alloc(r: nat, pg: Page, flags: nat, frame: nat, ok: bool)
    | Create(root: nat)
    | Destroy(r: nat, freeRoot: bool)
    | Skip

  /** The call and its result relate the two states as the operation promises. */
  ghost predicate Step(vm: Vm, op: Op, w: Vm) {
    match op
    case Map(r, pg, e, ok) =>
      && r in vm.roots && MapResult(vm, w, r, pg, e, ok)
      && (pg.Kernel() || r == vm.kernel || !e.Present() || Private(vm, e.frame))
    case Unmap(r, pg, addr) => r in vm.roots && UnmapResult(vm, w, r, pg, addr)
    case Alloc(r, pg, flags, frame, ok) =>
      r in vm.roots && AllocResult(vm, w, r, pg, flags, frame, ok)
    case Create(root) => CreateResult(vm, w, root)
    case Destroy(r, freeRoot) => r in vm.roots && r != vm.kernel && DestroyResult(vm, w, r, freeRoot)
    case Skip => w == vm
  }

  ghost predicate Run(vms: seq<Vm>, ops: seq<Op>) {
    |vms| == |ops| + 1 && forall i {:trigger ops[i]} :: 0 <= i < |ops| ==> Step(vms[i], ops[i], vms[i + 1])
  }

  lemma StepKeepsSound(vm: Vm, op: Op, w: Vm)
    requires Sound(vm) && Step(vm, op, w)
    ensures Sound(w) && w.kernel == vm.kernel
  {
    hide Tables, Exclusive, OnlySpace, Translate, Private, NoneFree, HugeAt, Framed, Adopted, HeldBy, Elsewhere, SmallPage, HasEntry, Adopting;
    match op
    case Map(r, pg, e, ok) =>
    case Unmap(r, pg, addr) =>
    case Alloc(r, pg, flags, frame, ok) =>
    case Create(root) =>
    case Destroy(r, freeRoot) => FramedKernel(vm, w, r);
    case Skip =>
  }

  lemma FramedKernel(vm: Vm, w: Vm, r: nat)
    requires Framed(vm, w, r)
    ensures w.kernel == vm.kernel
  {
  }

  lemma {:induction false} RunKeepsSound(vms: seq<Vm>, ops: seq<Op>, n: nat)
    requires Run(vms, ops) && Sound(vms[0]) && n <= |ops|
    ensures Sound(vms[n]) && vms[n].kernel == vms[0].kernel
  {
    if n > 0 {
      RunKeepsSound(vms, ops, n - 1);
      assert Step(vms[n - 1], ops[n - 1], vms[n]);
      StepKeepsSound(vms[n - 1], ops[n - 1], vms[n]);
    }
  }

  // ---------------------------------------------------- the reference: partial maps

  type Mapping = Page -> Option<Pte>

  /** One partial map for the kernel half and one for the user half of every live root. */
  datatype Spaces = Spaces(kernel: Mapping, user: map<nat, Mapping>)

  function Look(a: Spaces, r: nat, pg: Page): Option<Pte>
    requires r in a.user
  {
    if pg.Kernel() then a.kernel(pg) else a.user[r](pg)
  }

  function With(m: Mapping, pg: Page, v: Option<Pte>): Mapping {
    x => if x == pg then v else m(x)
  }

  function Bind(a: Spaces, r: nat, pg: Page, v: Option<Pte>): Spaces
    requires r in a.user
  {
    if pg.Kernel() then a.(kernel := With(a.kernel, pg, v)) else a.(user := a.user[r := With(a.user[r], pg, v)])
  }

  const Nothing: Mapping := _ => None

  /** What each operation does to the partial maps; only unmapping asks the tables whether the page is small. */
  ghost function Next(a: Spaces, op: Op, small: bool): Spaces {
    match op
    case Map(r, pg, e, ok) => if ok && r in a.user then Bind(a, r, pg, Leaf(e)) else a
    case Unmap(r, pg, addr) => if small && r in a.user then Bind(a, r, pg, None) else a
    case Alloc(r, pg, flags, frame, ok) => if ok && r in a.user then Bind(a, r, pg, Leaf(Pte(frame, flags))) else a
    case Create(root) => if root != 0 then a.(user := a.user[root := Nothing]) else a
    case Destroy(r, freeRoot) => if freeRoot then a.(user := a.user - {r}) else a.(user := a.user[r := Nothing])
    case Skip => a
  }

  ghost predicate Abstracts(vm: Vm, a: Spaces) {
    && a.user.Keys == vm.roots
    && forall r, pg {:trigger Translate(vm.mem, r, pg)} :: r in vm.roots ==> Translate(vm.mem, r, pg) == Look(a, r, pg)
  }

  ghost predicate IsSmall(vm: Vm, op: Op) {
    op.Unmap? && SmallPage(vm, op.r, op.pg)
  }

  lemma BindLooks(a: Spaces, r: nat, pg: Page, v: Option<Pte>, s: nat, g: Page)
    requires r in a.user && s in a.user
    ensures Bind(a, r, pg, v).user.Keys == a.user.Keys
    ensures Look(Bind(a, r, pg, v), s, g) == if g == pg && (s == r || pg.Kernel()) then v else Look(a, s, g)
  {
  }

  lemma BindRefines(vm: Vm, w: Vm, a: Spaces, r: nat, pg: Page, v: Option<Pte>)
    requires Abstracts(vm, a) && r in vm.roots && w.roots == vm.roots && Updated(vm, w, r, pg, v)
    ensures Abstracts(w, Bind(a, r, pg, v))
  {
    hide Translate, Look, Bind;
    BindLooks(a, r, pg, v, r, pg);
    forall s, g | s in w.roots ensures Translate(w.mem, s, g) == Look(Bind(a, r, pg, v), s, g) {
      BindLooks(a, r, pg, v, s, g);
    }
  }

  lemma SameRefines(vm: Vm, w: Vm, a: Spaces)
    requires Abstracts(vm, a) && w.roots == vm.roots && SameTranslations(vm, w)
    ensures Abstracts(w, a)
  {
    hide Translate, Look;
  }

  lemma CreateRefines(vm: Vm, w: Vm, a: Spaces, f: nat)
    requires Tables(vm) && Abstracts(vm, a) && CreateResult(vm, w, f) && f != 0
    ensures Abstracts(w, a.(user := a.user[f := Nothing]))
  {
    hide Tables, Translate, Exclusive, Framed, Elsewhere;
    var b := a.(user := a.user[f := Nothing]);
    assert vm.kernel in vm.roots by { KernelIsLive(vm); }
    forall s, g | s in w.roots ensures Translate(w.mem, s, g) == Look(b, s, g) {
      if s != f {
        assert Translate(w.mem, s, g) == Translate(vm.mem, s, g);
      } else if g.Kernel() {
        assert Translate(vm.mem, vm.kernel, g) == Look(a, vm.kernel, g);
      }
    }
  }

  lemma KernelIsLive(vm: Vm)
    requires Tables(vm)
    ensures vm.kernel in vm.roots
  {
  }

  lemma DestroyRefines(vm: Vm, w: Vm, a: Spaces, r: nat, freeRoot: bool)
    requires Tables(vm) && Abstracts(vm, a) && r in vm.roots && r != vm.kernel && DestroyResult(vm, w, r, freeRoot)
    ensures Abstracts(w, Next(a, Destroy(r, freeRoot), false))
  {
    var b := Next(a, Destroy(r, freeRoot), false);
    KernelIsLive(vm);
    forall s, g | s in w.roots ensures Translate(w.mem, s, g) == Look(b, s, g) {
      if s != r {
        hide Tables, Exclusive, HeldBy, Elsewhere;
        assert Translate(w.mem, s, g) == Translate(vm.mem, s, g);
      } else if g.Kernel() {
        KernelHalfShared(w, r, g);
        assert Translate(w.mem, vm.kernel, g) == Translate(vm.mem, vm.kernel, g);
        assert Translate(vm.mem, vm.kernel, g) == Look(a, vm.kernel, g);
      }
    }
  }

  /** One step of the tables is one step of the partial maps. */
  lemma StepRefines(vm: Vm, op: Op, w: Vm, a: Spaces)
    requires Sound(vm) && Step(vm, op, w) && Abstracts(vm, a)
    ensures Abstracts(w, Next(a, op, IsSmall(vm, op)))
  {
    hide Tables, Exclusive, Translate, Private, HugeAt, Framed, OnlySpace, Adopted, HeldBy, Elsewhere, SmallPage, HasEntry, Adopting, NoneFree, Abstracts, Bind;
    assert a.user.Keys == vm.roots by { KeysAreRoots(vm, a); }
    match op
    case Map(r, pg, e, ok) =>
      if ok { BindRefines(vm, w, a, r, pg, Leaf(e)); } else { SameRefines(vm, w, a); }
    case Unmap(r, pg, addr) =>
      if SmallPage(vm, r, pg) { BindRefines(vm, w, a, r, pg, None); }
    case Alloc(r, pg, flags, frame, ok) =>
      if ok { BindRefines(vm, w, a, r, pg, Leaf(Pte(frame, flags))); } else { SameRefines(vm, w, a); }
    case Create(root) =>
      if root != 0 { CreateRefines(vm, w, a, root); }
    case Destroy(r, freeRoot) =>
      DestroyRefines(vm, w, a, r, freeRoot);
    case Skip =>
  }

  lemma KeysAreRoots(vm: Vm, a: Spaces)
    requires Abstracts(vm, a)
    ensures a.user.Keys == vm.roots
  {
  }

  /** The partial maps after the first `n` operations. */
  ghost function Reference(vms: seq<Vm>, ops: seq<Op>, a: Spaces, n: nat): Spaces
    requires |vms| == |ops| + 1 && n <= |ops|
  {
    if n == 0 then a else Next(Reference(vms, ops, a, n - 1), ops[n - 1], IsSmall(vms[n - 1], ops[n - 1]))
  }

  lemma {:induction false} RunRefines(vms: seq<Vm>, ops: seq<Op>, a: Spaces, n: nat)
    requires Run(vms, ops) && Sound(vms[0]) && Abstracts(vms[0], a) && n <= |ops|
    ensures Abstracts(vms[n], Reference(vms, ops, a, n))
  {
    hide Step, Sound, Abstracts, Next;
    if n > 0 {
      RunRefines(vms, ops, a, n - 1);
      RunKeepsSound(vms, ops, n - 1);
      assert Step(vms[n - 1], ops[n - 1], vms[n]);
      StepRefines(vms[n - 1], ops[n - 1], vms[n], Reference(vms, ops, a, n - 1));
    }
  }

  // ------------------------------------------------------------- conservation

  /** Work done inside one address space: allocations of absent user pages, any of which may fail. */
  ghost predicate Works(vm: Vm, op: Op, w: Vm, r: nat) {
    && op.Alloc? && op.r == r && Step(vm, op, w) && !op.pg.Kernel()
    && (op.ok ==> NewUserPage(vm, r, op.pg, op.flags))
  }

  lemma {:induction false} WorkStaysInside(vms: seq<Vm>, ops: seq<Op>, r: nat, n: nat)
    requires |vms| == |ops| + 1 && n <= |ops| && Sound(vms[0])
    requires forall i {:trigger ops[i]} :: 0 <= i < |ops| ==> Works(vms[i], ops[i], vms[i + 1], r)
    ensures Sound(vms[n]) && OnlySpace(vms[0], vms[n], r) && vms[n].roots == vms[0].roots
  {
    if n == 0 {
      OnlySpaceReflexive(vms[0], r);
    } else {
      WorkStaysInside(vms, ops, r, n - 1);
      var op := ops[n - 1];
      assert Works(vms[n - 1], op, vms[n], r);
      hide Tables, Exclusive, OnlySpace, NewUserPage, Updated;
      OnlySpaceTransitive(vms[0], vms[n - 1], vms[n], r);
    }
  }

  /**
    Create, any number of allocations (some failing part-way) and destroy: the allocator's
    used set is what it was, and so are all other address spaces.
   */
  lemma Conservation(before: Vm, vms: seq<Vm>, ops: seq<Op>, after: Vm, r: nat)
    requires Sound(before) && |vms| == |ops| + 1 && r != 0
    requires Step(before, Create(r), vms[0])
    requires forall i {:trigger ops[i]} :: 0 <= i < |ops| ==> Works(vms[i], ops[i], vms[i + 1], r)
    requires Step(vms[|ops|], Destroy(r, true), after)
    ensures after.used == before.used && after.roots == before.roots
    ensures forall s, pg {:trigger Translate(after.mem, s, pg)} :: s in before.roots ==>
              Translate(after.mem, s, pg) == Translate(before.mem, s, pg)
    ensures forall s: nat, f: nat {:trigger HeldBy(after, s, f)} :: s in before.roots ==>
              (HeldBy(after, s, f) <==> HeldBy(before, s, f))
  {
    StepKeepsSound(before, Create(r), vms[0]);
    WorkStaysInside(vms, ops, r, |ops|);
    hide Tables, Exclusive, OnlySpace, Works, CreateResult, DestroyResult, Sound;
    LifetimeConserves(before, vms[0], vms[|ops|], after, r);
  }

  /** Whatever a process does inside its own address space, creating and destroying it conserves all frames. */
  lemma LifetimeConserves(before: Vm, first: Vm, last: Vm, after: Vm, r: nat)
    requires Sound(before) && r != 0 && CreateResult(before, first, r)
    requires OnlySpace(first, last, r) && DestroyResult(last, after, r, true)
    ensures after.used == before.used && after.roots == before.roots
    ensures forall s, pg {:trigger Translate(after.mem, s, pg)} :: s in before.roots ==>
              Translate(after.mem, s, pg) == Translate(before.mem, s, pg)
    ensures forall s: nat, f: nat {:trigger HeldBy(after, s, f)} :: s in before.roots ==>
              (HeldBy(after, s, f) <==> HeldBy(before, s, f))
  {
    hide Tables, Exclusive, HeldBy, Translate, Elsewhere;
    FramedTransitive(before, first, last, r);
    FramedTransitive(before, last, after, r);
    forall g: nat ensures g in after.used <==> g in before.used {
      assert Elsewhere(last, r, g) <==> Elsewhere(first, r, g);
      assert Elsewhere(first, r, g) <==> g in before.used;
    }
    assert after.used == before.used;
  }
}
