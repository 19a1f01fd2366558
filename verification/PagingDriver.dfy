/** Any list of paging requests, executed by the manager over its live address spaces. */
module PagingDriver {
  import opened PageTables
  import opened PagingSteps
  import opened PagingSpaces
  import opened PagingOps
  import opened PagingRuns
  import opened Paging
  import PageAllocator

  type Flags = x: nat | x < 4096

  /** A request names an address space by its position among the live ones; 0 is the kernel's. */
  datatype Request =
    | MapPage(space: nat, va: nat, pa: nat, flags: Flags)
    | UnmapPage(space: nat, va: nat)
    | AllocPage(space: nat, va: nat, flags: Flags)
    | NewSpace
    | EndSpace(space: nat, freeRoot: bool)

  ghost predicate Distinct(s: seq<nat>) {
    forall i, j {:trigger s[i], s[j]} :: 0 <= i < j < |s| ==> s[i] != s[j]
  }

  /** The live roots, the kernel's first. */
  ghost predicate Live(vm: Vm, live: seq<nat>) {
    && live != [] && live[0] == vm.kernel && Distinct(live) && 0 !in live
    && (forall r :: r in live <==> r in vm.roots)
  }

  /** Every address space sees the kernel half as the kernel does. */
  ghost predicate KernelHalfIsShared(vm: Vm) {
    forall r, pg: Page {:trigger Translate(vm.mem, r, pg)} :: r in vm.roots && pg.Kernel() ==>
      && Cell(vm.mem, r, pg.i4) == Cell(vm.mem, vm.kernel, pg.i4)
      && Translate(vm.mem, r, pg) == Translate(vm.mem, vm.kernel, pg)
  }

  lemma SoundShares(vm: Vm)
    requires Sound(vm)
    ensures KernelHalfIsShared(vm)
  {
    forall r, pg: Page | r in vm.roots && pg.Kernel()
      ensures Cell(vm.mem, r, pg.i4) == Cell(vm.mem, vm.kernel, pg.i4)
      ensures Translate(vm.mem, r, pg) == Translate(vm.mem, vm.kernel, pg)
    {
      KernelHalfShared(vm, r, pg);
      assert RootOk(vm, r, pg.i4);
    }
  }

  lemma LiveMore(vm: Vm, w: Vm, live: seq<nat>, f: nat)
    requires Live(vm, live) && f != 0 && f !in vm.roots && w.roots == vm.roots + {f} && w.kernel == vm.kernel
    ensures Live(w, live + [f])
  {
  }

  lemma LiveLess(vm: Vm, w: Vm, live: seq<nat>, i: nat)
    requires Live(vm, live) && 0 < i < |live| && w.roots == vm.roots - {live[i]} && w.kernel == vm.kernel
    ensures Live(w, live[..i] + live[i + 1..])
  {
    var rest := live[..i] + live[i + 1..];
    forall j | 0 <= j < |rest| ensures rest[j] == live[if j < i then j else j + 1] {
    }
    forall r ensures r in rest <==> r in w.roots {
      if r in live && r != live[i] {
        var j :| 0 <= j < |live| && live[j] == r;
        assert rest[if j < i then j else j - 1] == r;
      }
    }
  }

  lemma LiveSame(vm: Vm, w: Vm, live: seq<nat>)
    requires Live(vm, live) && w.roots == vm.roots && w.kernel == vm.kernel
    ensures Live(w, live)
  {
  }

  lemma LiveIs(vm: Vm, live: seq<nat>, i: nat)
    requires Live(vm, live) && i < |live|
    ensures live[i] in vm.roots && live[i] != 0 && (live[i] == vm.kernel <==> i == 0)
  {
    assert live[i] in live;
  }

  /** A frame named by the caller goes into the kernel's tables, or is none the allocator manages. */
  predicate MayMap(kernel: nat, total: nat, r: nat, pg: Page, f: nat) {
    pg.Kernel() || r == kernel || f < LOW_FRAMES || f >= total
  }

  lemma SkipStep(vm: Vm)
    ensures Step(vm, Skip, vm)
  {
  }

  lemma MapStep(vm: Vm, w: Vm, r: nat, pg: Page, e: Pte, ok: bool)
    requires Sound(vm) && r in vm.roots && MapResult(vm, w, r, pg, e, ok) && MayMap(vm.kernel, vm.total, r, pg, e.frame)
    ensures Step(vm, Map(r, pg, e, ok), w) && Sound(w) && w.roots == vm.roots && w.kernel == vm.kernel
  {
    hide Tables, Exclusive, OnlySpace, Translate, NoneFree, HugeAt, Framed, Adopted, HeldBy, NoNewHuge, OthersHoldSame, HoldsPage, HoldsTable;
    assert Private(vm, e.frame) || pg.Kernel() || r == vm.kernel;
    hide Private;
  }

  lemma UnmapStep(vm: Vm, w: Vm, r: nat, pg: Page, addr: nat)
    requires Sound(vm) && r in vm.roots && UnmapResult(vm, w, r, pg, addr)
    ensures Step(vm, Unmap(r, pg, addr), w) && Sound(w) && w.roots == vm.roots && w.kernel == vm.kernel
  {
    hide Tables, Exclusive, Translate, SmallPage, HasEntry, Updated;
  }

  lemma AllocStep(vm: Vm, w: Vm, r: nat, pg: Page, flags: nat, f: nat, ok: bool)
    requires r in vm.roots && AllocResult(vm, w, r, pg, flags, f, ok)
    ensures Step(vm, Alloc(r, pg, flags, f, ok), w) && Sound(w) && w.roots == vm.roots && w.kernel == vm.kernel
  {
    hide Tables, Exclusive, Translate, OnlySpace, NoNewHuge, OthersHoldSame, Updated, PagesSame, PrivateKept;
  }

  lemma CreateStep(vm: Vm, w: Vm, f: nat)
    requires Sound(vm) && CreateResult(vm, w, f)
    ensures Step(vm, Create(f), w) && Sound(w) && w.kernel == vm.kernel
    ensures if f == 0 then w == vm else f !in vm.roots && w.roots == vm.roots + {f}
  {
    hide Tables, Exclusive, Translate, Framed, Elsewhere;
  }

  lemma DestroyStep(vm: Vm, w: Vm, r: nat, freeRoot: bool)
    requires r in vm.roots && r != vm.kernel && DestroyResult(vm, w, r, freeRoot)
    ensures Step(vm, Destroy(r, freeRoot), w) && Sound(w) && w.kernel == vm.kernel
    ensures w.roots == if freeRoot then vm.roots - {r} else vm.roots
  {
    FramedKernel(vm, w, r);
    hide Tables, Exclusive, Translate, Framed, Elsewhere, HeldBy;
  }

  /** `op` is what the request asks for; no call is made when it names no live space, or the kernel's to be ended. */
  ghost predicate Answers(vm: Vm, live: seq<nat>, q: Request, op: Op) {
    match q
    case MapPage(i, va, pa, flags) =>
      if i < |live| && MayMap(vm.kernel, vm.total, live[i], PageOf(va), pa / 4096)
      then op.Map? && op.r == live[i] && op.pg == PageOf(va) && op.e == Pte(pa / 4096, flags)
      else op.Skip?
    case UnmapPage(i, va) => if i < |live| then op.Unmap? && op.r == live[i] && op.pg == PageOf(va) else op.Skip?
    case AllocPage(i, va, flags) =>
      if i < |live| then op.Alloc? && op.r == live[i] && op.pg == PageOf(va) && op.flags == flags else op.Skip?
    case NewSpace => op.Create?
    case EndSpace(i, freeRoot) => if 0 < i < |live| then op == Destroy(live[i], freeRoot) else op.Skip?
  }

  /** One request. */
  method Serve(vmm: Vmm, live: seq<nat>, q: Request) returns (now: seq<nat>, ghost op: Op)
    requires vmm.Valid() && Sound(vmm.St()) && Live(vmm.St(), live)
    modifies vmm, vmm.pmm, vmm.pmm.bitmap
    ensures vmm.Valid() && Sound(vmm.St()) && Live(vmm.St(), now)
    ensures Step(old(vmm.St()), op, vmm.St()) && Answers(old(vmm.St()), live, q, op)
  {
    hide Tables, Exclusive, PageAllocator.BitmapIs, MapResult, UnmapResult, AllocResult, CreateResult, DestroyResult, Step, Sound, Live, PageOf, MayMap;
    ghost var vm := vmm.St();
    now, op := live, Skip;
    SkipStep(vm);
    LiveStart(vm, live);
    if !q.NewSpace? && q.space >= |live| { return; }
    if !q.NewSpace? { LiveIs(vm, live, q.space); }
    match q
    case MapPage(space, va, pa, flags) =>
      if MayMap(vmm.kernel, vmm.pmm.totalPages, live[space], PageOf(va), pa / 4096) {
        var ok := vmm.MapInto(va, pa, flags, live[space]);
        op := Map(live[space], PageOf(va), Pte(pa / 4096, flags), ok);
        MapStep(vm, vmm.St(), live[space], PageOf(va), Pte(pa / 4096, flags), ok);
        LiveSame(vm, vmm.St(), live);
      }
    case UnmapPage(space, va) =>
      var addr := vmm.UnmapFrom(va, live[space]);
      op := Unmap(live[space], PageOf(va), addr);
      UnmapStep(vm, vmm.St(), live[space], PageOf(va), addr);
      LiveSame(vm, vmm.St(), live);
    case AllocPage(space, va, flags) =>
      var ok, pa := vmm.AllocAndMap(va, flags, live[space]);
      op := Alloc(live[space], PageOf(va), flags, pa / 4096, ok);
      AllocStep(vm, vmm.St(), live[space], PageOf(va), flags, pa / 4096, ok);
      LiveSame(vm, vmm.St(), live);
    case NewSpace =>
      now, op := ServeCreate(vmm, live);
    case EndSpace(space, freeRoot) =>
      if space != 0 { now, op := ServeDestroy(vmm, live, space, freeRoot); }
  }

  lemma LiveStart(vm: Vm, live: seq<nat>)
    requires Live(vm, live)
    ensures live != []
  {
  }

  method ServeCreate(vmm: Vmm, live: seq<nat>) returns (now: seq<nat>, ghost op: Op)
    requires vmm.Valid() && Sound(vmm.St()) && Live(vmm.St(), live)
    modifies vmm, vmm.pmm, vmm.pmm.bitmap
    ensures vmm.Valid() && Sound(vmm.St()) && Live(vmm.St(), now)
    ensures op.Create? && Step(old(vmm.St()), op, vmm.St())
  {
    hide Tables, Exclusive, PageAllocator.BitmapIs, CreateResult, Step, Sound, Live;
    ghost var vm := vmm.St();
    var root := vmm.Create();
    op := Create(root);
    CreateStep(vm, vmm.St(), root);
    now := live;
    if root != 0 {
      LiveMore(vm, vmm.St(), live, root);
      now := live + [root];
    }
  }

  method ServeDestroy(vmm: Vmm, live: seq<nat>, i: nat, freeRoot: bool) returns (now: seq<nat>, ghost op: Op)
    requires vmm.Valid() && Sound(vmm.St()) && Live(vmm.St(), live) && 0 < i < |live|
    modifies vmm, vmm.pmm, vmm.pmm.bitmap
    ensures vmm.Valid() && Sound(vmm.St()) && Live(vmm.St(), now)
    ensures op == Destroy(live[i], freeRoot) && Step(old(vmm.St()), op, vmm.St())
  {
    hide Tables, Exclusive, PageAllocator.BitmapIs, DestroyResult, Step, Sound, Live;
    ghost var vm := vmm.St();
    LiveIs(vm, live, i);
    vmm.Destroy(live[i], freeRoot);
    op := Destroy(live[i], freeRoot);
    DestroyStep(vm, vmm.St(), live[i], freeRoot);
    now := live;
    if freeRoot {
      LiveLess(vm, vmm.St(), live, i);
      now := live[..i] + live[i + 1..];
    } else {
      LiveSame(vm, vmm.St(), live);
    }
  }

  lemma RunMore(vms: seq<Vm>, ops: seq<Op>, op: Op, w: Vm)
    requires Run(vms, ops) && Step(vms[|ops|], op, w)
    ensures Run(vms + [w], ops + [op])
  {
    hide Step;
    forall i | 0 <= i < |ops + [op]| ensures Step((vms + [w])[i], (ops + [op])[i], (vms + [w])[i + 1]) {
      if i < |ops| { assert ops[i] == (ops + [op])[i]; }
    }
  }

  /** The first `n` operations are the answers to the first `n` requests. */
  ghost predicate Answered(vms: seq<Vm>, lives: seq<seq<nat>>, requests: seq<Request>, ops: seq<Op>, n: nat) {
    && n <= |requests| && n <= |ops| && n < |lives| && n < |vms|
    && forall k {:trigger requests[k]} :: 0 <= k < n ==> Live(vms[k], lives[k]) && Answers(vms[k], lives[k], requests[k], ops[k])
  }

  lemma NothingAnswered(vms: seq<Vm>, lives: seq<seq<nat>>, requests: seq<Request>)
    requires vms != [] && lives != []
    ensures Answered(vms, lives, requests, [], 0)
  {
  }

  lemma AnsweredMore(vms: seq<Vm>, lives: seq<seq<nat>>, requests: seq<Request>, ops: seq<Op>, n: nat, w: Vm, now: seq<nat>, op: Op)
    requires Answered(vms, lives, requests, ops, n) && n < |requests| && |ops| == n && |vms| == |lives| == n + 1
    requires Live(vms[n], lives[n]) && Answers(vms[n], lives[n], requests[n], op)
    ensures Answered(vms + [w], lives + [now], requests, ops + [op], n + 1)
  {
    hide Live, Answers;
    var vs, ls, os := vms + [w], lives + [now], ops + [op];
    forall k | 0 <= k < n + 1 ensures Live(vs[k], ls[k]) && Answers(vs[k], ls[k], requests[k], os[k]) {
      var q := requests[k];
      if k < n { assert Answers(vms[k], lives[k], q, ops[k]); }
    }
  }

  /**
    Whatever is requested, in whatever order and with whatever outcomes: the tables stay sound,
    every live space sees the kernel half as the kernel does, and the tables are the
    partial maps that the finished operations build up.
   */
  method Execute(vmm: Vmm, spaces: seq<nat>, requests: seq<Request>)
    returns (live: seq<nat>, ghost vms: seq<Vm>, ghost lives: seq<seq<nat>>, ghost ops: seq<Op>)
    requires vmm.Valid() && Sound(vmm.St()) && Live(vmm.St(), spaces)
    modifies vmm, vmm.pmm, vmm.pmm.bitmap
    ensures vmm.Valid() && Sound(vmm.St()) && Live(vmm.St(), live) && KernelHalfIsShared(vmm.St())
    ensures Run(vms, ops) && vms[0] == old(vmm.St()) && vms[|ops|] == vmm.St() && |ops| == |requests|
    ensures Answered(vms, lives, requests, ops, |requests|) && lives[0] == spaces
    ensures forall a {:trigger Abstracts(vms[0], a)} :: Abstracts(vms[0], a) ==> Abstracts(vmm.St(), Reference(vms, ops, a, |ops|))
  {
    hide Tables, Exclusive, PageAllocator.BitmapIs, Step, Sound, Live, Abstracts, Reference, KernelHalfIsShared, Answered, Answers;
    live, vms, ops, lives := spaces, [vmm.St()], [], [spaces];
    NothingAnswered(vms, lives, requests);
    for k := 0 to |requests|
      invariant vmm.Valid() && Sound(vmm.St()) && Live(vmm.St(), live)
      invariant Run(vms, ops) && vms[0] == old(vmm.St()) && vms[|ops|] == vmm.St() && |ops| == k
      invariant |lives| == k + 1 && lives[k] == live && lives[0] == spaces && Answered(vms, lives, requests, ops, k)
    {
      var now, op := Serve(vmm, live, requests[k]);
      RunMore(vms, ops, op, vmm.St());
      AnsweredMore(vms, lives, requests, ops, k, vmm.St(), now, op);
      live := now;
      vms, ops, lives := vms + [vmm.St()], ops + [op], lives + [live];
    }
    SoundShares(vmm.St());
    forall a | Abstracts(vms[0], a) ensures Abstracts(vmm.St(), Reference(vms, ops, a, |ops|)) {
      RunRefines(vms, ops, a, |ops|);
    }
  }
}
