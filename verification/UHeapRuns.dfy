/** Whole lives of a process: its address space, its heap, and their end. */
module UHeapRuns {
  import opened PageTables
  import opened PagingSpaces
  import opened PagingOps
  import opened Paging
  import opened UHeapLayout
  import opened UHeapPages
  import opened UHeapBytes
  import opened UserHeap
  import opened KHeapBlocks
  import UHeapNodes
  import KH = KernelHeap
  import KP = KHeapPages
  import PageAllocator

  datatype Call = Alloc(size: nat) | Free(uaddr: nat) | Realloc(uaddr: nat, size: nat)

  ghost predicate OffZoneSame(vm: Vm, w: Vm, r: nat) {
    forall s, pg {:trigger Translate(w.mem, s, pg)} :: s in vm.roots && s != r && !KP.InZone(pg) ==>
      Translate(w.mem, s, pg) == Translate(vm.mem, s, pg)
  }

  ghost predicate UsersHoldSame(vm: Vm, w: Vm, r: nat) {
    forall s: nat, g: nat {:trigger HeldBy(w, s, g)} :: s != r && s != vm.kernel ==> (HeldBy(w, s, g) <==> HeldBy(vm, s, g))
  }

  /** Outside `r` exactly the frames `took` came into use. */
  ghost predicate RestGained(vm: Vm, w: Vm, r: nat, took: set<nat>) {
    forall g: nat {:trigger Elsewhere(w, r, g)} :: Elsewhere(w, r, g) <==> Elsewhere(vm, r, g) || g in took
  }

  ghost predicate TookFresh(vm: Vm, r: nat, took: set<nat>) {
    forall g: nat {:trigger g in took} :: g in took ==> !Elsewhere(vm, r, g)
  }

  ghost predicate KernelHasAll(w: Vm, took: set<nat>) {
    forall g: nat {:trigger g in took} :: g in took ==> KP.KernelHolds(w, g)
  }

  /**
    From `vm` to `w` only the space `r` and the kernel heap changed: the kernel heap took the
    frames `took` and holds them; other user spaces hold what they held and translate as before,
    and so does the kernel outside its heap's zone.
   */
  ghost predicate Confined(vm: Vm, w: Vm, r: nat, took: set<nat>) {
    && w.kernel == vm.kernel && w.total == vm.total && |w.mem| == |vm.mem| && w.roots - {r} == vm.roots - {r}
    && OffZoneSame(vm, w, r) && UsersHoldSame(vm, w, r)
    && RestGained(vm, w, r, took) && TookFresh(vm, r, took) && KernelHasAll(w, took) && KP.KernelKeeps(vm, w)
  }

  lemma ConfinedNone(vm: Vm, r: nat)
    ensures Confined(vm, vm, r, {})
  {
  }

  /** The kernel heap grows while the process asks for a node. */
  lemma ConfinedGrows(vm: Vm, v: Vm, w: Vm, r: nat, took: set<nat>)
    requires Confined(vm, v, r, took) && KP.KernelGrew(v, w) && Sound(v) && r != v.kernel
    ensures Confined(vm, w, r, took + (w.used - v.used))
  {
    hide Sound, Translate, HeldBy, KP.KernelHolds, KP.InZone;
    forall s: nat, g: nat | s != r && s != vm.kernel ensures HeldBy(w, s, g) <==> HeldBy(vm, s, g) {
      assert HeldBy(v, s, g) <==> HeldBy(vm, s, g);
    }
    forall s, pg | s in vm.roots && s != r && !KP.InZone(pg) ensures Translate(w.mem, s, pg) == Translate(vm.mem, s, pg) {
      assert s in v.roots - {r};
      assert Translate(v.mem, s, pg) == Translate(vm.mem, s, pg);
    }
    forall g: nat
      ensures Elsewhere(w, r, g) <==> Elsewhere(vm, r, g) || g in took + (w.used - v.used)
      ensures g in w.used - v.used ==> !Elsewhere(vm, r, g)
    {
      GrewElsewhere(v, w, r, g);
      assert Elsewhere(v, r, g) <==> Elsewhere(vm, r, g) || g in took;
    }
    hide Elsewhere;
    forall g: nat | g in took + (w.used - v.used) ensures KP.KernelHolds(w, g) {
      assert g in took ==> KP.KernelHolds(v, g);
    }
    forall g: nat | KP.KernelHolds(vm, g) ensures KP.KernelHolds(w, g) { assert KP.KernelHolds(v, g); }
  }

  lemma GrewElsewhere(v: Vm, w: Vm, r: nat, g: nat)
    requires KP.KernelGrew(v, w) && Sound(v) && r != v.kernel
    ensures Elsewhere(w, r, g) <==> Elsewhere(v, r, g) || g in w.used - v.used
    ensures g in w.used - v.used ==> !Elsewhere(v, r, g)
  {
    hide Sound, Translate, HoldsTable, HoldsPage, KP.KernelHolds, KP.SameOffZone;
    assert HeldBy(w, r, g) <==> HeldBy(v, r, g);
    if g in w.used - v.used && HeldBy(v, r, g) { FreeIsNotHeld(v, r, g); }
  }

  lemma KernelStillHolds(v: Vm, w: Vm, r: nat, g: nat)
    requires Framed(v, w, r) && r != v.kernel && v.kernel in v.roots && KP.KernelHolds(v, g)
    ensures KP.KernelHolds(w, g)
  {
    hide Translate, HeldBy, KP.KPage;
    if !HeldBy(v, v.kernel, g) {
      var m: nat :| m < KP.KPAGES && KP.HeapPageIs(v, m, g);
      assert KP.HeapPageIs(w, m, g);
    }
  }

  /** The process works inside its own space. */
  lemma ConfinedWorks(vm: Vm, v: Vm, w: Vm, r: nat, took: set<nat>)
    requires Confined(vm, v, r, took) && OnlySpace(v, w, r) && r != v.kernel && v.kernel in v.roots
    ensures Confined(vm, w, r, took)
  {
    hide Translate, HeldBy, KP.KernelHolds, KP.InZone, Elsewhere;
    forall s: nat, g: nat | s != r && s != vm.kernel ensures HeldBy(w, s, g) <==> HeldBy(vm, s, g) {
      assert HeldBy(v, s, g) <==> HeldBy(vm, s, g);
    }
    forall s, pg | s in vm.roots && s != r && !KP.InZone(pg) ensures Translate(w.mem, s, pg) == Translate(vm.mem, s, pg) {
      assert s in v.roots - {r};
      assert Translate(v.mem, s, pg) == Translate(vm.mem, s, pg);
    }
    forall g: nat ensures Elsewhere(w, r, g) <==> Elsewhere(vm, r, g) || g in took {
      assert Elsewhere(v, r, g) <==> Elsewhere(vm, r, g) || g in took;
    }
    forall g: nat | g in took || KP.KernelHolds(vm, g) ensures KP.KernelHolds(w, g) {
      assert KP.KernelHolds(v, g);
      KernelStillHolds(v, w, r, g);
    }
  }

  lemma AllocStaysInside(vm: Vm, w: Vm, r: nat, h: Heap, g: Heap, size: nat, nodeOk: bool, addr: nat)
    requires AllocOutcome(vm, w, r, h, g, size, nodeOk, addr)
    ensures OnlySpace(vm, w, r)
  {
    hide OnlySpace, BytesKept, SameOutside, Sound, RangeFails;
  }

  lemma FreeStaysInside(vm: Vm, w: Vm, r: nat, h: Heap, g: Heap, uaddr: nat)
    requires Released(vm, w, r, h, g, uaddr)
    ensures OnlySpace(vm, w, r)
  {
    OnlySpaceReflexive(vm, r);
    hide OnlySpace, BytesKept, SameOutside, Sound;
  }

  lemma ReallocStaysInside(vm: Vm, w: Vm, r: nat, h: Heap, g: Heap, uaddr: nat, size: nat, nodeOk: bool, addr: nat)
    requires ReallocOutcome(vm, w, r, h, g, uaddr, size, nodeOk, addr)
    ensures OnlySpace(vm, w, r)
  {
    OnlySpaceReflexive(vm, r);
    hide OnlySpace, BytesKept, SameOutside, Sound, RangeFails;
  }

  /** One heap call; the kernel heap takes what `mid` has and the call's start has not. */
  method Perform(heap: UHeap, call: Call) returns (ret: nat, ghost mid: Vm)
    requires heap.Valid() && heap.Room() && heap.root != 0
    modifies heap, heap.kheap, heap.vmm, heap.vmm.pmm, heap.vmm.pmm.bitmap
    ensures heap.Valid() && heap.Others() == old(heap.Others()) && heap.kheap.end <= old(heap.kheap.end) + 4096
    ensures KP.KernelGrew(old(heap.St()), mid) && OnlySpace(mid, heap.St(), heap.root)
  {
    hide HeapOk, AllocOutcome, Released, ReallocOutcome, Tables, Sound, PageAllocator.BitmapIs, FramesOk, KP.KernelGrew, KP.HeapPages, KH.Shape, Used, NodeRefused, UHeapNodes.Owns, UHeapNodes.Foreign, UHeapNodes.Named, OnlySpace, MustMove;
    ghost var vm, h := heap.St(), heap.HeapNow();
    ghost var nodeOk;
    KP.GrewNothing(vm);
    match call
    case Alloc(size) =>
      ret, mid, nodeOk := heap.Alloc(size);
      AllocStaysInside(mid, heap.St(), heap.root, h, heap.HeapNow(), size, nodeOk, ret);
    case Free(uaddr) =>
      mid, ret := vm, 0;
      var ok := heap.Free(uaddr);
      if uaddr == 0 { OnlySpaceReflexive(vm, heap.root); } else { FreeStaysInside(vm, heap.St(), heap.root, h, heap.HeapNow(), uaddr); }
    case Realloc(uaddr, size) =>
      ret, mid, nodeOk := heap.Realloc(uaddr, size);
      OnlySpaceReflexive(mid, heap.root);
      if uaddr == 0 {
        AllocStaysInside(mid, heap.St(), heap.root, h, heap.HeapNow(), size, nodeOk, ret);
      } else if size == 0 {
        FreeStaysInside(mid, heap.St(), heap.root, h, heap.HeapNow(), uaddr);
      } else if size <= MAX_ALLOC {
        ReallocStaysInside(mid, heap.St(), heap.root, h, heap.HeapNow(), uaddr, size, nodeOk, ret);
      }
  }

  /** A run of heap calls, whatever they ask for and whichever of them fail. */
  method RunCalls(heap: UHeap, calls: seq<Call>, ghost vm: Vm) returns (rets: seq<nat>, ghost took: set<nat>)
    requires heap.Valid() && heap.root != 0 && vm == heap.St()
    requires heap.kheap.end + 4096 * |calls| + UHeapNodes.NODE + 8192 <= KH.TOP
    modifies heap, heap.kheap, heap.vmm, heap.vmm.pmm, heap.vmm.pmm.bitmap
    ensures heap.Valid() && heap.Others() == old(heap.Others()) && |rets| == |calls|
    ensures heap.kheap.end <= old(heap.kheap.end) + 4096 * |calls|
    ensures Confined(vm, heap.St(), heap.root, took)
  {
    hide HeapOk, Tables, Sound, PageAllocator.BitmapIs, FramesOk, KP.KernelGrew, KP.HeapPages, KH.Shape, Used, UHeapNodes.Owns, UHeapNodes.Foreign, UHeapNodes.Named, OnlySpace, Confined;
    rets, took := [], {};
    ConfinedNone(vm, heap.root);
    for k := 0 to |calls|
      invariant heap.Valid() && heap.Others() == old(heap.Others()) && |rets| == k
      invariant heap.kheap.end <= old(heap.kheap.end) + 4096 * k
      invariant Confined(vm, heap.St(), heap.root, took)
    {
      ghost var v := heap.St();
      HeapIsSound(v, heap.root, heap.regions, heap.Brk());
      var ret, mid := Perform(heap, calls[k]);
      ConfinedGrows(vm, v, mid, heap.root, took);
      GrewKernel(v, mid);
      ConfinedWorks(vm, mid, heap.St(), heap.root, took + (mid.used - v.used));
      took := took + (mid.used - v.used);
      rets := rets + [ret];
    }
  }

  lemma GrewKernel(v: Vm, w: Vm)
    requires KP.KernelGrew(v, w)
    ensures w.kernel == v.kernel && w.kernel in w.roots
  {
  }

  /** What the run of a process leaves behind is what the kernel heap took. */
  ghost predicate LeftBehind(before: Vm, after: Vm, took: set<nat>) {
    && after.used == before.used + took && took !! before.used && KernelHasAll(after, took) && KP.KernelKeeps(before, after)
    && after.roots == before.roots && after.kernel == before.kernel && after.total == before.total && |after.mem| == |before.mem|
    && (forall s, pg {:trigger Translate(after.mem, s, pg)} :: s in before.roots && !KP.InZone(pg) ==>
          Translate(after.mem, s, pg) == Translate(before.mem, s, pg))
    && (forall s: nat, g: nat {:trigger HeldBy(after, s, g)} :: s in before.roots && s != before.kernel ==>
          (HeldBy(after, s, g) <==> HeldBy(before, s, g)))
  }

  lemma ProcessConserves(before: Vm, first: Vm, last: Vm, after: Vm, r: nat, took: set<nat>)
    requires Sound(before) && before.kernel in before.roots
    requires r != 0 && r != last.kernel && last.kernel in last.roots && CreateResult(before, first, r)
    requires Confined(first, last, r, took) && DestroyResult(last, after, r, true)
    ensures LeftBehind(before, after, took)
  {
    hide Tables, Exclusive, HeldBy, Translate, Elsewhere, KP.InZone, KP.KernelHolds;
    forall g: nat ensures g in after.used <==> g in before.used + took {
      assert Elsewhere(last, r, g) <==> Elsewhere(first, r, g) || g in took;
      assert Elsewhere(first, r, g) <==> g in before.used;
    }
    assert after.used == before.used + took;
    forall g | g in took ensures g !in before.used { assert !Elsewhere(first, r, g); }
    forall g: nat | g in took || KP.KernelHolds(before, g) ensures KP.KernelHolds(after, g) {
      if g !in took { KernelStillHolds(before, first, r, g); }
      assert KP.KernelHolds(last, g);
      KernelStillHolds(last, after, r, g);
    }
    forall s, pg | s in before.roots && !KP.InZone(pg) ensures Translate(after.mem, s, pg) == Translate(before.mem, s, pg) {
      assert s in first.roots - {r} && s in last.roots - {r};
      assert Translate(last.mem, s, pg) == Translate(first.mem, s, pg);
      assert Translate(first.mem, s, pg) == Translate(before.mem, s, pg);
    }
    forall s: nat, g: nat | s in before.roots && s != before.kernel ensures HeldBy(after, s, g) <==> HeldBy(before, s, g) {
      assert HeldBy(last, s, g) <==> HeldBy(first, s, g);
      assert HeldBy(first, s, g) <==> HeldBy(before, s, g);
    }
  }

  /** Kernel pages are as before when a space is created or torn down. */
  lemma CreateKeepsHeapPages(vm: Vm, w: Vm, r: nat, n: nat)
    requires Sound(vm) && CreateResult(vm, w, r) && KP.HeapPages(vm, n)
    ensures KP.HeapPages(w, n) && Sound(w) && |w.mem| == |vm.mem|
  {
    assert vm.kernel in vm.roots;
    hide Tables, Exclusive, Translate, KP.KPage, HeldBy, Elsewhere;
    forall m: nat | m < n ensures KP.KBacked(w, m) { assert KP.KBacked(vm, m); }
    forall m: nat | n <= m < KP.KPAGES ensures KP.KAbsent(w, m) { assert KP.KAbsent(vm, m); }
  }

  lemma DestroyKeepsHeapPages(vm: Vm, w: Vm, r: nat, n: nat)
    requires Sound(vm) && r != vm.kernel && DestroyResult(vm, w, r, true) && KP.HeapPages(vm, n)
    ensures KP.HeapPages(w, n) && Sound(w)
  {
    assert vm.kernel in vm.roots;
    hide Tables, Exclusive, Translate, KP.KPage, HeldBy, Elsewhere;
    forall m: nat | m < n ensures KP.KBacked(w, m) { assert KP.KBacked(vm, m); }
    forall m: nat | n <= m < KP.KPAGES ensures KP.KAbsent(w, m) { assert KP.KAbsent(vm, m); }
  }

  lemma NothingLeft(vm: Vm)
    requires Sound(vm)
    ensures LeftBehind(vm, vm, {})
  {
  }

  /**
    A process created, any run of allocations, frees and resizes (failing ones included), the
    reset of its heap and its teardown: what stays in use is what was in use and the frames the
    kernel heap took for region nodes, which the kernel holds; no node stays allocated. With
    `took` empty the used set is what it was.
   */
  method RunProcess(vmm: Vmm, kheap: KH.KHeap, data: Frames, calls: seq<Call>)
    returns (born: bool, rets: seq<nat>, ghost took: set<nat>)
    requires kheap.vmm == vmm && kheap.Valid() && FramesOk(data, |vmm.mem|)
    requires kheap.end + 4096 * |calls| + UHeapNodes.NODE + 8192 <= KH.TOP
    modifies vmm, vmm.pmm, vmm.pmm.bitmap, kheap
    ensures kheap.Valid() && LeftBehind(old(vmm.St()), vmm.St(), took) && kheap.end <= old(kheap.end) + 4096 * |calls|
    ensures multiset(Used(kheap.blocks)) == multiset(Used(old(kheap.blocks)))
    ensures !born ==> NoneFree(old(vmm.St())) && vmm.St() == old(vmm.St())
    ensures born ==> |rets| == |calls|
  {
    hide HeapOk, Tables, Exclusive, PageAllocator.BitmapIs, FramesOk, KP.HeapPages, KH.Shape, Used, UHeapNodes.Owns, UHeapNodes.Foreign, UHeapNodes.Named, CreateResult, DestroyResult, Confined, LeftBehind;
    ghost var before := vmm.St();
    rets, took := [], {};
    NothingLeft(before);
    var root := vmm.Create();
    ghost var first := vmm.St();
    CreateKeepsHeapPages(before, first, root, KH.PagesBelow(kheap.end));
    if root == 0 {
      CreateFailed(before, first);
      return false, rets, took;
    }
    NewSpaceHasEmptyHeap(before, first, root);
    var heap := new UHeap(vmm, kheap, root, data);
    NobodyElse(kheap.blocks);
    rets, took := RunCalls(heap, calls, first);
    EndProcess(heap, before, first, took);
    return true, rets, took;
  }

  lemma CreateFailed(vm: Vm, w: Vm)
    requires CreateResult(vm, w, 0)
    ensures w == vm && NoneFree(vm)
  {
  }

  /** The exit path: the nodes, then the address space. */
  method EndProcess(heap: UHeap, ghost before: Vm, ghost first: Vm, ghost took: set<nat>)
    requires heap.Valid() && heap.root != 0 && Sound(before) && CreateResult(before, first, heap.root)
    requires Confined(first, heap.St(), heap.root, took)
    modifies heap, heap.kheap`hdr, heap.kheap`blocks, heap.vmm, heap.vmm.pmm, heap.vmm.pmm.bitmap
    ensures heap.kheap.Valid() && LeftBehind(before, heap.St(), took)
    ensures multiset(Used(heap.kheap.blocks)) == old(heap.Others())
  {
    hide HeapOk, Tables, PageAllocator.BitmapIs, FramesOk, KP.HeapPages, KH.Shape, Used, UHeapNodes.Owns, UHeapNodes.Foreign, UHeapNodes.Named, CreateResult, DestroyResult, Confined, LeftBehind, Sound;
    ghost var last := heap.St();
    HeapIsSound(last, heap.root, heap.regions, heap.Brk());
    SoundHasKernel(last);
    heap.Reset();
    heap.vmm.Destroy(heap.root, true);
    DestroyKeepsHeapPages(last, heap.St(), heap.root, KH.PagesBelow(heap.kheap.end));
    SoundHasKernel(before);
    ProcessConserves(before, first, last, heap.St(), heap.root, took);
  }

  lemma SoundHasKernel(vm: Vm)
    requires Sound(vm)
    ensures Tables(vm) && vm.kernel in vm.roots
  {
  }
}
