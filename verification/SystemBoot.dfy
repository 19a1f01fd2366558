/** From the boot loader's hand-over to any number of processes: allocator, paging, kernel heap and user heaps joined. */
module SystemBoot {
  import opened Basics
  import opened PageTables
  import opened PagingSteps
  import opened PagingSpaces
  import opened PagingOps
  import opened PagingBoot
  import opened Paging
  import opened UHeapBytes
  import opened UHeapRuns
  import opened KHeapBlocks
  import UHeapNodes
  import KH = KernelHeap
  import KP = KHeapPages
  import PA = PageAllocator

  /** The kernel is linked at 0xFFFFFFFF80000000. */
  const IMAGE: Page := Page(511, 510, 0, 0)

  lemma ImageIs()
    ensures PageOf(0xFFFF_FFFF_8000_0000) == IMAGE && IMAGE.Kernel() && !KP.InZone(IMAGE)
  {
  }

  /** No page of the heap's zone is mapped yet. */
  ghost predicate ZoneEmpty(mem: Memory, kernel: nat) {
    forall pg {:trigger Translate(mem, kernel, pg)} :: KP.InZone(pg) ==> Translate(mem, kernel, pg) == None
  }

  /**
    What the boot loader hands over: a memory map, memory for every page it offers, page tables
    outside the offered pages, and nothing mapped in the heap's zone.
   */
  ghost predicate Handover(regions: seq<PA.Region>, mem: Memory, kernel: nat, boot: map<Place, nat>) {
    && Boot(Vm(mem, 0, {}, kernel, {kernel}, boot), KERNEL_SLOT) && ZoneEmpty(mem, kernel)
    && (forall top: nat {:trigger PA.IsHighest(regions, top)} :: PA.IsHighest(regions, top) ==> top / PA.PAGE_SIZE <= |mem|)
    && (forall p {:trigger boot[p]} :: p in boot ==> !PA.Offered(regions, boot[p]))
  }

  /** Pages that are not offered are in use, so the boot tables are safe from the allocator. */
  lemma HandoverIsBoot(regions: seq<PA.Region>, mem: Memory, kernel: nat, boot: map<Place, nat>, total: nat, used: set<nat>)
    requires Handover(regions, mem, kernel, boot) && total <= |mem|
    requires forall p: nat {:trigger p in used} :: p < total && !PA.Offered(regions, p) ==> p in used
    ensures Boot(Vm(mem, total, used, kernel, {kernel}, boot), KERNEL_SLOT)
  {
    hide PA.Offered, Cell, ZoneEmpty;
    var vm, w := Vm(mem, 0, {}, kernel, {kernel}, boot), Vm(mem, total, used, kernel, {kernel}, boot);
    forall p | p in w.frameOf ensures PlaceOk(w, p) {
      assert PlaceOk(vm, p);
      assert !PA.Offered(regions, boot[p]);
    }
    forall p, i: Index | p in w.frameOf && p.Depth() < 3 ensures LinkOk(w, p, i) {
      assert LinkOk(vm, p, i);
      assert Entry(w, p, i) == Entry(vm, p, i);
    }
    forall p, q | p in w.frameOf && q in w.frameOf && p != q ensures Apart(w, p, q) { assert Apart(vm, p, q); }
  }

  lemma NoHeapPages(mem: Memory, vm: Vm)
    requires ZoneEmpty(mem, vm.kernel)
    requires forall pg {:trigger Translate(vm.mem, vm.kernel, pg)} :: Translate(vm.mem, vm.kernel, pg) == Translate(mem, vm.kernel, pg)
    ensures KP.HeapPages(vm, 0)
  {
    hide Translate, KP.KPage;
    forall m: nat | m < KP.KPAGES ensures KP.KAbsent(vm, m) { KP.KPageIs(m); }
  }

  lemma EmptyShape()
    ensures KH.Shape(map[], 0, [], KP.HEAP_START) && KH.PagesBelow(KP.HEAP_START) == 0
  {
  }

  datatype System = Halt | Up(vmm: Vmm, kheap: KH.KHeap)

  /**
    Boot: page allocator, kernel half, kernel heap. A system that comes up has an empty valid
    kernel heap and translates every address as the boot loader's tables did.
   */
  method BootKernel(regions: seq<PA.Region>, mem: Memory, kernel: nat, ghost boot: map<Place, nat>, bytes: nat -> Byte)
    returns (s: System)
    requires Handover(regions, mem, kernel, boot)
    ensures s.Up? ==> fresh(s.vmm) && fresh(s.vmm.pmm) && fresh(s.vmm.pmm.bitmap) && fresh(s.kheap)
    ensures s.Up? ==> s.kheap.vmm == s.vmm && s.kheap.Valid() && s.kheap.blocks == [] && s.kheap.end == KP.HEAP_START
    ensures s.Up? ==> s.vmm.kernel == kernel && s.vmm.roots == {kernel} && |s.vmm.mem| == |mem|
    ensures s.Up? ==> forall pg {:trigger Translate(s.vmm.mem, kernel, pg)} ::
                        Translate(s.vmm.mem, kernel, pg) == Translate(mem, kernel, pg)
  {
    hide PA.Offered, PA.FreeAtBoot, PA.IsHighest, PA.BitmapIs, PA.Placed, Boot, Translate, Tables, Exclusive, Prefilled, NoneFree, KP.HeapPages, KH.Shape, ZoneEmpty;
    var b := PA.InitDynamic(regions);
    if b.Panic? { return Halt; }
    TakenAtBoot(regions, b.pmm.totalPages, b.at, b.pmm.used);
    HandoverIsBoot(regions, mem, kernel, boot, b.pmm.totalPages, b.pmm.used);
    var vmm := new Vmm(b.pmm, mem, kernel, boot);
    ghost var before := vmm.St();
    var ok := vmm.Init();
    if !ok { return Halt; }
    PrefilledKeeps(before, vmm.St());
    var kheap := new KH.KHeap(vmm, bytes);
    NoHeapPages(mem, vmm.St());
    EmptyShape();
    return Up(vmm, kheap);
  }

  lemma PrefilledKeeps(vm: Vm, w: Vm)
    requires Prefilled(vm, w)
    ensures w.roots == vm.roots && |w.mem| == |vm.mem|
  {
    hide Entry;
  }

  lemma TakenAtBoot(regions: seq<PA.Region>, pages: nat, at: nat, used: set<nat>)
    requires forall p {:trigger p in used} :: 0 <= p < pages ==> (p !in used <==> PA.FreeAtBoot(regions, pages, at, p))
    ensures forall p: nat {:trigger p in used} :: p < pages && !PA.Offered(regions, p) ==> p in used
  {
    hide PA.Offered;
  }

  // ----------------------------------------------------- any number of processes

  datatype Program = Program(calls: seq<Call>, data: Frames)

  function AllCalls(programs: seq<Program>): nat {
    if programs == [] then 0 else AllCalls(programs[..|programs| - 1]) + |programs[|programs| - 1].calls|
  }

  /** Two lives in a row leave behind what both took. */
  lemma LeftBehindTwice(a: Vm, b: Vm, c: Vm, s: set<nat>, t: set<nat>)
    requires LeftBehind(a, b, s) && LeftBehind(b, c, t)
    ensures LeftBehind(a, c, s + t)
  {
    hide Translate, HeldBy, KP.KernelHolds, KP.InZone;
    assert c.used == a.used + (s + t);
    forall r, pg | r in a.roots && !KP.InZone(pg) ensures Translate(c.mem, r, pg) == Translate(a.mem, r, pg) {
      assert Translate(b.mem, r, pg) == Translate(a.mem, r, pg);
    }
    forall r: nat, g: nat | r in a.roots && r != a.kernel ensures HeldBy(c, r, g) <==> HeldBy(a, r, g) {
      assert HeldBy(b, r, g) <==> HeldBy(a, r, g);
    }
    forall g: nat | g in s + t || KP.KernelHolds(a, g) ensures KP.KernelHolds(c, g) {
      if g !in t { assert KP.KernelHolds(b, g); }
    }
  }

  /**
    The whole machine: boot, then any processes one after another, each with any heap calls. In
    the end what is in use is what was in use after boot and the frames the kernel heap took and
    holds; no node is allocated; every address outside the heap's zone, the kernel image among
    them, translates as the boot loader's tables had it.
   */
  method BootAndRun(regions: seq<PA.Region>, mem: Memory, kernel: nat, ghost boot: map<Place, nat>, bytes: nat -> Byte,
                    programs: seq<Program>)
    returns (s: System, ghost up: Vm, ghost took: set<nat>)
    requires Handover(regions, mem, kernel, boot)
    requires forall i {:trigger programs[i]} :: 0 <= i < |programs| ==> FramesOk(programs[i].data, |mem|)
    requires KP.HEAP_START + 4096 * AllCalls(programs) + UHeapNodes.NODE + 8192 <= KH.TOP
    ensures s.Up? ==> s.kheap.vmm == s.vmm && s.kheap.Valid() && LeftBehind(up, s.vmm.St(), took)
    ensures s.Up? ==> up.roots == {kernel} && up.kernel == kernel && Used(s.kheap.blocks) == []
    ensures s.Up? ==> forall pg {:trigger Translate(s.vmm.mem, kernel, pg)} :: !KP.InZone(pg) ==>
                        Translate(s.vmm.mem, kernel, pg) == Translate(mem, kernel, pg)
  {
    hide Handover, LeftBehind, FramesOk, KP.HeapPages, KH.Shape, Sound, PA.BitmapIs, Tables, Translate, AllCalls, KP.InZone, Used;
    s := BootKernel(regions, mem, kernel, boot, bytes);
    took := {};
    if s.Halt? { up := Vm([], 0, {}, 0, {}, map[]); return; }
    up := s.vmm.St();
    NothingLeft(up);
    NoBlocks();
    NoCalls();
    for i := 0 to |programs|
      invariant s.Up? && s.kheap.vmm == s.vmm && s.kheap.Valid() && LeftBehind(up, s.vmm.St(), took) && |s.vmm.mem| == |mem|
      invariant fresh(s.vmm) && fresh(s.vmm.pmm) && fresh(s.vmm.pmm.bitmap) && fresh(s.kheap)
      invariant s.kheap.end <= KP.HEAP_START + 4096 * AllCalls(programs[..i])
      invariant multiset(Used(s.kheap.blocks)) == multiset{}
    {
      ghost var before, t := s.vmm.St(), took;
      CallsGrow(programs, i);
      ghost var more;
      var born, rets;
      born, rets, more := RunProcess(s.vmm, s.kheap, programs[i].data, programs[i].calls);
      SameMemory(before, s.vmm.St(), more);
      LeftBehindTwice(up, before, s.vmm.St(), t, more);
      took := t + more;
    }
    NoneUsed(s.kheap.blocks);
    KernelSees(up, s.vmm.St(), took);
  }

  lemma SameMemory(vm: Vm, w: Vm, took: set<nat>)
    requires LeftBehind(vm, w, took)
    ensures |w.mem| == |vm.mem|
  {
  }

  lemma KernelSees(vm: Vm, w: Vm, took: set<nat>)
    requires LeftBehind(vm, w, took) && vm.kernel in vm.roots
    ensures forall pg {:trigger Translate(w.mem, vm.kernel, pg)} :: !KP.InZone(pg) ==>
              Translate(w.mem, vm.kernel, pg) == Translate(vm.mem, vm.kernel, pg)
  {
    hide Translate, KP.InZone;
  }

  lemma NoBlocks()
    ensures Used([]) == []
  {
  }

  lemma NoneUsed(bs: seq<Block>)
    requires multiset(Used(bs)) == multiset{}
    ensures Used(bs) == []
  {
    hide Used;
    assert |multiset(Used(bs))| == |Used(bs)|;
  }

  lemma NoCalls()
    ensures AllCalls([]) == 0
  {
  }

  lemma CallsGrow(programs: seq<Program>, i: nat)
    requires i < |programs|
    ensures programs[..0] == []
    ensures AllCalls(programs[..i + 1]) == AllCalls(programs[..i]) + |programs[i].calls| <= AllCalls(programs)
  {
    assert programs[..i + 1][..i] == programs[..i];
    CallsBelow(programs, i + 1);
  }

  lemma {:induction false} CallsBelow(programs: seq<Program>, n: nat)
    requires n <= |programs|
    ensures AllCalls(programs[..n]) <= AllCalls(programs)
    decreases |programs| - n
  {
    if n < |programs| {
      assert programs[..n + 1][..n] == programs[..n];
      CallsBelow(programs, n + 1);
    } else {
      assert programs[..n] == programs;
    }
  }

  // ------------------------------------------------------- such a hand-over exists

  function OneEntry(i: Index, e: Pte): seq<Pte> { Blank()[i := e] }

  /** Four frames: the PML4, a table for its last slot, one for the image's gigabyte, all else blank. */
  function ImageMemory(frames: nat, k: nat, a: nat, b: nat, image: nat): Memory
    requires k < frames && a < frames && b < frames
  {
    seq<seq<Pte>>(frames, _ => Blank())
      [k := OneEntry(511, TableLink(a))][a := OneEntry(510, TableLink(b))][b := OneEntry(0, Pte(image, 0x83))]
  }

  lemma ImageCells(frames: nat, k: nat, a: nat, b: nat, image: nat, f: nat, i: Index)
    requires k < frames && a < frames && b < frames && k != a && k != b && a != b
    ensures Sized(ImageMemory(frames, k, a, b, image)) && |ImageMemory(frames, k, a, b, image)| == frames
    ensures Cell(ImageMemory(frames, k, a, b, image), f, i) ==
            if f == k && i == 511 then TableLink(a) else if f == a && i == 510 then TableLink(b)
            else if f == b && i == 0 then Pte(image, 0x83) else NoPte
  {
  }

  function ImagePlaces(k: nat, a: nat, b: nat): map<Place, nat> {
    map[Pml4(k) := k, Pdpt(k, 511) := a, Pd(k, 511, 510) := b]
  }

  /** A boot state with the kernel image mapped by a large page, no memory offered or any outside the tables. */
  lemma ImageHandover(regions: seq<PA.Region>, frames: nat, k: nat, a: nat, b: nat, image: nat)
    requires 0 < k < frames && a < frames && b < frames && k != a && k != b && a != b
    requires forall top: nat {:trigger PA.IsHighest(regions, top)} :: PA.IsHighest(regions, top) ==> top / PA.PAGE_SIZE <= frames
    requires !PA.Offered(regions, k) && !PA.Offered(regions, a) && !PA.Offered(regions, b)
    ensures Handover(regions, ImageMemory(frames, k, a, b, image), k, ImagePlaces(k, a, b))
    ensures Translate(ImageMemory(frames, k, a, b, image), k, IMAGE).Some?
  {
    hide PA.Offered, PA.IsHighest, ImageMemory, Boot, Translate, ZoneEmpty;
    ImageCells(frames, k, a, b, image, 0, 0);
    ImageIsMapped(frames, k, a, b, image);
    ImageZone(frames, k, a, b, image);
    ImageBoot(frames, k, a, b, image);
    forall p | p in ImagePlaces(k, a, b) ensures !PA.Offered(regions, ImagePlaces(k, a, b)[p]) { }
  }

  lemma ImageBoot(frames: nat, k: nat, a: nat, b: nat, image: nat)
    requires 0 < k < frames && a < frames && b < frames && k != a && k != b && a != b
    ensures Boot(Vm(ImageMemory(frames, k, a, b, image), 0, {}, k, {k}, ImagePlaces(k, a, b)), KERNEL_SLOT)
  {
    hide ImageMemory, Cell, Linked, Sized;
    var vm := Vm(ImageMemory(frames, k, a, b, image), 0, {}, k, {k}, ImagePlaces(k, a, b));
    ImageCells(frames, k, a, b, image, 0, 0);
    ImageLinks(frames, k, a, b, image);
    assert Places(vm) && Separate(vm);
    forall i: Index ensures !Cell(vm.mem, k, i).Huge() { ImageCells(frames, k, a, b, image, k, i); }
  }

  lemma ImageIsMapped(frames: nat, k: nat, a: nat, b: nat, image: nat)
    requires k < frames && a < frames && b < frames && k != a && k != b && a != b
    ensures Translate(ImageMemory(frames, k, a, b, image), k, IMAGE).Some?
  {
    hide ImageMemory, Cell;
    ImageCells(frames, k, a, b, image, k, 511);
    ImageCells(frames, k, a, b, image, a, 510);
    ImageCells(frames, k, a, b, image, b, 0);
    var mem := ImageMemory(frames, k, a, b, image);
    assert Walk(mem, b, 2, IMAGE).Some?;
    assert Walk(mem, a, 1, IMAGE) == Walk(mem, b, 2, IMAGE);
  }

  lemma ImageZone(frames: nat, k: nat, a: nat, b: nat, image: nat)
    requires k < frames && a < frames && b < frames && k != a && k != b && a != b
    ensures ZoneEmpty(ImageMemory(frames, k, a, b, image), k)
  {
    hide ImageMemory, Cell;
    forall pg | KP.InZone(pg) ensures Translate(ImageMemory(frames, k, a, b, image), k, pg) == None {
      ImageCells(frames, k, a, b, image, k, pg.i4);
    }
  }

  lemma ImageLinks(frames: nat, k: nat, a: nat, b: nat, image: nat)
    requires k < frames && a < frames && b < frames && k != a && k != b && a != b
    ensures Linked(Vm(ImageMemory(frames, k, a, b, image), 0, {}, k, {k}, ImagePlaces(k, a, b)))
  {
    hide ImageMemory, Cell;
    var vm := Vm(ImageMemory(frames, k, a, b, image), 0, {}, k, {k}, ImagePlaces(k, a, b));
    forall p, i: Index | p in vm.frameOf && p.Depth() < 3 ensures LinkOk(vm, p, i) {
      ImageCells(frames, k, a, b, image, vm.frameOf[p], i);
    }
  }
}
