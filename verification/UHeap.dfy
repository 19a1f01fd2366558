/** The per-task user heap: whole pages from a private window, with guard pages between regions. */
module UserHeap {
  import opened Basics
  import opened PageTables
  import opened PagingSteps
  import opened PagingSpaces
  import opened PagingOps
  import opened Paging
  import opened UHeapPages
  import opened UHeapLayout
  import opened UHeapBytes
  import opened UHeapNodes
  import opened KHeapBlocks
  import KHeapList
  import KH = KernelHeap
  import KP = KHeapPages
  import PageAllocator

  class UHeap {
    const vmm: Vmm
    const kheap: KH.KHeap
    /** The process's PML4; 0 for a task without an address space of its own. */
    const root: nat
    /** Next free page of the window; 0 before the first allocation. */
    var brk: nat
    var regions: seq<Region>
    /** The region nodes, in the regions' order, and the kernel heap blocks that hold them. */
    var nodes: seq<nat>
    ghost var mine: seq<Block>
    /** Contents of the physical frames. */
    var data: Frames

    constructor (vmm: Vmm, kheap: KH.KHeap, root: nat, data: Frames)
      ensures this.vmm == vmm && this.kheap == kheap && this.root == root && this.data == data
      ensures regions == [] && brk == 0 && nodes == [] && mine == [] && Brk() * 4096 == 0x1000_0000
    {
      this.vmm, this.kheap, this.root, this.data := vmm, kheap, root, data;
      regions, brk, nodes := [], 0, [];
      mine := [];
    }

    function Brk(): nat
      reads this
    {
      if brk != 0 then brk else UBASE
    }

    ghost function St(): Vm
      reads vmm, vmm.pmm
    {
      vmm.St()
    }

    /** The kernel heap is intact and holds exactly one node for every region. */
    ghost predicate NodesValid()
      reads this, kheap, vmm, vmm.pmm, vmm.pmm.bitmap
    {
      && kheap.vmm == vmm && kheap.Valid()
      && Owns(kheap.blocks, mine) && Named(nodes, mine) && |nodes| == |regions|
    }

    ghost predicate Valid()
      reads this, kheap, vmm, vmm.pmm, vmm.pmm.bitmap
    {
      && NodesValid() && vmm.Valid() && FramesOk(data, |vmm.mem|)
      && (if root == 0 then regions == [] else HeapOk(St(), root, regions, Brk()))
    }

    /** The kernel heap's used blocks that are not nodes of this heap. */
    ghost function Others(): multiset<Block>
      reads this, kheap
    {
      Foreign(kheap.blocks, mine)
    }

    /** The kernel heap's zone has room for one more node. */
    ghost predicate Room()
      reads kheap
    {
      kheap.end + NODE + 8192 <= KH.TOP
    }

    /** Unmaps `n` pages and gives their frames back. */
    method UnmapRange(first: nat, n: nat, ghost frames: seq<nat>)
      requires vmm.Valid() && Sound(St()) && root in vmm.roots && root != vmm.kernel && root != 0
      requires n <= |frames| && first + |frames| <= LIMIT
      requires RangeMaps(St(), root, first, frames)
      modifies vmm`mem, vmm.pmm, vmm.pmm.bitmap
      ensures vmm.Valid() && Unmapped(old(St()), St(), root, first, frames, n)
    {
      hide Tables, Exclusive, PageOf, Unmapped, UnmapResult, MapsTo, PageAllocator.BitmapIs, Sound, Translate;
      ghost var vm := St();
      UnmappedNone(vm, root, first, frames);
      var i := 0;
      while i < n
        invariant 0 <= i <= n && vmm.Valid() && Unmapped(vm, St(), root, first, frames, i)
      {
        RangeMapsAt(vm, root, first, frames, i);
        UnmapOne(first, i, vm, frames);
        i := i + 1;
      }
    }

    /** One page of the range. */
    method UnmapOne(first: nat, i: nat, ghost vm: Vm, ghost frames: seq<nat>)
      requires vmm.Valid() && root in vm.roots && root != vm.kernel && root != 0 && vm.kernel == vmm.kernel
      requires i < |frames| && first + |frames| <= LIMIT && MapsTo(vm, root, first, frames, i)
      requires Unmapped(vm, St(), root, first, frames, i)
      modifies vmm`mem, vmm.pmm, vmm.pmm.bitmap
      ensures vmm.Valid() && Unmapped(vm, St(), root, first, frames, i + 1)
    {
      hide Tables, Exclusive, PageOf, Unmapped, UnmapResult, MapsTo, PageAllocator.BitmapIs, Sound, Translate;
      ghost var v := St();
      assert UPage(first + i) == PageOf((first + i) * 4096);
      UnmappedFacts(vm, v, root, first, frames, i);
      var addr := vmm.UnmapFrom((first + i) * 4096, root);
      ghost var u := St();
      UnmappedStep(vm, v, u, Freed(u, frames[i]), root, first, frames, i, addr);
      UnmappedFacts(vm, Freed(u, frames[i]), root, first, frames, i + 1);
      if addr != PageAllocator.PHYS_NULL { vmm.Release(addr / 4096); }
      assert St() == Freed(u, frames[i]);
    }

    /** Takes back the pages mapped so far, after page `b + i` could not be mapped. */
    method Undo(ghost vm: Vm, ghost v: Vm, b: nat, i: nat, ghost pages: nat, ghost frames: seq<nat>, ghost f: nat)
      requires vmm.Valid() && Sound(vm) && Mapped(vm, St(), root, b, frames) && RangeMaps(St(), root, b, frames)
      requires i == |frames| && b + i <= LIMIT && root in vm.roots && root != vm.kernel && root != 0 && AbsentRange(vm, root, b, i)
      requires i < pages && Mapped(vm, v, root, b, frames) && AllocResult(v, St(), root, PageOf((b + i) * 4096), 7, f, false)
      modifies vmm`mem, vmm.pmm, vmm.pmm.bitmap
      ensures vmm.Valid() && RollbackResult(vm, St(), root) && |vmm.mem| == old(|vmm.mem|)
      ensures RangeFails(vm, St(), root, b, pages)
    {
      hide Tables, Exclusive, Mapped, Unmapped, PageAllocator.BitmapIs, Sound, RangeMaps, RollbackResult, AbsentRange, AllocResult, RangeFails;
      ghost var u := St();
      MappedFacts(vm, u, root, b, frames);
      UnmapRange(b, i, frames);
      UnmappedFacts(u, St(), root, b, frames, i);
      RangeReason(vm, v, u, St(), root, b, frames, pages, f);
      RollsBack(vm, u, St(), root, b, frames);
    }

    /** Maps `pages` zeroed pages at the break, or maps nothing. */
    method MapRange(b: nat, pages: nat) returns (ok: bool, ghost frames: seq<nat>)
      requires vmm.Valid() && FramesOk(data, |vmm.mem|) && root != 0 && HeapOk(St(), root, regions, Brk())
      requires b == Brk() && b + pages <= UEND
      modifies this`data, vmm, vmm.pmm, vmm.pmm.bitmap
      ensures vmm.Valid() && FramesOk(data, |vmm.mem|) && vmm.roots == old(vmm.roots)
      ensures OnlyFreeChanged(old(St()), old(data), data)
      ensures ok ==> |frames| == pages && Mapped(old(St()), St(), root, b, frames) && AllZero(data, frames)
      ensures !ok ==> RollbackResult(old(St()), St(), root) && RangeFails(old(St()), St(), root, b, pages)
    {
      hide HeapOk, Tables, Exclusive, Mapped, AllocResult, PageAllocator.BitmapIs, Sound, PageOf, UPage, OnlyFreeChanged, RollbackResult, Absent, AbsentRange, RangeMaps, AllZero, FramesOk, ZeroPage, RangeFails;
      ghost var vm, data0 := St(), data;
      MapStarts(vm, data, root, regions, b, pages);
      frames := [];
      var i := 0;
      while i < pages
        invariant 0 <= i <= pages && |frames| == i && vmm.Valid() && FramesOk(data, |vmm.mem|)
        invariant Mapped(vm, St(), root, b, frames) && OnlyFreeChanged(vm, data0, data) && AllZero(data, frames)
      {
        ghost var v := St();
        MappedFacts(vm, v, root, b, frames);
        RangeAbsent(vm, root, b, pages, i);
        var mapped, pa := vmm.AllocAndMap((b + i) * 4096, 7, root);
        if !mapped {
          FailFacts(vm, v, St(), root, b, frames, pa / 4096);
          Undo(vm, v, b, i, pages, frames, pa / 4096);
          return false, frames;
        }
        StepFacts(vm, v, St(), data0, data, root, b, frames, pa / 4096);
        data := data[pa / 4096 := ZeroPage()];
        frames := frames + [pa / 4096];
        i := i + 1;
      }
      MappedFacts(vm, St(), root, b, frames);
      return true, frames;
    }

    ghost function HeapNow(): Heap
      reads this
    {
      Heap(regions, Brk(), data)
    }

    /** Asks the kernel heap for a node. */
    method TakeNode() returns (node: nat, ghost blk: Block)
      requires Valid() && root != 0 && Room()
      modifies kheap, vmm, vmm.pmm, vmm.pmm.bitmap
      ensures kheap.Valid() && vmm.Valid() && FramesOk(data, |vmm.mem|) && HeapOk(St(), root, regions, Brk())
      ensures KP.KernelGrew(old(St()), St()) && kheap.end <= old(kheap.end) + 4096
      ensures node == 0 ==> Owns(kheap.blocks, mine) && Others() == old(Others())
      ensures node == 0 ==> NodeRefused(old(St()), St(), old(kheap.blocks), old(kheap.end))
      ensures node != 0 ==> blk.Payload() == node && 32 <= blk.size && Owns(kheap.blocks, [blk] + mine)
      ensures node != 0 ==> Foreign(kheap.blocks, [blk] + mine) == old(Others())
    {
      hide HeapOk, FramesOk, Tables, PageAllocator.BitmapIs, Sound, Owns, Foreign, KP.KernelGrew, KP.HeapPages, KH.KmallocResult, KH.Shape, Used, NodeRefused;
      ghost var vm, bs, end := St(), kheap.blocks, kheap.end;
      KH.ShapeTiles(kheap.hdr, kheap.head, kheap.blocks, kheap.end);
      node := kheap.Kmalloc(NODE);
      ShapePages(kheap.hdr, kheap.head, kheap.blocks, kheap.end);
      blk := NodeAnswer(vm, St(), bs, kheap.blocks, end, kheap.end, node, mine, regions, root, Brk());
    }

    /** Gives the node back to the kernel heap. */
    method DropNode(node: nat, ghost all: seq<Block>, ghost k: nat)
      requires kheap.Valid() && Owns(kheap.blocks, all) && k < |all| && all[k].Payload() == node
      modifies kheap`hdr, kheap`blocks
      ensures kheap.Valid() && Owns(kheap.blocks, Drop(all, k)) && Foreign(kheap.blocks, Drop(all, k)) == old(Foreign(kheap.blocks, all))
    {
      hide Sound, Owns, Foreign, KP.HeapPages, KH.Shape, Used, Drop, PageAllocator.BitmapIs, Tables, KH.FreedAt;
      ghost var i := NodeIndex(kheap.blocks, all, k);
      KH.ShapeTiles(kheap.hdr, kheap.head, kheap.blocks, kheap.end);
      NodeFreed(kheap.blocks, kheap.end, i, all, k);
      kheap.Kfree(node, i);
    }

    /**
      A new region of `size` bytes. `mid` is the state after the kernel heap was asked for a node;
      `nodeOk` says whether it had one.
     */
    method Alloc(size: nat) returns (addr: nat, ghost mid: Vm, ghost nodeOk: bool)
      requires Valid() && Room()
      modifies this, kheap, vmm, vmm.pmm, vmm.pmm.bitmap
      ensures Valid() && Others() == old(Others()) && kheap.end <= old(kheap.end) + 4096
      ensures root == 0 ==> addr == 0 && HeapNow() == old(HeapNow()) && St() == old(St()) == mid
      ensures KP.KernelGrew(old(St()), mid)
      ensures root != 0 ==> AllocOutcome(mid, St(), root, old(HeapNow()), HeapNow(), size, nodeOk, addr)
      ensures !nodeOk ==> NodeRefused(old(St()), mid, old(kheap.blocks), old(kheap.end))
    {
      hide HeapOk, AllocOutcome, Tables, PageAllocator.BitmapIs, FramesOk, KP.KernelGrew, KP.HeapPages, KH.Shape, Used, NodeRefused, Owns, Foreign, Named, Sound;
      ghost var vm, h := St(), HeapNow();
      KP.GrewNothing(vm);
      mid, nodeOk := vm, true;
      if root == 0 { return 0, mid, nodeOk; }
      NothingAllocates(vm, root, h, size, true);
      if size == 0 || size > MAX_ALLOC { return 0, mid, nodeOk; }
      var b := Brk();
      var pages := (size + 4095) / 4096;
      if b + pages + 1 > UEND { return 0, mid, nodeOk; }
      var node, blk := TakeNode();
      mid := St();
      if node == 0 {
        nodeOk := false;
        HeapIsSound(mid, root, regions, b);
        NothingAllocates(mid, root, h, size, false);
        return 0, mid, nodeOk;
      }
      addr := MapRegion(size, node, blk);
    }

    /** With the node in hand: maps the pages and links the region, or gives the node back. */
    method MapRegion(size: nat, node: nat, ghost blk: Block) returns (addr: nat)
      requires kheap.vmm == vmm && kheap.Valid() && vmm.Valid() && FramesOk(data, |vmm.mem|) && root != 0
      requires HeapOk(St(), root, regions, Brk()) && Named(nodes, mine) && |nodes| == |regions|
      requires Owns(kheap.blocks, [blk] + mine) && blk.Payload() == node && NODE <= blk.size
      requires 0 < size <= MAX_ALLOC && Brk() + Pages(size) + 1 <= UEND
      modifies this, kheap`hdr, kheap`blocks, vmm, vmm.pmm, vmm.pmm.bitmap
      ensures Valid() && Others() == old(Foreign(kheap.blocks, [blk] + mine))
      ensures AllocOutcome(old(St()), St(), root, old(HeapNow()), HeapNow(), size, true, addr)
    {
      hide HeapOk, AllocOutcome, Tables, PageAllocator.BitmapIs, Mapped, RollbackResult, OnlyFreeChanged, AllZero, FramesOk, RangeFails, KP.HeapPages, KH.Shape, Used, Owns, Foreign, Sound, Drop, OnlySpace, Named;
      ghost var vm, h := St(), HeapNow();
      HeapIsSound(vm, root, h.regions, h.brk);
      var b := Brk();
      var pages := Pages(size);
      var ok, frames := MapRange(b, pages);
      if !ok {
        FailedAllocates(vm, St(), root, h, data, size);
        RollbackInside(vm, St(), root);
        SpaceKeepsHeapPages(vm, St(), root, KH.PagesBelow(kheap.end));
        DropNode(node, [blk] + mine, 0);
        DropFirst(blk, mine);
        return 0;
      }
      SucceededAllocates(vm, St(), root, h, data, size, frames);
      MapInside(vm, St(), root, b, frames);
      SpaceKeepsHeapPages(vm, St(), root, KH.PagesBelow(kheap.end));
      MoreNamed(nodes, mine, node, blk);
      regions := [Region(b, size, pages)] + regions;
      nodes := [node] + nodes;
      mine := [blk] + mine;
      brk := b + pages + 1;
      return b * 4096;
    }

    /** The index of the region that starts at `uaddr`, or the number of regions. */
    method FindRegion(uaddr: nat) returns (i: nat)
      ensures i <= |regions| && (i < |regions| ==> regions[i].Base() == uaddr)
      ensures forall j :: 0 <= j < i ==> regions[j].Base() != uaddr
    {
      i := 0;
      while i < |regions| && regions[i].Base() != uaddr
        invariant i <= |regions| && forall j :: 0 <= j < i ==> regions[j].Base() != uaddr
      {
        i := i + 1;
      }
    }

    /** Copies `n` bytes between user addresses, lowest first. */
    method Copy(dst: nat, src: nat, n: nat)
      requires Valid() && root != 0 && (src + n <= dst || dst + n <= src)
      requires ReadableRange(St(), root, dst, n) && ReadableRange(St(), root, src, n)
      modifies this`data
      ensures Valid() && Copied(St(), old(data), data, root, dst, src, n)
    {
      hide HeapOk, Tables, PageAllocator.BitmapIs, ReadableRange, ByteAt, FrameOf, Sound, Copied, FramesOk, Put8;
      ghost var vm, data0 := St(), data;
      HeapIsSound(vm, root, regions, Brk());
      assert Copied(vm, data0, data, root, dst, src, 0) by { CopiedNone(vm, data0, root, dst, src); }
      var k := 0;
      while k < n
        invariant 0 <= k <= n && FramesOk(data, |vmm.mem|) && Copied(vm, data0, data, root, dst, src, k)
      {
        CopyByte(vm, data0, data, root, dst, src, k, n);
        data := Put8(data, FrameOf(vmm.mem, root, dst + k), (dst + k) % 4096, ByteAt(vmm.mem, data, root, src + k));
        k := k + 1;
      }
    }

    /** Frees the region that starts at `uaddr` and its node; any other pointer is ignored. */
    method Free(uaddr: nat) returns (ok: bool)
      requires Valid()
      modifies this`regions, this`nodes, this`mine, kheap`hdr, kheap`blocks, vmm`mem, vmm.pmm, vmm.pmm.bitmap
      ensures Valid() && Others() == old(Others())
      ensures ok <==> uaddr != 0 && exists g :: g in old(regions) && g.Base() == uaddr
      ensures uaddr != 0 ==> Released(old(St()), St(), root, old(HeapNow()), HeapNow(), uaddr)
      ensures uaddr == 0 ==> HeapNow() == old(HeapNow()) && St() == old(St())
    {
      hide HeapOk, FreeOutcome, Tables, Exclusive, PageAllocator.BitmapIs, Unmapped, RangeMaps, FramesOf, Sound, FramesOk, KP.HeapPages, KH.Shape, Used, Owns, Foreign, Named, Drop;
      if uaddr == 0 { return false; }
      var i := FindRegion(uaddr);
      if i == |regions| { return false; }
      assert regions[i] in regions;
      RemoveRegion(i);
      return true;
    }

    /** Unmaps the region, unlinks it and frees its node. */
    method RemoveRegion(i: nat)
      requires Valid() && i < |regions|
      modifies this`regions, this`nodes, this`mine, kheap`hdr, kheap`blocks, vmm`mem, vmm.pmm, vmm.pmm.bitmap
      ensures Valid() && Others() == old(Others())
      ensures FreeOutcome(old(St()), St(), root, old(HeapNow()), HeapNow(), i)
    {
      hide HeapOk, FreeOutcome, Tables, Exclusive, PageAllocator.BitmapIs, Unmapped, RangeMaps, FramesOf, Sound, FramesOk, KP.HeapPages, KH.Shape, Used, Owns, Foreign, Drop;
      ghost var vm, h := St(), HeapNow();
      RegionIsMapped(vm, root, regions, Brk(), i);
      UnmapRange(regions[i].first, regions[i].pages, FramesOf(vm, root, regions[i]));
      UnmappedFacts(vm, St(), root, regions[i].first, FramesOf(vm, root, regions[i]), regions[i].pages);
      Frees(vm, St(), root, h, i);
      FreeDisturbsNoKernel(vm, St(), root, h, i, KH.PagesBelow(kheap.end));
      DropNamed(nodes, mine, i);
      assert mine[i].Payload() == nodes[i];
      DropNode(nodes[i], mine, i);
      DropSizes(nodes, i);
      regions := regions[..i] + regions[i + 1..];
      nodes := Drop(nodes, i);
      mine := Drop(mine, i);
    }

    /** Resizes: as an allocation for 0, as a free for size 0, in place while the pages suffice, else by moving. */
    method Realloc(uaddr: nat, newSize: nat) returns (addr: nat, ghost mid: Vm, ghost nodeOk: bool)
      requires Valid() && Room()
      modifies this, kheap, vmm, vmm.pmm, vmm.pmm.bitmap
      ensures Valid() && Others() == old(Others()) && kheap.end <= old(kheap.end) + 4096
      ensures KP.KernelGrew(old(St()), mid)
      ensures !nodeOk ==> NodeRefused(old(St()), mid, old(kheap.blocks), old(kheap.end))
      ensures uaddr == 0 && root != 0 ==> AllocOutcome(mid, St(), root, old(HeapNow()), HeapNow(), newSize, nodeOk, addr)
      ensures uaddr != 0 && newSize == 0 ==>
                addr == 0 && mid == old(St()) && Released(mid, St(), root, old(HeapNow()), HeapNow(), uaddr)
      ensures (uaddr == 0 && root == 0) || (uaddr != 0 && newSize > 0x400_0000) ==>
                addr == 0 && mid == St() == old(St()) && HeapNow() == old(HeapNow())
      ensures uaddr != 0 && 0 < newSize <= 0x400_0000 ==>
                ReallocOutcome(mid, St(), root, old(HeapNow()), HeapNow(), uaddr, newSize, nodeOk, addr)
      ensures uaddr != 0 && !MustMove(old(regions), uaddr, newSize) ==> mid == old(St())
    {
      hide HeapOk, AllocOutcome, FreeOutcome, Tables, PageAllocator.BitmapIs, FramesOk, Moved, Released, KP.KernelGrew, KP.HeapPages, KH.Shape, Used, NodeRefused, Owns, Foreign, Named, Sound;
      ghost var vm, h := St(), HeapNow();
      KP.GrewNothing(vm);
      mid, nodeOk := vm, true;
      if uaddr == 0 {
        addr, mid, nodeOk := Alloc(newSize);
        return;
      }
      if newSize == 0 {
        var _ := Free(uaddr);
        return 0, mid, nodeOk;
      }
      if newSize > MAX_ALLOC { return 0, mid, nodeOk; }
      var i := FindRegion(uaddr);
      if i == |regions| { return 0, mid, nodeOk; }
      assert regions[i] in regions;
      var n := regions[i];
      if newSize <= n.pages * 4096 {
        ResizeInPlace(i, newSize);
        return n.Base(), mid, nodeOk;
      }
      addr, mid, nodeOk := MoveRegion(i, newSize);
    }

    method ResizeInPlace(i: nat, newSize: nat)
      requires Valid() && i < |regions| && 0 < newSize <= regions[i].pages * 4096
      modifies this`regions
      ensures Valid() && Resized(St(), St(), old(HeapNow()), HeapNow(), i, newSize)
    {
      hide HeapOk, Tables, PageAllocator.BitmapIs, FramesOk, KP.HeapPages, KH.Shape, Used, Owns, Named, Sound;
      ResizeKeepsHeap(St(), root, regions, Brk(), i, newSize);
      regions := regions[i := regions[i].(size := newSize)];
    }

    /** Allocates, copies and frees the old region. */
    method MoveRegion(i: nat, newSize: nat) returns (addr: nat, ghost mid: Vm, ghost nodeOk: bool)
      requires Valid() && Room() && root != 0 && i < |regions| && regions[i].pages * 4096 < newSize <= MAX_ALLOC
      modifies this, kheap, vmm, vmm.pmm, vmm.pmm.bitmap
      ensures Valid() && Others() == old(Others()) && kheap.end <= old(kheap.end) + 4096
      ensures KP.KernelGrew(old(St()), mid)
      ensures !nodeOk ==> NodeRefused(old(St()), mid, old(kheap.blocks), old(kheap.end))
      ensures addr == 0 ==> AllocOutcome(mid, St(), root, old(HeapNow()), HeapNow(), newSize, nodeOk, 0)
      ensures addr != 0 ==> Moved(mid, St(), root, old(HeapNow()), HeapNow(), i, newSize, addr)
    {
      hide HeapOk, AllocOutcome, FreeOutcome, Tables, PageAllocator.BitmapIs, FramesOk, Moved, Sound, Copied, ReadableRange, Released, KP.KernelGrew, KP.HeapPages, KH.Shape, Used, NodeRefused, Owns, Foreign, Named;
      ghost var vm, h := St(), HeapNow();
      var n := regions[i];
      addr, mid, nodeOk := Alloc(newSize);
      if addr == 0 { return; }
      GrewKeepsHeap(vm, mid, root, h.regions, h.brk);
      ghost var v, g1 := St(), HeapNow();
      NodeWasOk(mid, v, root, h, g1, newSize, nodeOk, addr);
      MoveSetup(mid, v, root, h, g1, i, newSize, addr);
      Copy(addr, n.Base(), if n.size < newSize then n.size else newSize);
      ghost var g2 := HeapNow();
      var _ := Free(n.Base());
      MoveDone(mid, v, St(), root, h, g1, g2, HeapNow(), i, newSize, addr);
    }

    /** Forgets the regions and frees their nodes; the pages stay for the teardown of the address space. */
    method Reset()
      requires NodesValid()
      modifies this`regions, this`nodes, this`mine, this`brk, kheap`hdr, kheap`blocks
      ensures kheap.Valid() && regions == [] && nodes == [] && brk * 4096 == 0x1000_0000
      ensures multiset(Used(kheap.blocks)) == old(Others())
    {
      hide Tables, PageAllocator.BitmapIs, KP.HeapPages, KH.Shape, Used, Foreign, Sound, Owns, Drop;
      var i := 0;
      ghost var left := mine;
      while i < |nodes|
        invariant 0 <= i <= |nodes| == |mine| && left == mine[i..] && Named(nodes, mine)
        invariant kheap.Valid() && Owns(kheap.blocks, left) && Foreign(kheap.blocks, left) == old(Others())
      {
        assert mine[i].Payload() == nodes[i] && left[0] == mine[i];
        DropNode(nodes[i], left, 0);
        DropHead(left);
        left := left[1..];
        i := i + 1;
      }
      assert left == [];
      NobodyElse(kheap.blocks);
      regions, nodes, brk := [], [], UBASE;
      mine := [];
    }
  }

  /** The kernel heap had no block for a node and could not grow. */
  ghost predicate NodeRefused(vm: Vm, w: Vm, bs: seq<Block>, end: nat) {
    NoFit(bs, NODE) && KP.GrowthFails(vm, w, KH.PagesBelow(end), 1)
  }

  /** The region that starts at `uaddr` has too few pages for `size` bytes. */
  ghost predicate MustMove(regions: seq<Region>, uaddr: nat, size: nat) {
    exists g :: g in regions && g.Base() == uaddr && g.pages * 4096 < size
  }

  lemma NodeAnswer(vm: Vm, w: Vm, bs: seq<Block>, now: seq<Block>, end: nat, end': nat, node: nat, mine: seq<Block>,
                   regions: seq<Region>, r: nat, brk: nat) returns (blk: Block)
    requires KH.KmallocResult(vm, w, bs, now, end, end', NODE, node) && HeapOk(vm, r, regions, brk) && Owns(bs, mine)
    requires Tiling(bs, KP.HEAP_START, end) && KP.HeapPages(vm, KH.PagesBelow(end)) && KH.PagesBelow(end') <= KP.KPAGES
    ensures KP.KernelGrew(vm, w) && HeapOk(w, r, regions, brk) && |w.mem| == |vm.mem|
    ensures end' <= end + 4096
    ensures node == 0 ==> Owns(now, mine) && Foreign(now, mine) == Foreign(bs, mine) && NodeRefused(vm, w, bs, end)
    ensures node != 0 ==> blk.Payload() == node && NODE <= blk.size && Owns(now, [blk] + mine)
    ensures node != 0 ==> Foreign(now, [blk] + mine) == Foreign(bs, mine)
  {
    assert KH.Rounded(NODE) == NODE && KH.PagesFor(NODE) == 1;
    HeapIsSound(vm, r, regions, brk);
    hide HeapOk, Sound, Tiling, KP.HeapPages, KP.KernelGrew, Owns, Foreign, KP.GrowthFails, KH.ServedFrom, NoFit, KH.Restored, KH.Gained;
    KH.KmallocGrew(vm, w, bs, now, end, end', NODE, node);
    GrewKeepsHeap(vm, w, r, regions, brk);
    blk := Block(0, 0, true);
    if node != 0 { blk := NodeServed(bs, now, end, end', node, mine); }
  }

  /** Growth of the kernel heap leaves a user heap as it is. */
  lemma GrewKeepsHeap(vm: Vm, w: Vm, r: nat, regions: seq<Region>, brk: nat)
    requires HeapOk(vm, r, regions, brk) && KP.KernelGrew(vm, w)
    ensures HeapOk(w, r, regions, brk) && |w.mem| == |vm.mem|
  {
    hide Sound, Layout, Translate, UPage, Covered, OthersHoldSame, KP.TookForKernel, KP.KernelKeeps;
    forall m: nat | UBASE <= m < UEND
      ensures Covered(regions, m) ==> Backed(w, r, m)
      ensures !Covered(regions, m) ==> Absent(w, r, m)
    {
      UPageIs(m);
      assert Backed(vm, r, m) || Absent(vm, r, m);
      assert !KP.InZone(UPage(m));
      if Covered(regions, m) { assert Backed(vm, r, m); } else { assert Absent(vm, r, m); }
    }
  }

  /** So do its bytes. */
  lemma GrewKeepsBytes(vm: Vm, w: Vm, data: Frames, r: nat, regions: seq<Region>, brk: nat)
    requires HeapOk(vm, r, regions, brk) && KP.KernelGrew(vm, w)
    ensures BytesKept(vm, data, w, data, r, regions)
  {
    hide Sound, Layout, Translate, UPage, PageOf, OthersHoldSame, KP.TookForKernel, KP.KernelKeeps, Covered, ByteIn;
    forall c: nat | Covered(regions, c / 4096) ensures ByteAt(w.mem, data, r, c) == ByteAt(vm.mem, data, r, c) {
      CoveredInWindow(regions, brk, c / 4096);
      UPageIs(c / 4096);
      FrameOfIs(vm, r, c);
      FrameOfIs(w, r, c);
      assert !KP.InZone(UPage(c / 4096));
    }
  }

  lemma ShapePages(hdr: KHeapList.Headers, head: nat, bs: seq<Block>, end: nat)
    requires KH.Shape(hdr, head, bs, end)
    ensures KH.PagesBelow(end) <= KP.KPAGES
  {
  }

  lemma RangeMapsAt(vm: Vm, r: nat, b: nat, frames: seq<nat>, i: nat)
    requires RangeMaps(vm, r, b, frames) && i < |frames|
    ensures MapsTo(vm, r, b, frames, i)
  {
    hide MapsTo;
    var f := frames[i];
  }

  lemma MapInside(vm: Vm, w: Vm, r: nat, b: nat, frames: seq<nat>)
    requires Mapped(vm, w, r, b, frames)
    ensures OnlySpace(vm, w, r) && Sound(w)
  {
  }

  lemma RollbackInside(vm: Vm, w: Vm, r: nat)
    requires RollbackResult(vm, w, r)
    ensures OnlySpace(vm, w, r) && Sound(w)
  {
  }

  lemma FreeDisturbsNoKernel(vm: Vm, w: Vm, r: nat, h: Heap, i: nat, n: nat)
    requires i < |h.regions| && FreeOutcome(vm, w, r, h, h.(regions := Without(h.regions, i)), i)
    requires r != vm.kernel && Sound(vm) && KP.HeapPages(vm, n)
    ensures KP.HeapPages(w, n)
  {
    hide Sound, KP.HeapPages, OnlySpace, AbsentRange, BytesKept, SameOutside, FramesOf;
    SpaceKeepsHeapPages(vm, w, r, n);
  }

  lemma NodeWasOk(vm: Vm, w: Vm, r: nat, h: Heap, g: Heap, size: nat, nodeOk: bool, addr: nat)
    requires AllocOutcome(vm, w, r, h, g, size, nodeOk, addr) && addr != 0
    ensures nodeOk
  {
  }

  lemma MoreNamed(nodes: seq<nat>, mine: seq<Block>, node: nat, blk: Block)
    requires Named(nodes, mine) && blk.Payload() == node && NODE <= blk.size
    ensures Named([node] + nodes, [blk] + mine)
  {
  }

  lemma DropFirst(b: Block, s: seq<Block>)
    ensures Drop([b] + s, 0) == s
  {
  }

  lemma DropHead(s: seq<Block>)
    requires s != []
    ensures Drop(s, 0) == s[1..]
  {
  }

  lemma DropSizes(s: seq<nat>, k: nat)
    requires k < |s|
    ensures |Drop(s, k)| == |s| - 1
  {
  }

  lemma NobodyElse(bs: seq<Block>)
    ensures Foreign(bs, []) == multiset(Used(bs)) && Owns(bs, []) && Named([], [])
  {
  }

  /** What a resize of a live region promises; `None` of the cases applies to an unknown pointer. */
  ghost predicate ReallocOutcome(vm: Vm, w: Vm, r: nat, h: Heap, g: Heap, uaddr: nat, size: nat, nodeOk: bool, addr: nat) {
    || ((forall x :: x in h.regions ==> x.Base() != uaddr) && addr == 0 && w == vm && g == h)
    || exists i :: 0 <= i < |h.regions| && h.regions[i].Base() == uaddr && ResizeAt(vm, w, r, h, g, i, size, nodeOk, addr)
  }

  ghost predicate ResizeAt(vm: Vm, w: Vm, r: nat, h: Heap, g: Heap, i: nat, size: nat, nodeOk: bool, addr: nat)
    requires i < |h.regions|
  {
    if size <= h.regions[i].pages * 4096 then addr == h.regions[i].Base() && Resized(vm, w, h, g, i, size)
    else if addr == 0 then AllocOutcome(vm, w, r, h, g, size, nodeOk, 0)
    else Moved(vm, w, r, h, g, i, size, addr)
  }

  /** Byte `k` of the region is now byte `k` at `addr`; bytes past its size are zero. */
  ghost predicate MovedByte(vm: Vm, w: Vm, r: nat, data: Frames, now: Frames, from: Region, addr: nat, k: nat) {
    ByteAt(w.mem, now, r, addr + k) == if k < from.size then ByteAt(vm.mem, data, r, from.Base() + k) else 0
  }

  /**
    The region moved: its bytes are the first bytes of the new region, the rest of which is
    zero, and the other regions read as before.
   */
  ghost predicate Moved(vm: Vm, w: Vm, r: nat, h: Heap, g: Heap, i: nat, size: nat, addr: nat)
    requires i < |h.regions|
  {
    var old_ := h.regions[i];
    && addr == h.brk * 4096 && g.brk == h.brk + Pages(size) + 1
    && g.regions == [Region(h.brk, size, Pages(size))] + Without(h.regions, i)
    && OnlySpace(vm, w, r)
    && (forall k: nat {:trigger MovedByte(vm, w, r, h.data, g.data, old_, addr, k)} :: k < size ==>
          MovedByte(vm, w, r, h.data, g.data, old_, addr, k))
    && BytesKept(vm, h.data, w, g.data, r, Without(h.regions, i))
  }

  /** Grown in place: only the recorded size changes. */
  ghost predicate Resized(vm: Vm, w: Vm, h: Heap, g: Heap, i: nat, size: nat)
    requires i < |h.regions|
  {
    w == vm && size <= h.regions[i].pages * 4096 && g == h.(regions := h.regions[i := h.regions[i].(size := size)])
  }

  lemma ResizeKeepsHeap(vm: Vm, r: nat, regions: seq<Region>, brk: nat, i: nat, size: nat)
    requires HeapOk(vm, r, regions, brk) && i < |regions| && 0 < size <= regions[i].pages * 4096
    ensures HeapOk(vm, r, regions[i := regions[i].(size := size)], brk)
  {
    hide Sound, Backed, Absent;
    var now := regions[i := regions[i].(size := size)];
    forall j | 0 <= j < |now| ensures now[j].Ok(brk) && now[j].first == regions[j].first && now[j].pages == regions[j].pages {
      assert regions[j].Ok(brk);
    }
    forall j, k | 0 <= j < k < |now| ensures Above(now[j], now[k]) {
      assert Above(regions[j], regions[k]);
    }
    forall m: nat ensures Covered(now, m) <==> Covered(regions, m) {
      if Covered(now, m) {
        var g :| g in now && g.Covers(m);
        var j :| 0 <= j < |now| && now[j] == g;
        assert regions[j].Covers(m) && regions[j] in regions;
      }
      if Covered(regions, m) {
        var g :| g in regions && g.Covers(m);
        var j :| 0 <= j < |regions| && regions[j] == g;
        assert now[j].Covers(m) && now[j] in now;
      }
    }
    hide Covered;
  }

  ghost predicate ReadableRange(vm: Vm, r: nat, a: nat, n: nat) {
    forall c: nat {:trigger Readable(vm, r, c)} :: a <= c < a + n ==> Readable(vm, r, c)
  }

  lemma CopyByte(vm: Vm, data: Frames, now: Frames, r: nat, dst: nat, src: nat, k: nat, n: nat)
    requires Sound(vm) && r in vm.roots && r != vm.kernel && FramesOk(now, |vm.mem|)
    requires ReadableRange(vm, r, dst, n) && ReadableRange(vm, r, src, n) && k < n && (src + n <= dst || dst + n <= src)
    requires Copied(vm, data, now, r, dst, src, k)
    ensures var then_ := Put8(now, FrameOf(vm.mem, r, dst + k), (dst + k) % 4096, ByteAt(vm.mem, now, r, src + k));
            Copied(vm, data, then_, r, dst, src, k + 1) && FramesOk(then_, |vm.mem|)
  {
    hide Sound, Copied, ByteAt;
    assert Readable(vm, r, dst + k) && Readable(vm, r, src + k);
    CopiedStep(vm, data, now, r, dst, src, k);
  }

  lemma MoveSetup(vm: Vm, v: Vm, r: nat, h: Heap, g1: Heap, i: nat, size: nat, addr: nat)
    requires HeapOk(vm, r, h.regions, h.brk) && i < |h.regions| && h.regions[i].pages * 4096 < size
    requires AllocOutcome(vm, v, r, h, g1, size, true, addr) && addr != 0 && HeapOk(v, r, g1.regions, g1.brk)
    ensures h.regions[i].size < size && h.regions[i].Base() + h.regions[i].size <= addr && h.regions[i].Base() != 0
    ensures ReadableRange(v, r, addr, h.regions[i].size) && ReadableRange(v, r, h.regions[i].Base(), h.regions[i].size)
    ensures |g1.regions| == |h.regions| + 1 && g1.regions[i + 1] == h.regions[i] && h.regions[i] in g1.regions
  {
    var old_ := h.regions[i];
    OkAt(h.regions, h.brk, i);
    var new_ := g1.regions[0];
    assert g1.regions[i + 1] == old_;
    hide HeapOk, Sound, BytesKept, OnlySpace, RollbackResult, RangeFails, SameOutside;
    forall c: nat | addr <= c < addr + old_.size ensures Readable(v, r, c) {
      RegionReadable(v, r, g1.regions, g1.brk, new_, c);
    }
    forall c: nat | old_.Base() <= c < old_.Base() + old_.size ensures Readable(v, r, c) {
      RegionReadable(v, r, g1.regions, g1.brk, old_, c);
    }
  }

  lemma OnlyBase(regions: seq<Region>, brk: nat, i: nat, j: nat)
    requires Layout(regions, brk) && i < |regions| && j < |regions| && regions[i].first == regions[j].first
    ensures i == j
  {
    assert i == j || Above(regions[i], regions[j]) || Above(regions[j], regions[i]);
    assert regions[i].Ok(brk) && regions[j].Ok(brk);
  }

  lemma WithoutTail(g: Region, regions: seq<Region>, i: nat)
    requires i < |regions|
    ensures Without([g] + regions, i + 1) == [g] + Without(regions, i)
  {
  }

  lemma MoveDone(vm: Vm, v: Vm, w: Vm, r: nat, h: Heap, g1: Heap, g2: Heap, g3: Heap, i: nat, size: nat, addr: nat)
    requires HeapOk(vm, r, h.regions, h.brk) && i < |h.regions| && h.regions[i].pages * 4096 < size
    requires AllocOutcome(vm, v, r, h, g1, size, true, addr) && addr != 0 && HeapOk(v, r, g1.regions, g1.brk)
    requires g2 == g1.(data := g2.data) && Copied(v, g1.data, g2.data, r, addr, h.regions[i].Base(), h.regions[i].size)
    requires Released(v, w, r, g2, g3, h.regions[i].Base()) && h.regions[i] in g2.regions
    ensures Moved(vm, w, r, h, g3, i, size, addr)
  {
    var j :| 0 <= j < |g2.regions| && g2.regions[j].Base() == h.regions[i].Base() && FreeOutcome(v, w, r, g2, g3, j);
    hide Sound, RollbackResult, RangeFails, SameOutside, Copied, Without, OnlySpace, BytesKept, Window, AbsentRange, FramesOf;
    OnlyBase(g1.regions, g1.brk, i + 1, j);
    WithoutTail(g1.regions[0], h.regions, i);
    assert g1.regions == [g1.regions[0]] + h.regions;
    assert g3.regions == [g1.regions[0]] + Without(h.regions, i);
    OnlySpaceTransitive(vm, v, w, r);
    hide HeapOk, ByteAt;
    MovedBytes(vm, v, w, r, h, g1, g2, g3, i, size, addr);
    hide MovedByte;
  }

  lemma MovedBytes(vm: Vm, v: Vm, w: Vm, r: nat, h: Heap, g1: Heap, g2: Heap, g3: Heap, i: nat, size: nat, addr: nat)
    requires HeapOk(vm, r, h.regions, h.brk) && i < |h.regions| && h.regions[i].pages * 4096 < size
    requires AllocOutcome(vm, v, r, h, g1, size, true, addr) && addr != 0 && HeapOk(v, r, g1.regions, g1.brk)
    requires g2 == g1.(data := g2.data) && Copied(v, g1.data, g2.data, r, addr, h.regions[i].Base(), h.regions[i].size)
    requires BytesKept(v, g2.data, w, g3.data, r, g3.regions)
    requires |g1.regions| > 0 && g3.regions == [g1.regions[0]] + Without(h.regions, i)
    ensures forall k: nat {:trigger MovedByte(vm, w, r, h.data, g3.data, h.regions[i], addr, k)} :: k < size ==>
              MovedByte(vm, w, r, h.data, g3.data, h.regions[i], addr, k)
    ensures BytesKept(vm, h.data, w, g3.data, r, Without(h.regions, i))
  {
    hide HeapOk, Sound, OnlySpace, RollbackResult, RangeFails, SameOutside, Copied, ByteAt, Covered, Without, AllocOutcome, FreeOutcome, BytesKept;
    forall k: nat | k < size ensures MovedByte(vm, w, r, h.data, g3.data, h.regions[i], addr, k) {
      MovedNew(vm, v, w, r, h, g1, g2, g3, i, size, addr, k);
    }
    MovedRest(vm, v, w, r, h, g1, g2, g3, i, size, addr);
  }

  lemma MovedNew(vm: Vm, v: Vm, w: Vm, r: nat, h: Heap, g1: Heap, g2: Heap, g3: Heap, i: nat, size: nat, addr: nat, k: nat)
    requires HeapOk(vm, r, h.regions, h.brk) && i < |h.regions| && k < size
    requires AllocOutcome(vm, v, r, h, g1, size, true, addr) && addr != 0 && HeapOk(v, r, g1.regions, g1.brk)
    requires Copied(v, g1.data, g2.data, r, addr, h.regions[i].Base(), h.regions[i].size)
    requires BytesKept(v, g2.data, w, g3.data, r, g3.regions)
    requires |g1.regions| > 0 && |g3.regions| > 0 && g3.regions[0] == g1.regions[0]
    ensures MovedByte(vm, w, r, h.data, g3.data, h.regions[i], addr, k)
  {
    hide HeapOk, AllocOutcome, BytesKept, Copied;
    NewRegionByte(vm, v, r, h, g1, size, addr, k);
    if k < h.regions[i].size { OldRegionByte(vm, v, r, h, g1, i, size, addr, k); }
    MovedNewByte(vm, v, w, r, h.data, g1.data, g2.data, g3.data, h.regions[i], g1.regions[0], g3.regions, addr, k);
  }

  lemma MovedNewByte(vm: Vm, v: Vm, w: Vm, r: nat, d0: Frames, d1: Frames, d2: Frames, d3: Frames,
                     from: Region, to: Region, regions: seq<Region>, addr: nat, k: nat)
    requires Readable(v, r, addr + k) && to.Covers((addr + k) / 4096) && ByteAt(v.mem, d1, r, addr + k) == 0
    requires k < from.size ==> ByteAt(v.mem, d1, r, from.Base() + k) == ByteAt(vm.mem, d0, r, from.Base() + k)
    requires Copied(v, d1, d2, r, addr, from.Base(), from.size)
    requires BytesKept(v, d2, w, d3, r, regions) && |regions| > 0 && regions[0] == to
    ensures MovedByte(vm, w, r, d0, d3, from, addr, k)
  {
    hide ByteAt, Readable, Covered, BytesKept, Copied;
    CoveredByFirst(regions, to, (addr + k) / 4096);
    KeptAt(v, d2, w, d3, r, regions, addr + k);
    CopiedAt(v, d1, d2, r, addr, from.Base(), from.size, addr + k);
  }

  lemma NewRegionByte(vm: Vm, v: Vm, r: nat, h: Heap, g1: Heap, size: nat, addr: nat, k: nat)
    requires AllocOutcome(vm, v, r, h, g1, size, true, addr) && addr != 0 && HeapOk(v, r, g1.regions, g1.brk) && k < size
    ensures |g1.regions| > 0 && Readable(v, r, addr + k) && g1.regions[0].Covers((addr + k) / 4096)
    ensures ByteAt(v.mem, g1.data, r, addr + k) == 0
  {
    hide HeapOk, Sound, OnlySpace, RollbackResult, RangeFails, SameOutside, ByteAt, BytesKept, Readable;
    RegionReadable(v, r, g1.regions, g1.brk, g1.regions[0], addr + k);
  }

  lemma OldRegionByte(vm: Vm, v: Vm, r: nat, h: Heap, g1: Heap, i: nat, size: nat, addr: nat, k: nat)
    requires HeapOk(vm, r, h.regions, h.brk) && i < |h.regions| && k < h.regions[i].size
    requires AllocOutcome(vm, v, r, h, g1, size, true, addr)
    ensures ByteAt(v.mem, g1.data, r, h.regions[i].Base() + k) == ByteAt(vm.mem, h.data, r, h.regions[i].Base() + k)
  {
    OkAt(h.regions, h.brk, i);
    hide HeapOk, Sound, OnlySpace, RollbackResult, RangeFails, SameOutside, ByteAt, Readable, BytesKept;
    RegionReadable(vm, r, h.regions, h.brk, h.regions[i], h.regions[i].Base() + k);
    KeptAt(vm, h.data, v, g1.data, r, h.regions, h.regions[i].Base() + k);
  }

  lemma KeptAt(vm: Vm, data: Frames, w: Vm, now: Frames, r: nat, regions: seq<Region>, c: nat)
    requires BytesKept(vm, data, w, now, r, regions) && Covered(regions, c / 4096)
    ensures ByteAt(w.mem, now, r, c) == ByteAt(vm.mem, data, r, c)
  {
  }

  lemma CopiedAt(vm: Vm, data: Frames, now: Frames, r: nat, dst: nat, src: nat, n: nat, c: nat)
    requires Copied(vm, data, now, r, dst, src, n) && Readable(vm, r, c)
    ensures dst <= c < dst + n ==> ByteAt(vm.mem, now, r, c) == ByteAt(vm.mem, data, r, src + (c - dst))
    ensures !(dst <= c < dst + n) ==> ByteAt(vm.mem, now, r, c) == ByteAt(vm.mem, data, r, c)
  {
    hide ByteAt, Readable;
  }

  lemma CoveredByFirst(regions: seq<Region>, g: Region, m: nat)
    requires |regions| > 0 && regions[0] == g && g.Covers(m)
    ensures Covered(regions, m)
  {
    assert g in regions;
  }

  lemma MovedRest(vm: Vm, v: Vm, w: Vm, r: nat, h: Heap, g1: Heap, g2: Heap, g3: Heap, i: nat, size: nat, addr: nat)
    requires HeapOk(vm, r, h.regions, h.brk) && i < |h.regions|
    requires AllocOutcome(vm, v, r, h, g1, size, true, addr) && addr != 0 && HeapOk(v, r, g1.regions, g1.brk)
    requires Copied(v, g1.data, g2.data, r, addr, h.regions[i].Base(), h.regions[i].size)
    requires BytesKept(v, g2.data, w, g3.data, r, g3.regions)
    requires |g1.regions| > 0 && g3.regions == [g1.regions[0]] + Without(h.regions, i)
    ensures BytesKept(vm, h.data, w, g3.data, r, Without(h.regions, i))
  {
    hide Sound, OnlySpace, RollbackResult, RangeFails, SameOutside, ByteAt, Without, Window, Backed;
    forall c: nat | Covered(Without(h.regions, i), c / 4096) ensures ByteAt(w.mem, g3.data, r, c) == ByteAt(vm.mem, h.data, r, c) {
      CoveredLess(h.regions, h.brk, i, c / 4096);
      CoveredInWindow(h.regions, h.brk, c / 4096);
      CoveredMore(Without(h.regions, i), g1.regions[0], c / 4096);
      CoveredMore(h.regions, g1.regions[0], c / 4096);
      CoveredReadable(v, r, g1.regions, g1.brk, c);
      hide Covered, HeapOk;
      assert c < addr;
      assert ByteAt(w.mem, g3.data, r, c) == ByteAt(v.mem, g2.data, r, c);
      assert ByteAt(v.mem, g2.data, r, c) == ByteAt(v.mem, g1.data, r, c);
    }
  }

  lemma CoveredReadable(vm: Vm, r: nat, regions: seq<Region>, brk: nat, c: nat)
    requires HeapOk(vm, r, regions, brk) && Covered(regions, c / 4096)
    ensures Readable(vm, r, c)
  {
    CoveredInWindow(regions, brk, c / 4096);
    hide Sound;
    assert Backed(vm, r, c / 4096);
  }

  lemma CopiedNone(vm: Vm, data: Frames, r: nat, dst: nat, src: nat)
    ensures Copied(vm, data, data, r, dst, src, 0)
  {
  }

  /** Every byte of a live region is readable. */
  lemma RegionReadable(vm: Vm, r: nat, regions: seq<Region>, brk: nat, g: Region, a: nat)
    requires HeapOk(vm, r, regions, brk) && g in regions && g.Base() <= a < g.Base() + g.pages * 4096
    ensures Readable(vm, r, a) && g.Covers(a / 4096) && Covered(regions, a / 4096)
  {
    assert g.Covers(a / 4096);
    CoveredInWindow(regions, brk, a / 4096);
    hide Sound, Layout;
    assert Backed(vm, r, a / 4096);
  }

  lemma HeapIsSound(vm: Vm, r: nat, regions: seq<Region>, brk: nat)
    requires HeapOk(vm, r, regions, brk)
    ensures Sound(vm) && UBASE <= brk <= UEND && r in vm.roots && r != vm.kernel
  {
  }

  /** The fewest pages that hold `size` bytes. */
  function Pages(size: nat): (p: nat)
    ensures size <= p * 4096 < size + 4096
  {
    (size + 4095) / 4096
  }

  /** What a heap is to its owner: regions, break and contents. */
  datatype Heap = Heap(regions: seq<Region>, brk: nat, data: Frames)

  /**
    Failure changes no region, no translation, no byte and no page holding, and has one of the
    named reasons: a bad size, no room in the window, no node, or no frame. Success adds one zeroed
    region at the break, followed by a guard page, and keeps every byte of the other regions.
   */
  ghost predicate AllocOutcome(vm: Vm, w: Vm, r: nat, h: Heap, g: Heap, size: nat, nodeOk: bool, addr: nat) {
    && BytesKept(vm, h.data, w, g.data, r, h.regions)
    && (addr == 0 ==> g.regions == h.regions && g.brk == h.brk && RollbackResult(vm, w, r))
    && (addr == 0 ==> size == 0 || size > 0x400_0000 || (h.brk + Pages(size) + 1) * 4096 > 0x4000_0000 || !nodeOk
                      || RangeFails(vm, w, r, h.brk, Pages(size)))
    && (addr != 0 ==>
          && nodeOk && 0 < size <= 0x400_0000 && (h.brk + Pages(size) + 1) * 4096 <= 0x4000_0000
          && addr == h.brk * 4096 && g.brk == h.brk + Pages(size) + 1
          && g.regions == [Region(h.brk, size, Pages(size))] + h.regions
          && OnlySpace(vm, w, r) && SameSpaces(vm, w)
          && SameOutside(vm, w, r, h.brk, Pages(size))
          && forall c: nat {:trigger ByteAt(w.mem, g.data, r, c)} :: h.brk <= c / 4096 < h.brk + Pages(size) ==>
               ByteAt(w.mem, g.data, r, c) == 0)
  }

  lemma NothingAllocates(vm: Vm, r: nat, h: Heap, size: nat, nodeOk: bool)
    requires Sound(vm)
    ensures size == 0 || size > MAX_ALLOC || h.brk + Pages(size) + 1 > UEND || !nodeOk ==>
              AllocOutcome(vm, vm, r, h, h, size, nodeOk, 0)
  {
    OnlySpaceReflexive(vm, r);
  }

  lemma FailedAllocates(vm: Vm, w: Vm, r: nat, h: Heap, data: Frames, size: nat)
    requires HeapOk(vm, r, h.regions, h.brk) && FramesOk(h.data, |vm.mem|)
    requires RollbackResult(vm, w, r) && OnlyFreeChanged(vm, h.data, data) && RangeFails(vm, w, r, h.brk, Pages(size))
    ensures AllocOutcome(vm, w, r, h, h.(data := data), size, true, 0) && HeapOk(w, r, h.regions, h.brk)
  {
    hide Sound, OnlySpace, HoldsPage, Translate, UPage, Layout, Window, Covered;
    forall m: nat | Covered(h.regions, m) ensures Translate(w.mem, r, UPage(m)) == Translate(vm.mem, r, UPage(m)) {
    }
    KeptThroughFree(vm, h.data, w, data, r, h.regions, h.brk);
    SameKeepsHeap(vm, w, r, h.regions, h.brk);
    hide BytesKept, HeapOk;
  }

  lemma ZeroBytes(vm: Vm, w: Vm, r: nat, b: nat, frames: seq<nat>, data: Frames, c: nat)
    requires Mapped(vm, w, r, b, frames) && AllZero(data, frames) && b <= c / 4096 < b + |frames| && b + |frames| <= LIMIT
    ensures ByteAt(w.mem, data, r, c) == 0
  {
    var k := c / 4096 - b;
    FrameOfIs(w, r, c);
    hide Sound, OnlySpace, HoldsPage, Translate, UPage, PageOf;
    assert MapsFresh(vm, w, r, b, frames, k);
    assert FrameAt(w, r, c / 4096) == frames[k];
  }

  lemma SucceededAllocates(vm: Vm, w: Vm, r: nat, h: Heap, data: Frames, size: nat, frames: seq<nat>)
    requires HeapOk(vm, r, h.regions, h.brk) && FramesOk(h.data, |vm.mem|)
    requires 0 < size <= MAX_ALLOC && h.brk + Pages(size) + 1 <= UEND && |frames| == Pages(size)
    requires Mapped(vm, w, r, h.brk, frames) && AllZero(data, frames) && OnlyFreeChanged(vm, h.data, data)
    ensures var g := Heap([Region(h.brk, size, Pages(size))] + h.regions, h.brk + Pages(size) + 1, data);
            AllocOutcome(vm, w, r, h, g, size, true, h.brk * 4096) && HeapOk(w, r, g.regions, g.brk)
  {
    var g := Region(h.brk, size, Pages(size));
    GrowKeepsHeap(vm, w, r, h.regions, h.brk, g, frames);
    hide Sound, OnlySpace, HoldsPage, Translate, UPage, Window;
    forall m: nat | Covered(h.regions, m) ensures Translate(w.mem, r, UPage(m)) == Translate(vm.mem, r, UPage(m)) {
      CoveredInWindow(h.regions, h.brk, m);
      OutsideSame(vm, w, r, h.brk, |frames|, m);
    }
    KeptThroughFree(vm, h.data, w, data, r, h.regions, h.brk);
    hide Layout, Covered, BytesKept, HeapOk, ByteAt;
    forall c: nat | h.brk <= c / 4096 < h.brk + Pages(size) ensures ByteAt(w.mem, data, r, c) == 0 {
      ZeroBytes(vm, w, r, h.brk, frames, data, c);
    }
    hide SameOutside, MapsFresh, AllZero, OnlyFreeChanged;
  }

  /** The region is gone, its pages are unmapped, its frames free; all other regions read the same. */
  ghost predicate FreeOutcome(vm: Vm, w: Vm, r: nat, h: Heap, g: Heap, i: nat)
    requires i < |h.regions|
  {
    && g == h.(regions := Without(h.regions, i))
    && OnlySpace(vm, w, r) && SameSpaces(vm, w)
    && SameOutside(vm, w, r, h.regions[i].first, h.regions[i].pages)
    && AbsentRange(w, r, h.regions[i].first, h.regions[i].pages)
    && (forall k {:trigger FramesOf(vm, r, h.regions[i])[k]} :: 0 <= k < h.regions[i].pages ==>
          FramesOf(vm, r, h.regions[i])[k] !in w.used)
    && BytesKept(vm, h.data, w, g.data, r, g.regions)
  }

  /** The region that starts at `uaddr` is freed; without one nothing changes. */
  ghost predicate Released(vm: Vm, w: Vm, r: nat, h: Heap, g: Heap, uaddr: nat) {
    || ((forall x :: x in h.regions ==> x.Base() != uaddr) && w == vm && g == h)
    || exists i :: 0 <= i < |h.regions| && h.regions[i].Base() == uaddr && FreeOutcome(vm, w, r, h, g, i)
  }

  lemma RegionIsMapped(vm: Vm, r: nat, regions: seq<Region>, brk: nat, i: nat)
    requires HeapOk(vm, r, regions, brk) && i < |regions|
    ensures RangeMaps(vm, r, regions[i].first, FramesOf(vm, r, regions[i]))
    ensures regions[i].first + regions[i].pages <= UEND && |FramesOf(vm, r, regions[i])| == regions[i].pages
    ensures Sound(vm) && r in vm.roots && r != vm.kernel
  {
    hide Sound, Layout, Window, MapsTo;
    forall k | 0 <= k < regions[i].pages ensures MapsTo(vm, r, regions[i].first, FramesOf(vm, r, regions[i]), k) {
      RegionMaps(vm, r, regions, brk, i, k);
    }
    OkAt(regions, brk, i);
  }

  lemma OkAt(regions: seq<Region>, brk: nat, i: nat)
    requires Layout(regions, brk) && i < |regions|
    ensures regions[i].Ok(brk) && brk <= UEND
  {
  }

  lemma Frees(vm: Vm, w: Vm, r: nat, h: Heap, i: nat)
    requires HeapOk(vm, r, h.regions, h.brk) && FramesOk(h.data, |vm.mem|) && i < |h.regions|
    requires Unmapped(vm, w, r, h.regions[i].first, FramesOf(vm, r, h.regions[i]), h.regions[i].pages)
    ensures FreeOutcome(vm, w, r, h, h.(regions := Without(h.regions, i)), i)
    ensures HeapOk(w, r, Without(h.regions, i), h.brk)
  {
    var g, rest := h.regions[i], Without(h.regions, i);
    ShrinkKeepsHeap(vm, w, r, h.regions, h.brk, i);
    forall k | 0 <= k < g.pages ensures FramesOf(vm, r, g)[k] !in w.used {
      FreedFramesAreFree(vm, w, r, h.regions, h.brk, i, k);
    }
    FreeKeepsBytes(vm, w, r, h, i);
    hide Sound, OnlySpace, HoldsPage, Translate, UPage, Layout, Window, FramesOf, BytesKept;
  }

  lemma FreeKeepsBytes(vm: Vm, w: Vm, r: nat, h: Heap, i: nat)
    requires HeapOk(vm, r, h.regions, h.brk) && FramesOk(h.data, |vm.mem|) && i < |h.regions|
    requires SameOutside(vm, w, r, h.regions[i].first, h.regions[i].pages)
    ensures BytesKept(vm, h.data, w, h.data, r, Without(h.regions, i))
  {
    var rest := Without(h.regions, i);
    hide Sound, Translate, UPage, Window, Without, PageOf;
    forall c: nat | Covered(rest, c / 4096) ensures ByteAt(w.mem, h.data, r, c) == ByteAt(vm.mem, h.data, r, c) {
      CoveredLess(h.regions, h.brk, i, c / 4096);
      CoveredInWindow(h.regions, h.brk, c / 4096);
      OutsideSame(vm, w, r, h.regions[i].first, h.regions[i].pages, c / 4096);
      FrameOfIs(vm, r, c);
      FrameOfIs(w, r, c);
    }
  }

  function ZeroPage(): seq<Byte> { seq(4096, _ => 0) }

  ghost predicate AllZero(data: Frames, frames: seq<nat>) {
    forall k {:trigger frames[k]} :: 0 <= k < |frames| ==> frames[k] < |data| && data[frames[k]] == ZeroPage()
  }

  /** A failed allocation: every translation and every page is as before; only tables may have been added. */
  ghost predicate RollbackResult(vm: Vm, w: Vm, r: nat) {
    && Sound(w) && OnlySpace(vm, w, r) && SameSpaces(vm, w) && SameTranslations(vm, w)
    && (forall g: nat {:trigger HoldsPage(w, r, g)} :: HoldsPage(w, r, g) <==> HoldsPage(vm, r, g))
  }

  /** What a failed allocation leaves in use is tables of the process, never a data frame. */
  lemma RollbackAddsOnlyTables(vm: Vm, w: Vm, r: nat, f: nat)
    requires Sound(vm) && RollbackResult(vm, w, r) && f in w.used && f !in vm.used
    ensures HoldsTable(w, r, f)
  {
    hide Tables, Exclusive, SameTranslations, Framed;
    assert Elsewhere(w, r, f) <==> Elsewhere(vm, r, f);
    if HoldsPage(vm, r, f) { LeafInUse(vm, r, f); }
  }

  lemma MapStarts(vm: Vm, data: Frames, r: nat, regions: seq<Region>, b: nat, pages: nat)
    requires HeapOk(vm, r, regions, b) && b + pages <= UEND
    ensures Mapped(vm, vm, r, b, []) && AbsentRange(vm, r, b, pages) && r in vm.roots && r != vm.kernel
    ensures OnlyFreeChanged(vm, data, data) && Sound(vm) && AllZero(data, [])
  {
    MappedNone(vm, r, b);
    RangeIsAbsent(vm, r, regions, b, pages);
  }

  lemma MappedFacts(vm: Vm, v: Vm, r: nat, b: nat, frames: seq<nat>)
    requires Mapped(vm, v, r, b, frames)
    ensures Sound(v) && v.roots == vm.roots && v.kernel == vm.kernel && |v.mem| == |vm.mem|
  {
  }

  lemma RangeAbsent(vm: Vm, r: nat, b: nat, n: nat, i: nat)
    requires AbsentRange(vm, r, b, n) && i < n
    ensures Absent(vm, r, b + i) && AbsentRange(vm, r, b, i)
  {
  }

  lemma StepFacts(vm: Vm, v: Vm, w: Vm, data0: Frames, data: Frames, r: nat, b: nat, frames: seq<nat>, f: nat)
    requires Mapped(vm, v, r, b, frames) && b + |frames| < LIMIT && r in vm.roots && r != vm.kernel
    requires Absent(vm, r, b + |frames|) && AllocResult(v, w, r, PageOf((b + |frames|) * 4096), 7, f, true)
    requires OnlyFreeChanged(vm, data0, data) && AllZero(data, frames) && FramesOk(data, |vm.mem|)
    ensures f < |data| && Mapped(vm, w, r, b, frames + [f]) && |w.mem| == |vm.mem|
    ensures FramesOk(data[f := ZeroPage()], |vm.mem|)
    ensures OnlyFreeChanged(vm, data0, data[f := ZeroPage()]) && AllZero(data[f := ZeroPage()], frames + [f])
  {
    MappedStep(vm, v, w, r, b, frames, f);
    FreshFacts(vm, w, r, b, frames + [f], |frames|);
    TotalFits(w);
    hide Mapped, AllocResult, Absent, Sound, PageOf;
    var now := data[f := ZeroPage()];
    forall k | 0 <= k < |frames| + 1
      ensures (frames + [f])[k] < |now| && now[(frames + [f])[k]] == ZeroPage()
    {
      if k < |frames| { assert (frames + [f])[k] == frames[k]; }
    }
  }

  lemma FreshFacts(vm: Vm, w: Vm, r: nat, b: nat, frames: seq<nat>, k: nat)
    requires Mapped(vm, w, r, b, frames) && k < |frames|
    ensures Managed(vm, frames[k]) && frames[k] !in vm.used && Sound(w) && w.total == vm.total && |w.mem| == |vm.mem|
  {
    assert MapsFresh(vm, w, r, b, frames, k);
  }

  lemma FailFacts(vm: Vm, v: Vm, w: Vm, r: nat, b: nat, frames: seq<nat>, f: nat)
    requires Mapped(vm, v, r, b, frames) && b + |frames| < LIMIT && r in vm.roots
    requires AllocResult(v, w, r, PageOf((b + |frames|) * 4096), 7, f, false)
    ensures Mapped(vm, w, r, b, frames) && Sound(w) && w.roots == vm.roots && w.kernel == vm.kernel && |w.mem| == |vm.mem|
    ensures RangeMaps(w, r, b, frames)
  {
    UPageIs(b + |frames|);
    MappedFail(vm, v, w, r, b, frames, UPage(b + |frames|), f);
    hide AllocResult, Sound, OnlySpace;
    forall k | 0 <= k < |frames| ensures MapsTo(w, r, b, frames, k) { FreshIsMapped(vm, w, r, b, frames, k); }
  }

  lemma RollsBack(vm: Vm, u: Vm, w: Vm, r: nat, b: nat, frames: seq<nat>)
    requires Sound(vm) && Mapped(vm, u, r, b, frames) && Unmapped(u, w, r, b, frames, |frames|) && r in vm.roots
    requires AbsentRange(vm, r, b, |frames|)
    ensures RollbackResult(vm, w, r)
  {
    hide Mapped, Unmapped, Sound, AbsentRange;
    RolledBack(vm, u, w, r, b, frames);
  }

  lemma UnmappedFacts(vm: Vm, v: Vm, r: nat, b: nat, frames: seq<nat>, n: nat)
    requires n <= |frames| && Unmapped(vm, v, r, b, frames, n)
    ensures Tables(v) && Sound(v) && v.roots == vm.roots && v.kernel == vm.kernel && v.total == vm.total
    ensures |v.mem| == |vm.mem|
  {
  }
}
