/** The kernel heap: first fit over a linked list of blocks, grown page by page, coalesced on free. */
module KernelHeap {
  import opened Basics
  import opened PageTables
  import opened PagingSteps
  import opened PagingSpaces
  import opened PagingOps
  import opened Paging
  import opened KHeapBlocks
  import opened KHeapList
  import KP = KHeapPages
  import PageAllocator

  /** The end of the heap's zone. */
  const TOP: nat := 0xFFFF_9080_0000_0000

  /** Requests are rounded up to 16 bytes. */
  function Rounded(size: nat): nat { (size + 15) / 16 * 16 }

  /** Pages that hold `n` bytes and a header. */
  function PagesFor(n: nat): nat { (n + HEADER + 4095) / 4096 }

  /** The free block made of the pages a request of `n` bytes adds. */
  function Fresh(end: nat, n: nat): Block { Block(end, PagesFor(n) * 4096 - HEADER, true) }

  lemma FreshFits(end: nat, n: nat)
    requires 0 < n && n % 16 == 0
    ensures PagesFor(n) * 4096 >= n + HEADER && Fresh(end, n).Fits(n)
    ensures Fresh(end, n).size % 16 == 0 && Fresh(end, n).End() == end + PagesFor(n) * 4096
    ensures PagesFor(n) * 4096 < n + HEADER + 4096
  {
    var p, t := PagesFor(n), n + HEADER + 4095;
    assert t == p * 4096 + t % 4096;
    MultipleOf16(p * 256 - 2);
    assert p * 4096 - HEADER == 16 * (p * 256 - 2);
  }

  lemma MultipleOf16(k: int)
    ensures 16 * k % 16 == 0
  {
  }

  /**
    A served request: the first block of the list that fits, or, when none does, the
    fresh block appended for it, is carved.
   */
  ghost predicate ServedFrom(bs: seq<Block>, now: seq<Block>, end: nat, end': nat, n: nat, r: nat) {
    exists i :: 0 <= i <= |bs| && ServedAt(bs, now, end, end', n, r, i)
  }

  ghost predicate ServedAt(bs: seq<Block>, now: seq<Block>, end: nat, end': nat, n: nat, r: nat, i: nat)
    requires i <= |bs|
  {
    if i < |bs| then FirstFit(bs, n, i) && now == Carved(bs, i, n) && end' == end && r == bs[i].Payload()
    else NoFit(bs, n) && Fresh(end, n).Fits(n) && now == Carved(bs + [Fresh(end, n)], i, n)
         && end' == end + PagesFor(n) * 4096 && r == end + HEADER
  }

  /** A failed expansion: the heap and every translation as before, only page tables may have been added. */
  ghost predicate Restored(vm: Vm, w: Vm) {
    && Sound(w) && SameSpaces(vm, w) && SameTranslations(vm, w) && vm.used <= w.used && NewAreTables(vm, w, vm.kernel)
    && OthersHoldSame(vm, w, vm.kernel) && TablesKept(vm, w)
  }

  /** Heap pages below `end`. */
  function PagesBelow(end: nat): nat { if end >= KP.HEAP_START then (end - KP.HEAP_START) / 4096 else 0 }

  /** The pages the heap gained between `end` and `end'`, on fresh frames; none if the end stayed. */
  ghost predicate Gained(vm: Vm, w: Vm, end: nat, end': nat) {
    if end' == end then w == vm
    else exists frames: seq<nat> :: PagesBelow(end) + |frames| == PagesBelow(end') && KP.Mapped(vm, w, PagesBelow(end), frames)
  }

  /**
    What a request gives: 0 for size 0 or when nothing fits and no page could be added, and then
    everything is as before; otherwise the payload of a block served first-fit.
   */
  ghost predicate KmallocResult(vm: Vm, w: Vm, bs: seq<Block>, now: seq<Block>, end: nat, end': nat, size: nat, r: nat) {
    && (size == 0 ==> r == 0 && w == vm)
    && (r == 0 ==> now == bs && end' == end && (w == vm || Restored(vm, w)))
    && (r == 0 && size > 0 ==> NoFit(bs, Rounded(size)) && KP.GrowthFails(vm, w, PagesBelow(end), PagesFor(Rounded(size))))
    && (r != 0 ==> ServedFrom(bs, now, end, end', Rounded(size), r) && Gained(vm, w, end, end'))
  }

  class KHeap {
    const vmm: Vmm
    var head: nat
    var end: nat
    var hdr: Headers
    ghost var blocks: seq<Block>
    /** Payload bytes written so far; other addresses hold what memory held at boot. */
    var bytes: map<nat, Byte>
    const boot: nat -> Byte

    constructor (vmm: Vmm, boot: nat -> Byte)
      ensures this.vmm == vmm && head == 0 && end == KP.HEAP_START && blocks == [] && hdr == map[]
    {
      this.vmm, this.boot, bytes := vmm, boot, map[];
      head, end, hdr := 0, KP.HEAP_START, map[];
      blocks := [];
    }

    ghost function St(): Vm
      reads vmm, vmm.pmm
    {
      vmm.St()
    }

    ghost predicate Valid()
      reads this, vmm, vmm.pmm, vmm.pmm.bitmap
    {
      && vmm.Valid() && Sound(St())
      && Shape(hdr, head, blocks, end)
      && KP.HeapPages(St(), PagesBelow(end))
    }

    /** The first free block of at least `n` bytes, or 0. */
    method FindFit(n: nat) returns (cur: nat, ghost i: nat)
      requires Shape(hdr, head, blocks, end)
      ensures cur == 0 ==> NoFit(blocks, n)
      ensures cur != 0 ==> FirstFit(blocks, n, i) && cur == blocks[i].addr
    {
      cur, i := head, 0;
      while cur != 0
        invariant i <= |blocks| && cur == (if i < |blocks| then blocks[i].addr else 0)
        invariant forall j :: 0 <= j < i ==> !blocks[j].Fits(n)
        decreases |blocks| - i
      {
        BlockAt(hdr, head, blocks, end, i);
        if hdr[cur].free && hdr[cur].size >= n { return; }
        cur, i := hdr[cur].next, i + 1;
        NextIsBlock(hdr, head, blocks, end, i);
      }
      NextIsBlock(hdr, head, blocks, end, i);
    }

    /** Marks the block used, cutting off what is left when it can hold a block of its own. */
    method Serve(cur: nat, n: nat, ghost i: nat) returns (r: nat)
      requires Shape(hdr, head, blocks, end) && FirstFit(blocks, n, i) && cur == blocks[i].addr && 0 < n && n % 16 == 0
      modifies this`hdr, this`blocks
      ensures Shape(hdr, head, blocks, end) && blocks == Carved(old(blocks), i, n) && r == old(blocks)[i].Payload()
    {
      BlockAt(hdr, head, blocks, end, i);
      ServeShape(hdr, head, blocks, end, i, n);
      hide Shape, Tiling, Represents, Served, ServeHeaders, Carved, NoFit;
      Cut(cur, n, blocks[i]);
      blocks := Carved(blocks, i, n);
      r := cur + HEADER;
    }

    method Cut(cur: nat, n: nat, ghost b: Block)
      requires cur in hdr && hdr[cur].size == b.size && hdr[cur].free == b.free && b.addr == cur && n <= b.size
      modifies this`hdr
      ensures hdr == ServeHeaders(old(hdr), b, n, old(hdr[cur].next))
    {
      var h := hdr[cur];
      if h.size > n + HEADER + 1 {
        hdr := hdr[cur + HEADER + n := Header(h.size - n - HEADER, true, h.next)];
        hdr := hdr[cur := Header(n, h.free, cur + HEADER + n)];
      }
      hdr := hdr[cur := hdr[cur].(free := false)];
    }

    method LastBlock() returns (cur: nat)
      requires Shape(hdr, head, blocks, end) && blocks != []
      ensures cur == blocks[|blocks| - 1].addr && cur in hdr
      ensures hdr[cur] == Header(blocks[|blocks| - 1].size, blocks[|blocks| - 1].free, 0)
    {
      cur := head;
      ghost var i := 0;
      BlockAt(hdr, head, blocks, end, 0);
      while hdr[cur].next != 0
        invariant i < |blocks| && cur == blocks[i].addr && cur in hdr
        invariant hdr[cur] == Header(blocks[i].size, blocks[i].free, NextAddr(blocks, i))
        decreases |blocks| - i
      {
        cur, i := hdr[cur].next, i + 1;
        BlockAt(hdr, head, blocks, end, i);
      }
      if i + 1 < |blocks| { NextIsBlock(hdr, head, blocks, end, i + 1); }
    }

    /** Links a new block behind the last one. */
    method AppendBlock(b: Block)
      requires Shape(hdr, head, blocks, end) && b.addr == end && 0 < b.size && b.size % 16 == 0 && (b.End() - KP.HEAP_START) % 4096 == 0
      requires b.End() <= TOP
      modifies this`hdr, this`head, this`blocks, this`end
      ensures blocks == old(blocks) + [b] && end == b.End() && Shape(hdr, head, blocks, end)
    {
      AppendShape(hdr, head, blocks, end, b);
      if head == 0 {
        hdr := hdr[b.addr := Header(b.size, b.free, 0)];
        head := b.addr;
      } else {
        var cur := LastBlock();
        hide Shape;
        hdr := hdr[b.addr := Header(b.size, b.free, 0)][cur := hdr[cur].(next := b.addr)];
      }
      blocks, end := blocks + [b], b.End();
    }

    /** Maps `pages` pages from heap page `b` on, or restores what was there. */
    method MapPages(b: nat, pages: nat) returns (ok: bool, ghost frames: seq<nat>)
      requires vmm.Valid() && Sound(St()) && KP.HeapPages(St(), b) && b + pages <= KP.KPAGES
      modifies vmm, vmm.pmm, vmm.pmm.bitmap
      ensures vmm.Valid() && Sound(St())
      ensures ok ==> |frames| == pages && KP.Mapped(old(St()), St(), b, frames)
      ensures !ok ==> Restored(old(St()), St()) && KP.GrowthFails(old(St()), St(), b, pages)
    {
      hide Tables, Exclusive, Sound, KP.Mapped, KP.Unmapped, KP.HeapPages, AllocResult, PageAllocator.BitmapIs, Restored, KP.GrowthFails, PageOf, KP.AbsentRange;
      ghost var vm := St();
      StartMapping(vm, b, pages);
      frames := [];
      var i := 0;
      while i < pages
        invariant 0 <= i <= pages && |frames| == i && vmm.Valid() && KP.Mapped(vm, St(), b, frames)
      {
        ghost var v := St();
        MappedFacts(vm, v, b, frames);
        var mapped, pa := vmm.AllocAndMap(KP.HEAP_START + (b + i) * 4096, 3, vmm.kernel);
        MapOutcome(vm, v, St(), b, frames, pa / 4096, mapped);
        if !mapped {
          ghost var u := St();
          RollBack(vm, b, i, pages, frames);
          assert KP.KPage(b + i) == PageOf(KP.HEAP_START + (b + i) * 4096);
          KP.GrowthReason(vm, v, u, St(), b, frames, pages, pa / 4096);
          return false, frames;
        }
        frames := frames + [pa / 4096];
        i := i + 1;
      }
      MappedFacts(vm, St(), b, frames);
      return true, frames;
    }

    /** Unmaps the pages mapped so far and gives their frames back. */
    method RollBack(ghost vm: Vm, b: nat, n: nat, ghost pages: nat, ghost frames: seq<nat>)
      requires vmm.Valid() && Sound(vm) && KP.Mapped(vm, St(), b, frames) && |frames| == n <= pages
      requires KP.AbsentRange(vm, b, pages) && b + pages <= KP.KPAGES
      modifies vmm`mem, vmm.pmm, vmm.pmm.bitmap
      ensures vmm.Valid() && Restored(vm, St()) && Sound(St()) && KP.Unmapped(old(St()), St(), b, frames, n)
    {
      ghost var v := St();
      StartUnmapping(vm, v, b, frames);
      hide Tables, Exclusive, Sound, KP.Mapped, KP.Unmapped, UnmapResult, PageAllocator.BitmapIs, Restored, KP.GrowthFails, PageOf, KP.AbsentRange, KP.Distinct;
      var j := 0;
      while j < n
        invariant 0 <= j <= n && vmm.Valid() && KP.Unmapped(v, St(), b, frames, j)
      {
        UnmapHeapPage(v, b, j, frames);
        j := j + 1;
      }
      EndUnmapping(vm, v, St(), b, pages, frames);
    }

    method UnmapHeapPage(ghost v: Vm, b: nat, j: nat, ghost frames: seq<nat>)
      requires vmm.Valid() && j < |frames| && KP.Unmapped(v, St(), b, frames, j) && KP.Distinct(frames) && b + |frames| <= KP.KPAGES
      modifies vmm`mem, vmm.pmm, vmm.pmm.bitmap
      ensures vmm.Valid() && KP.Unmapped(v, St(), b, frames, j + 1)
    {
      ghost var v1 := St();
      KernelIsRoot(v, v1, b, frames, j);
      hide Tables, Exclusive, Sound, KP.Unmapped, UnmapResult, PageAllocator.BitmapIs, PageOf, KP.Distinct, Freed, Managed;
      var addr := vmm.UnmapFrom(KP.HEAP_START + (b + j) * 4096, vmm.kernel);
      ghost var u := St();
      assert KP.KPage(b + j) == PageOf(KP.HEAP_START + (b + j) * 4096);
      KP.UnmappedStep(v, v1, u, b, frames, j, addr);
      if addr != PageAllocator.PHYS_NULL { FreeFrame(addr, frames[j]); }
      assert St() == Freed(u, frames[j]);
      UnmappedIsSound(v, St(), b, frames, j + 1);
    }

    method FreeFrame(addr: nat, ghost f: nat)
      requires vmm.pmm.Valid() && addr == f * 4096 && addr != 0
      modifies vmm.pmm, vmm.pmm.bitmap
      ensures vmm.pmm.Valid() && St() == Freed(old(St()), f)
    {
      hide PageAllocator.BitmapIs;
      vmm.pmm.FreePage(addr);
    }

    /** Adds a free block of whole pages that holds `n` bytes; on failure everything is as before. */
    method Expand(n: nat) returns (ok: bool)
      requires Valid() && 0 < n && n % 16 == 0 && end + PagesFor(n) * 4096 <= TOP
      modifies this, vmm, vmm.pmm, vmm.pmm.bitmap
      ensures Valid()
      ensures ok ==> blocks == old(blocks) + [Fresh(old(end), n)] && end == old(end) + PagesFor(n) * 4096
      ensures bytes == old(bytes)
      ensures !ok ==> blocks == old(blocks) && end == old(end) && hdr == old(hdr) && head == old(head) && Restored(old(St()), St())
      ensures !ok ==> KP.GrowthFails(old(St()), St(), PagesBelow(end), PagesFor(n))
      ensures ok ==> Gained(old(St()), St(), old(end), end)
    {
      hide Tables, Exclusive, Sound, KP.Mapped, KP.HeapPages, PageAllocator.BitmapIs, Restored, KP.GrowthFails, Tiling, Represents, PagesFor, Gained;
      ghost var vm := St();
      var total := n + HEADER;
      var pages := total / 4096;
      if total % 4096 != 0 { pages := pages + 1; }
      FreshFits(end, n);
      ghost var b := PagesBelow(end);
      PageCount(end, n, pages);
      ghost var frames;
      ok, frames := MapPages((end - KP.HEAP_START) / 4096, pages);
      if !ok {
        RestoredPages(vm, St(), b);
        return;
      }
      MorePages(vm, St(), b, frames);
      PagesGained(vm, St(), end, pages, frames);
      AppendBlock(Block(end, pages * 4096 - HEADER, true));
    }

    /** First fit; with no fit the heap grows once and the request is served from the new block. */
    method Kmalloc(size: nat) returns (r: nat)
      requires Valid() && (NoFit(blocks, Rounded(size)) ==> end + size + 8192 <= TOP)
      modifies this, vmm, vmm.pmm, vmm.pmm.bitmap
      ensures Valid() && bytes == old(bytes)
      ensures KmallocResult(old(St()), St(), old(blocks), blocks, old(end), end, size, r)
      decreases if NoFit(blocks, Rounded(size)) then 1 else 0, 1
    {
      hide Tables, Exclusive, Sound, KP.HeapPages, PageAllocator.BitmapIs, Restored, KP.GrowthFails, Shape, Rounded, ServedFrom, PagesFor, NoFit, SameSpaces, Gained;
      NothingGained(St(), end);
      if size == 0 { return 0; }
      var n := Rounded(size);
      RoundedIs(size);
      r := TryServe(n);
      if r != 0 { return; }
      r := GrowAndRetry(n);
    }

    /** Grows the heap for a request nothing fits, then asks again. */
    method GrowAndRetry(n: nat) returns (r: nat)
      requires Valid() && 0 < n && n % 16 == 0 && Rounded(n) == n && NoFit(blocks, n) && end + PagesFor(n) * 4096 <= TOP
      modifies this, vmm, vmm.pmm, vmm.pmm.bitmap
      ensures Valid() && bytes == old(bytes)
      ensures r == 0 ==> blocks == old(blocks) && end == old(end) && Restored(old(St()), St()) && KP.GrowthFails(old(St()), St(), PagesBelow(old(end)), PagesFor(n))
      ensures r != 0 ==> ServedFrom(old(blocks), blocks, old(end), end, n, r) && Gained(old(St()), St(), old(end), end)
      decreases 1, 0
    {
      ghost var bs, end0 := blocks, end;
      hide Tables, Exclusive, Sound, KP.HeapPages, PageAllocator.BitmapIs, Restored, KP.GrowthFails, Shape, Rounded, ServedFrom, PagesFor, Fresh, NoFit;
      var ok := Expand(n);
      if !ok { return 0; }
      ghost var bs1, end1 := blocks, end;
      FreshIsFirst(bs, end0, n);
      r := Kmalloc(n);
      ServedFresh(bs, bs1, blocks, end0, end1, end, n, r);
      StaysGained(bs1, blocks, end1, end, n, r);
    }

    /** Serves `n` bytes from the list as it is, or returns 0. */
    method TryServe(n: nat) returns (r: nat)
      requires Shape(hdr, head, blocks, end) && 0 < n && n % 16 == 0
      modifies this`hdr, this`blocks
      ensures Shape(hdr, head, blocks, end)
      ensures r == 0 ==> NoFit(blocks, n) && blocks == old(blocks) && hdr == old(hdr)
      ensures r != 0 ==> ServedFrom(old(blocks), blocks, end, end, n, r) && !NoFit(old(blocks), n)
    {
      var cur, i := FindFit(n);
      if cur == 0 { return 0; }
      ServedHere(blocks, end, n, i);
      r := Serve(cur, n, i);
    }

    /** Copies `n` bytes, lowest first; exact when the ranges do not overlap. */
    method Copy(dst: nat, src: nat, n: nat)
      modifies this`bytes
      ensures CopyKept(old(bytes), bytes, boot, dst, n)
      ensures src + n <= dst || dst + n <= src ==> CopyDone(old(bytes), bytes, boot, dst, src, n)
    {
      for k := 0 to n
        invariant CopyKept(old(bytes), bytes, boot, dst, k)
        invariant src + n <= dst || dst + n <= src ==> CopyDone(old(bytes), bytes, boot, dst, src, k)
      {
        if src + n <= dst || dst + n <= src { CopyStep(old(bytes), bytes, boot, dst, src, k); }
        KeptStep(old(bytes), bytes, boot, dst, k, ByteAt(bytes, boot, src + k));
        hide CopyDone, CopyKept;
        bytes := bytes[dst + k := ByteAt(bytes, boot, src + k)];
      }
    }

    /** Moves a block to a new size: the common prefix of the contents is kept. */
    method Krealloc(ptr: nat, oldSize: nat, newSize: nat, ghost i: nat) returns (r: nat)
      requires Valid() && (newSize > 0 && NoFit(blocks, Rounded(newSize)) ==> end + newSize + 8192 <= TOP)
      requires ptr != 0 ==> i < |blocks| && blocks[i].Payload() == ptr && !blocks[i].free
      modifies this, vmm, vmm.pmm, vmm.pmm.bitmap
      ensures Valid()
      ensures newSize == 0 ==> r == 0 && St() == old(St()) && blocks == if ptr != 0 then FreedAt(old(blocks), i) else old(blocks)
      ensures newSize > 0 && r == 0 ==> KmallocResult(old(St()), St(), old(blocks), blocks, old(end), end, newSize, 0)
      ensures newSize > 0 && r != 0 && ptr == 0 ==> ServedFrom(old(blocks), blocks, old(end), end, Rounded(newSize), r)
      ensures r != 0 ==> Gained(old(St()), St(), old(end), end)
      ensures newSize > 0 && r != 0 && ptr != 0 ==> MovedFrom(old(blocks), blocks, old(end), end, Rounded(newSize), i, r)
      ensures r == 0 || ptr == 0 ==> bytes == old(bytes)
      ensures r != 0 && ptr != 0 ==> OutsideKept(old(bytes), bytes, boot, r, oldSize, newSize)
      ensures r != 0 && ptr != 0 && oldSize <= old(blocks)[i].size ==>
                PrefixMoved(old(bytes), bytes, boot, r, ptr, oldSize, newSize)
    {
      hide Tables, Exclusive, Sound, KP.HeapPages, PageAllocator.BitmapIs, Restored, KP.GrowthFails, Shape, Rounded, ServedFrom, NoFit, MovedFrom, FreedAt, OutsideKept, PrefixMoved;
      if newSize == 0 {
        Kfree(ptr, i);
        return 0;
      }
      if ptr == 0 {
        r := Kmalloc(newSize);
        return;
      }
      r := MoveBlock(ptr, oldSize, newSize, i);
    }

    method MoveBlock(ptr: nat, oldSize: nat, newSize: nat, ghost i: nat) returns (r: nat)
      requires Valid() && newSize > 0 && (NoFit(blocks, Rounded(newSize)) ==> end + newSize + 8192 <= TOP)
      requires ptr != 0 && i < |blocks| && blocks[i].Payload() == ptr && !blocks[i].free
      modifies this, vmm, vmm.pmm, vmm.pmm.bitmap
      ensures Valid()
      ensures r == 0 ==> bytes == old(bytes) && KmallocResult(old(St()), St(), old(blocks), blocks, old(end), end, newSize, 0)
      ensures r != 0 ==> MovedFrom(old(blocks), blocks, old(end), end, Rounded(newSize), i, r) && Gained(old(St()), St(), old(end), end)
      ensures r != 0 ==> OutsideKept(old(bytes), bytes, boot, r, oldSize, newSize)
      ensures r != 0 && oldSize <= old(blocks)[i].size ==> PrefixMoved(old(bytes), bytes, boot, r, ptr, oldSize, newSize)
    {
      ghost var bs, end0 := blocks, end;
      hide Tables, Exclusive, Sound, KP.HeapPages, PageAllocator.BitmapIs, Restored, KP.GrowthFails, Shape, Rounded, ServedFrom, NoFit, MovedFrom, Tiling, CopyDone, CopyKept, FreedAt, OldStays, OutsideKept, PrefixMoved;
      r := Kmalloc(newSize);
      if r == 0 { return; }
      ghost var mid := blocks;
      ShapeTiles(hdr, head, blocks, end);
      RoundedIs(newSize);
      ghost var j := OldStays(bs, mid, end0, end, Rounded(newSize), r, i);
      var copied := if oldSize < newSize then oldSize else newSize;
      ghost var was := bytes;
      CopyAndFree(r, ptr, copied, j);
      PrefixIs(was, bytes, boot, r, ptr, oldSize, newSize, copied);
      MoveIs(bs, mid, blocks, end0, end, Rounded(newSize), i, j, r);
    }

    method CopyAndFree(r: nat, ptr: nat, copied: nat, ghost j: nat)
      requires Shape(hdr, head, blocks, end) && ptr != 0 && j < |blocks| && blocks[j].Payload() == ptr
      modifies this`bytes, this`hdr, this`blocks
      ensures Shape(hdr, head, blocks, end) && blocks == FreedAt(old(blocks), j)
      ensures CopyKept(old(bytes), bytes, boot, r, copied)
      ensures ptr + copied <= r || r + copied <= ptr ==> CopyDone(old(bytes), bytes, boot, r, ptr, copied)
    {
      hide Shape, FreedAt, CopyDone, CopyKept;
      Copy(r, ptr, copied);
      Kfree(ptr, j);
    }

    /** Frees the block whose payload starts at `ptr`, then merges neighbouring free blocks. */
    method Kfree(ptr: nat, ghost i: nat)
      requires Shape(hdr, head, blocks, end) && (ptr != 0 ==> i < |blocks| && blocks[i].Payload() == ptr)
      modifies this`hdr, this`blocks
      ensures Shape(hdr, head, blocks, end)
      ensures ptr == 0 ==> blocks == old(blocks)
      ensures ptr != 0 ==> blocks == FreedAt(old(blocks), i)
    {
      hide Shape;
      if ptr == 0 { return; }
      var block := ptr - HEADER;
      BlockAt(hdr, head, blocks, end, i);
      FreeShape(hdr, head, blocks, end, i);
      hdr := hdr[block := hdr[block].(free := true)];
      blocks := blocks[i := blocks[i].(free := true)];
      Coalesce();
    }

    /** At `cur`: swallow the next block if both are free and adjacent, else move on. */
    method MergeOrAdvance(cur: nat, ghost bs: seq<Block>, ghost pre: seq<Block>, ghost rest: seq<Block>)
      returns (next: nat, ghost done: seq<Block>, ghost left: seq<Block>)
      requires Shape(hdr, head, blocks, end) && Progress(bs, blocks, pre, rest) && cur == First(rest) != 0
      modifies this`hdr, this`blocks
      ensures Shape(hdr, head, blocks, end) && Progress(bs, blocks, done, left) && |left| < |rest|
      ensures next == First(left)
    {
      AtCursor(hdr, head, blocks, end, bs, pre, rest);
      hide Shape, Coalesced, Progress, MergeAt, First;
      var c := hdr[cur];
      var expected := cur + HEADER + c.size;
      if c.free && c.next != 0 && hdr[c.next].free && c.next == expected {
        done, left := Swallow(cur, bs, pre, rest);
        next := cur;
      } else {
        Advancing(bs, blocks, pre, rest);
        next, done, left := c.next, pre + [rest[0]], rest[1..];
      }
    }

    method Swallow(cur: nat, ghost bs: seq<Block>, ghost pre: seq<Block>, ghost rest: seq<Block>)
      returns (ghost done: seq<Block>, ghost left: seq<Block>)
      requires Shape(hdr, head, blocks, end) && Progress(bs, blocks, pre, rest) && cur == First(rest) != 0
      requires |rest| > 1 && rest[0].free && rest[1].free
      modifies this`hdr, this`blocks
      ensures Shape(hdr, head, blocks, end) && Progress(bs, blocks, done, left) && |left| < |rest| && cur == First(left)
    {
      hide Shape, Coalesced, Progress, MergeAt, First;
      AtCursor(hdr, head, blocks, end, bs, pre, rest);
      Merging(hdr, head, blocks, end, bs, pre, rest);
      var c := hdr[cur];
      hdr := hdr[cur := Header(c.size + hdr[c.next].size + HEADER, c.free, hdr[c.next].next)];
      blocks := MergeAt(blocks, |pre|);
      done, left := pre, MergeAt(rest, 0);
    }

    method Coalesce()
      requires Shape(hdr, head, blocks, end)
      modifies this`hdr, this`blocks
      ensures Shape(hdr, head, blocks, end) && blocks == Coalesced(old(blocks))
    {
      ghost var bs: seq<Block>, pre: seq<Block>, rest: seq<Block> := blocks, [], blocks;
      var cur: nat := head;
      Starting(hdr, head, blocks, end);
      hide Shape, Coalesced, Progress, First;
      while cur != 0
        invariant Shape(hdr, head, blocks, end) && Progress(bs, blocks, pre, rest) && cur == First(rest)
        decreases |rest|
      {
        cur, pre, rest := MergeOrAdvance(cur, bs, pre, rest);
      }
      Finished(hdr, head, blocks, end, bs, pre, rest);
    }
  }

  function ByteAt(bytes: map<nat, Byte>, boot: nat -> Byte, a: nat): Byte {
    if a in bytes then bytes[a] else boot(a)
  }

  /** The `n` bytes at `dst` are those that were at `src`; every other byte is unchanged. */
  ghost predicate CopyDone(was: map<nat, Byte>, now: map<nat, Byte>, boot: nat -> Byte, dst: nat, src: nat, n: nat) {
    forall a: nat {:trigger ByteAt(now, boot, a)} ::
      ByteAt(now, boot, a) == ByteAt(was, boot, if dst <= a < dst + n then src + (a - dst) else a)
  }

  /** No byte outside the destination changes. */
  ghost predicate CopyKept(was: map<nat, Byte>, now: map<nat, Byte>, boot: nat -> Byte, dst: nat, n: nat) {
    forall a: nat {:trigger ByteAt(now, boot, a)} :: !(dst <= a < dst + n) ==> ByteAt(now, boot, a) == ByteAt(was, boot, a)
  }

  /** Every byte that both sizes have is at `r` what it was at `ptr`. */
  ghost predicate PrefixMoved(was: map<nat, Byte>, now: map<nat, Byte>, boot: nat -> Byte, r: nat, ptr: nat, oldSize: nat, newSize: nat) {
    forall a: nat {:trigger ByteAt(now, boot, a)} ::
      r <= a < r + oldSize && a < r + newSize ==> ByteAt(now, boot, a) == ByteAt(was, boot, ptr + (a - r))
  }

  /** Every byte outside the part of the new block that both sizes have is unchanged. */
  ghost predicate OutsideKept(was: map<nat, Byte>, now: map<nat, Byte>, boot: nat -> Byte, r: nat, oldSize: nat, newSize: nat) {
    forall a: nat {:trigger ByteAt(now, boot, a)} ::
      a < r || r + oldSize <= a || r + newSize <= a ==> ByteAt(now, boot, a) == ByteAt(was, boot, a)
  }

  lemma PrefixIs(was: map<nat, Byte>, now: map<nat, Byte>, boot: nat -> Byte, r: nat, ptr: nat, oldSize: nat, newSize: nat, copied: nat)
    requires CopyKept(was, now, boot, r, copied) && copied == if oldSize < newSize then oldSize else newSize
    ensures OutsideKept(was, now, boot, r, oldSize, newSize)
    ensures CopyDone(was, now, boot, r, ptr, copied) ==> PrefixMoved(was, now, boot, r, ptr, oldSize, newSize)
  {
    hide ByteAt;
  }

  lemma KeptStep(was: map<nat, Byte>, now: map<nat, Byte>, boot: nat -> Byte, dst: nat, k: nat, b: Byte)
    requires CopyKept(was, now, boot, dst, k)
    ensures CopyKept(was, now[dst + k := b], boot, dst, k + 1)
  {
    forall a: nat | !(dst <= a < dst + k + 1) ensures ByteAt(now[dst + k := b], boot, a) == ByteAt(was, boot, a) {
      assert ByteAt(now[dst + k := b], boot, a) == ByteAt(now, boot, a);
    }
  }

  lemma PutByte(now: map<nat, Byte>, boot: nat -> Byte, at: nat, b: Byte, a: nat)
    ensures ByteAt(now[at := b], boot, a) == if a == at then b else ByteAt(now, boot, a)
  {
  }

  lemma CopyStep(was: map<nat, Byte>, now: map<nat, Byte>, boot: nat -> Byte, dst: nat, src: nat, k: nat)
    requires CopyDone(was, now, boot, dst, src, k) && (src + k < dst || dst + k < src)
    ensures CopyDone(was, now[dst + k := ByteAt(now, boot, src + k)], boot, dst, src, k + 1)
  {
    hide ByteAt;
    var b := ByteAt(now, boot, src + k);
    var then_ := now[dst + k := b];
    assert ByteAt(now, boot, src + k) == ByteAt(was, boot, src + k);
    forall a: nat ensures ByteAt(then_, boot, a) == ByteAt(was, boot, if dst <= a < dst + k + 1 then src + (a - dst) else a) {
      PutByte(now, boot, dst + k, b, a);
    }
  }

  /** The list after freeing its `i`-th block. */
  function FreedAt(bs: seq<Block>, i: nat): seq<Block>
    requires i < |bs|
  {
    Coalesced(bs[i := bs[i].(free := true)])
  }

  /** A new block was served and the old one freed. */
  ghost predicate MovedFrom(bs: seq<Block>, now: seq<Block>, end: nat, end': nat, n: nat, i: nat, r: nat) {
    i < |bs| && exists mid: seq<Block>, j: nat ::
      ServedFrom(bs, mid, end, end', n, r) && j < |mid| && mid[j] == bs[i] && now == FreedAt(mid, j)
  }

  lemma MoveIs(bs: seq<Block>, mid: seq<Block>, now: seq<Block>, end: nat, end': nat, n: nat, i: nat, j: nat, r: nat)
    requires i < |bs| && ServedFrom(bs, mid, end, end', n, r) && j < |mid| && mid[j] == bs[i] && now == FreedAt(mid, j)
    ensures MovedFrom(bs, now, end, end', n, i, r)
  {
  }

  lemma ShapeTiles(hdr: Headers, head: nat, bs: seq<Block>, end: nat)
    requires Shape(hdr, head, bs, end)
    ensures Tiling(bs, KP.HEAP_START, end)
  {
  }

  /** Where a used block stands after a request was served, and that the new payload is clear of it. */
  ghost function OldStays(bs: seq<Block>, now: seq<Block>, end: nat, end': nat, n: nat, r: nat, i: nat): (j: nat)
    requires ServedFrom(bs, now, end, end', n, r) && i < |bs| && !bs[i].free
    requires Tiling(now, KP.HEAP_START, end')
    ensures j < |now| && now[j] == bs[i]
    ensures bs[i].End() <= r || r + n <= bs[i].addr
  {
    var k :| 0 <= k <= |bs| && ServedAt(bs, now, end, end', n, r, k);
    OldIndex(bs, now, end, end', n, r, k, i);
    if i < k then i else i + |now| - |bs|
  }

  lemma OldIndex(bs: seq<Block>, now: seq<Block>, end: nat, end': nat, n: nat, r: nat, k: nat, i: nat)
    requires k <= |bs| && ServedAt(bs, now, end, end', n, r, k) && i < |bs| && !bs[i].free
    requires Tiling(now, KP.HEAP_START, end')
    ensures i != k && 0 <= (if i < k then i else i + |now| - |bs|) < |now|
    ensures now[if i < k then i else i + |now| - |bs|] == bs[i]
    ensures bs[i].End() <= r || r + n <= bs[i].addr
  {
    var base := if k < |bs| then bs else bs + [Fresh(end, n)];
    ServedUses(base[k], n);
    assert now == Carved(base, k, n);
    assert now[k] == Served(base[k], n)[0];
    if i < k {
      assert now[i] == bs[i];
      TilingOrdered(now, KP.HEAP_START, end', i, k);
    } else {
      assert now[i + |now| - |bs|] == bs[i];
      TilingOrdered(now, KP.HEAP_START, end', k, i + |now| - |bs|);
    }
  }

  /**
    What a served request gives: an aligned payload of at least the requested size inside the
    heap, one used block more, and every used block kept.
   */
  lemma {:induction false} ServedGives(bs: seq<Block>, now: seq<Block>, end: nat, end': nat, n: nat, r: nat)
    requires ServedFrom(bs, now, end, end', n, r) && Tiling(bs, KP.HEAP_START, end) && 0 < n && n % 16 == 0
    ensures Tiling(now, KP.HEAP_START, end') && r % 16 == 0
    ensures exists j :: 0 <= j < |now| && NewBlock(bs, now, n, r, j)
  {
    hide Tiling, Used, Carved, NoFit, Fresh, PagesFor;
    var k :| 0 <= k <= |bs| && ServedAt(bs, now, end, end', n, r, k);
    if k == |bs| {
      AppendedFresh(bs, end, n);
      CarvedGives(bs + [Fresh(end, n)], now, end', k, n);
      FreshPayload(end, n);
    } else {
      CarvedGives(bs, now, end', k, n);
    }
    assert NewBlock(bs, now, n, r, k);
  }

  lemma FreshPayload(end: nat, n: nat)
    requires PagesFor(n) * 4096 >= HEADER
    ensures Fresh(end, n).Payload() == end + HEADER
  {
  }

  /** The heap with the fresh block at its end. */
  lemma AppendedFresh(bs: seq<Block>, end: nat, n: nat)
    requires Tiling(bs, KP.HEAP_START, end) && 0 < n && n % 16 == 0
    ensures Tiling(bs + [Fresh(end, n)], KP.HEAP_START, end + PagesFor(n) * 4096) && PagesFor(n) * 4096 >= HEADER
    ensures Used(bs + [Fresh(end, n)]) == Used(bs)
  {
    FreshFits(end, n);
    assert Tiling([Fresh(end, n)], end, end + PagesFor(n) * 4096);
    hide Tiling;
    TilingAppend(bs, [Fresh(end, n)], KP.HEAP_START, end, end + PagesFor(n) * 4096);
    UsedAppend(bs, [Fresh(end, n)]);
    assert Used([Fresh(end, n)]) == [] + Used([Fresh(end, n)][1..]);
    assert Used(bs) + [] == Used(bs);
  }

  /**
    The `j`-th block is the one served: its payload starts at `r`, it is larger than the request by at
    most a header, and it is the only used block added.
   */
  ghost predicate NewBlock(bs: seq<Block>, now: seq<Block>, n: nat, r: nat, j: nat)
    requires j < |now|
  {
    && now[j].Payload() == r && !now[j].free && n <= now[j].size <= n + 32
    && multiset(Used(now)) == multiset(Used(bs)) + multiset{now[j]}
  }

  lemma {:induction false} CarvedGives(base: seq<Block>, now: seq<Block>, end: nat, k: nat, n: nat)
    requires k < |base| && base[k].Fits(n) && now == Carved(base, k, n) && 0 < n && n % 16 == 0
    requires Tiling(base, KP.HEAP_START, end)
    ensures Tiling(now, KP.HEAP_START, end) && k < |now| && base[k].Payload() % 16 == 0
    ensures now[k].Payload() == base[k].Payload() && !now[k].free && n <= now[k].size <= n + 32
    ensures multiset(Used(now)) == multiset(Used(base)) + multiset{now[k]}
  {
    CarveKeepsTiling(base, KP.HEAP_START, end, k, n);
    TilingAligned(base, KP.HEAP_START, end, k);
    assert base[k].size % 16 == 0;
    hide Tiling, Used;
    ServedUses(base[k], n);
    ServedTight(base[k], n);
    CarveUses(base, k, n);
    var b := Served(base[k], n)[0];
    hide Served;
    assert now[k] == b;
    hide Carved;
    UsedOneMore(Used(base[..k]), b, Used(base[k + 1..]));
  }

  /**
    First fit: a request is served from the lowest free block that is large enough, and fails or
    makes the heap grow only if there is none.
   */
  lemma KmallocFirstFit(vm: Vm, w: Vm, bs: seq<Block>, now: seq<Block>, end: nat, end': nat, size: nat, r: nat)
    requires KmallocResult(vm, w, bs, now, end, end', size, r) && size > 0 && Tiling(bs, KP.HEAP_START, end)
    ensures r == 0 || end' > end ==> forall b :: b in bs && b.free ==> b.size < Rounded(size)
    ensures r != 0 && end' == end ==> exists b :: b in bs && b.free && b.Payload() == r && Rounded(size) <= b.size
    ensures r != 0 && end' == end ==> forall b :: b in bs && b.free && Rounded(size) <= b.size ==> r <= b.Payload()
  {
    hide Gained, KP.GrowthFails, Restored, Carved, Rounded;
    var n := Rounded(size);
    if r != 0 {
      var k :| 0 <= k <= |bs| && ServedAt(bs, now, end, end', n, r, k);
      if k < |bs| {
        forall b | b in bs && b.free && n <= b.size ensures r <= b.Payload() {
          var j :| 0 <= j < |bs| && bs[j] == b;
          if k < j { TilingOrdered(bs, KP.HEAP_START, end, k, j); }
        }
        assert bs[k] in bs;
      } else {
        RoundedIs(size);
        FreshFits(end, n);
      }
    }
  }

  /** What a successful request gets: an aligned payload of at least the size asked for and less than 48 bytes more. */
  lemma KmallocGives(vm: Vm, w: Vm, bs: seq<Block>, now: seq<Block>, end: nat, end': nat, size: nat, r: nat)
    requires KmallocResult(vm, w, bs, now, end, end', size, r) && r != 0 && Tiling(bs, KP.HEAP_START, end)
    ensures r % 16 == 0 && size > 0
    ensures exists b :: b in now && b.Payload() == r && !b.free && size <= b.size < size + 48
                        && multiset(Used(now)) == multiset(Used(bs)) + multiset{b}
  {
    hide ServedFrom, Gained, Tiling, Used, Rounded, NoFit, KP.GrowthFails, Restored;
    RoundedIs(size);
    ServedGives(bs, now, end, end', Rounded(size), r);
    var j :| 0 <= j < |now| && NewBlock(bs, now, Rounded(size), r, j);
    assert now[j] in now;
  }

  lemma UsedOneMore(a: seq<Block>, b: Block, c: seq<Block>)
    ensures multiset(a + [b] + c) == multiset(a + c) + multiset{b}
  {
  }

  /** Serving a request never puts two free blocks side by side either: a fresh block is cut at once. */
  lemma ServedKeepsSeparation(bs: seq<Block>, now: seq<Block>, end: nat, end': nat, n: nat, r: nat)
    requires ServedFrom(bs, now, end, end', n, r) && NoFreeNeighbours(bs)
    ensures NoFreeNeighbours(now)
  {
    var k :| 0 <= k <= |bs| && ServedAt(bs, now, end, end', n, r, k);
    var base := if k < |bs| then bs else bs + [Fresh(end, n)];
    CarveKeepsSeparation(base, now, k, n);
  }

  lemma CarveKeepsSeparation(base: seq<Block>, now: seq<Block>, k: nat, n: nat)
    requires k < |base| && base[k].Fits(n) && now == Carved(base, k, n)
    requires forall i, j {:trigger base[i], base[j]} :: 0 <= i < |base| && j == i + 1 && j < |base| && j != k ==> !(base[i].free && base[j].free)
    ensures NoFreeNeighbours(now)
  {
    var s := Served(base[k], n);
    ServedUses(base[k], n);
    forall i, j | 0 <= i < |now| && j == i + 1 && j < |now| ensures !(now[i].free && now[j].free) {
      if j < k {
        assert now[i] == base[i] && now[j] == base[j];
      } else if i <= k {
        assert now[k] == s[0];
      } else if i < k + |s| {
        assert now[i] == s[i - k];
        if j >= k + |s| { assert now[j] == base[k + 1] && base[k].free; }
      } else {
        assert now[i] == base[i - |s| + 1] && now[j] == base[j - |s| + 1];
      }
    }
  }

  /** What a free gives: one used block less, every other kept, no two free neighbours. */
  lemma FreedGives(bs: seq<Block>, end: nat, i: nat)
    requires Tiling(bs, KP.HEAP_START, end) && i < |bs|
    ensures Tiling(FreedAt(bs, i), KP.HEAP_START, end) && NoFreeNeighbours(FreedAt(bs, i))
    ensures Used(FreedAt(bs, i)) == Used(bs[..i]) + Used(bs[i + 1..])
    ensures KP.HEAP_START + Total(FreedAt(bs, i)) == end
  {
    var now := bs[i := bs[i].(free := true)];
    MarkKeepsTiling(bs, end, i);
    CoalesceKeepsTiling(now, KP.HEAP_START, end);
    CoalesceSeparates(now);
    CoalesceKeepsUsed(now);
    UsedWithout(now, i);
    assert now[..i] == bs[..i] && now[i + 1..] == bs[i + 1..];
    TilingTotal(Coalesced(now), KP.HEAP_START, end);
  }

  lemma MarkKeepsTiling(bs: seq<Block>, end: nat, i: nat)
    requires Tiling(bs, KP.HEAP_START, end) && i < |bs|
    ensures Tiling(bs[i := bs[i].(free := true)], KP.HEAP_START, end)
  {
    var now := bs[i := bs[i].(free := true)];
    forall k | 0 <= k < |now| ensures now[k].addr == bs[k].addr && now[k].size == bs[k].size && 0 < now[k].size && now[k].size % 16 == 0 {
      assert 0 < bs[k].size;
    }
    forall k, j | 0 <= k < |now| && j == k + 1 && j < |now| ensures now[k].End() == now[j].addr {
      assert bs[k].End() == bs[j].addr;
    }
  }

  function First(bs: seq<Block>): nat { if bs == [] then 0 else bs[0].addr }

  /** `done` needs no more merging, `left` is still to be looked at. */
  ghost predicate Progress(bs: seq<Block>, now: seq<Block>, done: seq<Block>, left: seq<Block>) {
    now == done + left && Coalesced(bs) == done + Coalesced(left)
  }

  lemma NothingGained(vm: Vm, end: nat)
    ensures Gained(vm, vm, end, end)
  {
  }

  /** Whatever a request does to the page tables, user spaces do not see it, and the frames it took the kernel holds. */
  lemma KmallocGrew(vm: Vm, w: Vm, bs: seq<Block>, now: seq<Block>, end: nat, end': nat, size: nat, r: nat)
    requires KmallocResult(vm, w, bs, now, end, end', size, r) && Sound(vm) && PagesBelow(end') <= KP.KPAGES
    requires KP.HeapPages(vm, PagesBelow(end))
    ensures KP.KernelGrew(vm, w)
  {
    assert vm.kernel in vm.roots;
    hide Sound, ServedFrom, NoFit, KP.GrowthFails, KP.Mapped, HeldBy, Translate, KP.KernelGrew, KP.HeapPages;
    if w == vm { KP.GrewNothing(vm); } else if r == 0 { KP.RestoredGrew(vm, w); }
    if r != 0 && end' != end {
      var frames: seq<nat> :| PagesBelow(end) + |frames| == PagesBelow(end') && KP.Mapped(vm, w, PagesBelow(end), frames);
      KP.MappedGrew(vm, w, PagesBelow(end), frames);
    }
  }

  lemma PagesGained(vm: Vm, w: Vm, end: nat, pages: nat, frames: seq<nat>)
    requires end >= KP.HEAP_START && (end - KP.HEAP_START) % 4096 == 0 && 0 < pages == |frames|
    requires KP.Mapped(vm, w, (end - KP.HEAP_START) / 4096, frames)
    ensures Gained(vm, w, end, end + pages * 4096)
  {
    hide KP.Mapped;
    assert PagesBelow(end + pages * 4096) == PagesBelow(end) + pages;
  }

  /** A retry after an expansion does not move the end again. */
  lemma StaysGained(bs: seq<Block>, now: seq<Block>, end: nat, end': nat, n: nat, r: nat)
    requires !NoFit(bs, n)
    ensures r != 0 && ServedFrom(bs, now, end, end', n, r) ==> end' == end
  {
  }

  lemma PageCount(end: nat, n: nat, pages: nat)
    requires KP.HEAP_START <= end && (end - KP.HEAP_START) % 4096 == 0 && end + PagesFor(n) * 4096 <= TOP
    requires pages == (n + HEADER) / 4096 + (if (n + HEADER) % 4096 != 0 then 1 else 0)
    ensures pages == PagesFor(n) && (end - KP.HEAP_START) / 4096 + pages <= KP.KPAGES
    ensures (end + pages * 4096 - KP.HEAP_START) / 4096 == (end - KP.HEAP_START) / 4096 + pages
    ensures (end + pages * 4096 - KP.HEAP_START) % 4096 == 0
  {
  }

  lemma RestoredPages(vm: Vm, w: Vm, b: nat)
    requires Restored(vm, w) && KP.HeapPages(vm, b) && Sound(vm)
    ensures KP.HeapPages(w, b) && Sound(w)
  {
    assert vm.kernel in vm.roots;
    hide Sound, Translate, KP.KPage;
    forall m: nat | m < b ensures KP.KBacked(w, m) { assert KP.KBacked(vm, m); }
    forall m: nat | b <= m < KP.KPAGES ensures KP.KAbsent(w, m) { assert KP.KAbsent(vm, m); }
  }

  lemma MorePages(vm: Vm, w: Vm, b: nat, frames: seq<nat>)
    requires KP.Mapped(vm, w, b, frames) && KP.HeapPages(vm, b) && Sound(vm) && b + |frames| <= KP.KPAGES
    ensures KP.HeapPages(w, b + |frames|)
  {
    hide Sound, Translate, KP.KPage, KP.Mapped, KP.KBacked, KP.KAbsent;
    forall m: nat | m < b + |frames| ensures KP.KBacked(w, m) {
      if m < b { assert KP.KBacked(vm, m); }
      PageAfter(vm, w, b, frames, m);
    }
    forall m: nat | b + |frames| <= m < KP.KPAGES ensures KP.KAbsent(w, m) {
      assert KP.KAbsent(vm, m);
      PageAfter(vm, w, b, frames, m);
    }
  }

  /** One page of the zone after the heap grew. */
  lemma PageAfter(vm: Vm, w: Vm, b: nat, frames: seq<nat>, m: nat)
    requires KP.Mapped(vm, w, b, frames) && Sound(vm) && m < KP.KPAGES
    ensures b <= m < b + |frames| ==> KP.KBacked(w, m)
    ensures !(b <= m < b + |frames|) ==> (KP.KBacked(vm, m) ==> KP.KBacked(w, m)) && (KP.KAbsent(vm, m) ==> KP.KAbsent(w, m))
  {
    assert vm.kernel in vm.roots;
    hide Sound, Translate, KP.KPage;
    if b <= m < b + |frames| {
      assert KP.MapsFresh(vm, w, b, frames, m - b);
    } else {
      KP.OutsideSame(vm, w, b, |frames|, m);
    }
  }

  lemma RoundedIs(size: nat)
    ensures size <= Rounded(size) < size + 16 && Rounded(size) % 16 == 0 && Rounded(Rounded(size)) == Rounded(size)
    ensures PagesFor(Rounded(size)) * 4096 <= size + 8192
  {
  }

  lemma FreshIsFirst(bs: seq<Block>, end: nat, n: nat)
    requires NoFit(bs, n) && 0 < n && n % 16 == 0
    ensures FirstFit(bs + [Fresh(end, n)], n, |bs|) && !NoFit(bs + [Fresh(end, n)], n)
  {
    FreshFits(end, n);
    var all := bs + [Fresh(end, n)];
    assert all[|bs|].Fits(n);
    forall j | 0 <= j < |bs| ensures !all[j].Fits(n) { assert all[j] == bs[j]; }
  }

  lemma FirstFitUnique(bs: seq<Block>, n: nat, i: nat, j: nat)
    requires FirstFit(bs, n, i) && FirstFit(bs, n, j)
    ensures i == j
  {
  }

  lemma ServedHere(bs: seq<Block>, end: nat, n: nat, i: nat)
    requires FirstFit(bs, n, i)
    ensures ServedFrom(bs, Carved(bs, i, n), end, end, n, bs[i].Payload()) && !NoFit(bs, n)
  {
    assert ServedAt(bs, Carved(bs, i, n), end, end, n, bs[i].Payload(), i);
  }

  lemma ServedFresh(bs: seq<Block>, bs1: seq<Block>, now: seq<Block>, end0: nat, end1: nat, end2: nat, n: nat, r: nat)
    requires NoFit(bs, n) && bs1 == bs + [Fresh(end0, n)] && end1 == end0 + PagesFor(n) * 4096 && 0 < n && n % 16 == 0
    requires r != 0 ==> ServedFrom(bs1, now, end1, end2, n, r)
    ensures r != 0 ==> ServedFrom(bs, now, end0, end2, n, r)
  {
    FreshIsFirst(bs, end0, n);
    if r != 0 {
      var i :| 0 <= i <= |bs1| && ServedAt(bs1, now, end1, end2, n, r, i);
      if i < |bs1| { FirstFitUnique(bs1, n, i, |bs|); }
      assert ServedAt(bs, now, end0, end2, n, r, |bs|);
    }
  }

  lemma FreeShape(hdr: Headers, head: nat, bs: seq<Block>, end: nat, i: nat)
    requires Shape(hdr, head, bs, end) && i < |bs|
    ensures bs[i].addr in hdr
    ensures Shape(hdr[bs[i].addr := hdr[bs[i].addr].(free := true)], head, bs[i := bs[i].(free := true)], end)
  {
    hide Tiling, Represents;
    FreeRepresents(hdr, head, bs, KP.HEAP_START, end, i);
  }

  lemma Starting(hdr: Headers, head: nat, bs: seq<Block>, end: nat)
    requires Shape(hdr, head, bs, end)
    ensures Progress(bs, bs, [], bs) && head == First(bs)
  {
  }

  lemma Finished(hdr: Headers, head: nat, now: seq<Block>, end: nat, bs: seq<Block>, done: seq<Block>, left: seq<Block>)
    requires Shape(hdr, head, now, end) && Progress(bs, now, done, left) && First(left) == 0
    ensures now == Coalesced(bs)
  {
    if left != [] {
      assert now[|done|] == left[0];
      NextIsBlock(hdr, head, now, end, |done|);
    }
    assert done + Coalesced(left) == now;
  }

  lemma Advancing(bs: seq<Block>, now: seq<Block>, pre: seq<Block>, rest: seq<Block>)
    requires Progress(bs, now, pre, rest) && rest != [] && !(|rest| > 1 && rest[0].free && rest[1].free)
    ensures Progress(bs, now, pre + [rest[0]], rest[1..]) && First(rest[1..]) == (if |rest| > 1 then rest[1].addr else 0)
  {
    assert Coalesced(rest) == [rest[0]] + Coalesced(rest[1..]);
    assert pre + rest == (pre + [rest[0]]) + rest[1..];
    assert pre + ([rest[0]] + Coalesced(rest[1..])) == (pre + [rest[0]]) + Coalesced(rest[1..]);
  }

  lemma Merging(hdr: Headers, head: nat, now: seq<Block>, end: nat, bs: seq<Block>, pre: seq<Block>, rest: seq<Block>)
    requires Shape(hdr, head, now, end) && Progress(bs, now, pre, rest) && |rest| > 1 && rest[0].free && rest[1].free
    ensures |pre| + 1 < |now| && Progress(bs, MergeAt(now, |pre|), pre, MergeAt(rest, 0)) && First(MergeAt(rest, 0)) == rest[0].addr
    ensures |MergeAt(rest, 0)| == |rest| - 1
    ensures Shape(hdr[rest[0].addr := Header(rest[0].size + rest[1].size + HEADER, rest[0].free, NextAddr(now, |pre| + 1))],
                  head, MergeAt(now, |pre|), end)
  {
    MergeProgress(bs, now, pre, rest);
    hide Shape, Progress, MergeAt, Merged, First, Coalesced;
    MergeShape(hdr, head, now, end, |pre|);
  }

  lemma MergeProgress(bs: seq<Block>, now: seq<Block>, pre: seq<Block>, rest: seq<Block>)
    requires Progress(bs, now, pre, rest) && |rest| > 1 && rest[0].free && rest[1].free
    ensures |pre| + 1 < |now| && Progress(bs, MergeAt(now, |pre|), pre, MergeAt(rest, 0)) && First(MergeAt(rest, 0)) == rest[0].addr
    ensures |MergeAt(rest, 0)| == |rest| - 1 && now[|pre|] == rest[0] && now[|pre| + 1] == rest[1]
  {
    assert MergeAt(rest, 0) == [Merged(rest[0], rest[1])] + rest[2..];
    assert MergeAt(now, |pre|) == pre + MergeAt(rest, 0);
  }

  lemma MergeShape(hdr: Headers, head: nat, bs: seq<Block>, end: nat, i: nat)
    requires Shape(hdr, head, bs, end) && i + 1 < |bs|
    ensures Shape(hdr[bs[i].addr := Header(bs[i].size + bs[i + 1].size + HEADER, bs[i].free, NextAddr(bs, i + 1))], head, MergeAt(bs, i), end)
  {
    hide Tiling, Represents, MergeAt;
    MergeAtKeepsTiling(bs, KP.HEAP_START, end, i);
    MergeRepresents(hdr, head, bs, KP.HEAP_START, end, i);
  }

  /** The header at the cursor and the one after it; neighbours in the list are neighbours in memory. */
  lemma AtCursor(hdr: Headers, head: nat, now: seq<Block>, end: nat, bs: seq<Block>, pre: seq<Block>, rest: seq<Block>)
    requires Shape(hdr, head, now, end) && Progress(bs, now, pre, rest) && First(rest) != 0
    ensures rest != [] && First(rest) == rest[0].addr && rest[0].addr in hdr
    ensures hdr[rest[0].addr] == Header(rest[0].size, rest[0].free, if |rest| > 1 then rest[1].addr else 0)
    ensures |rest| > 1 ==> rest[0].End() == rest[1].addr && rest[1].addr != 0 && rest[1].addr in hdr
    ensures |rest| > 1 ==> hdr[rest[1].addr] == Header(rest[1].size, rest[1].free, NextAddr(now, |pre| + 1))
  {
    assert now[|pre|] == rest[0];
    BlockAt(hdr, head, now, end, |pre|);
    if |rest| > 1 {
      assert now[|pre| + 1] == rest[1];
      BlockAt(hdr, head, now, end, |pre| + 1);
    }
  }

  lemma StartMapping(vm: Vm, b: nat, pages: nat)
    requires Sound(vm) && KP.HeapPages(vm, b) && b + pages <= KP.KPAGES
    ensures KP.Mapped(vm, vm, b, []) && KP.AbsentRange(vm, b, pages)
  {
    KP.MappedNone(vm, b);
    hide Sound, KP.KAbsent, KP.KBacked;
  }

  lemma MappedFacts(vm: Vm, v: Vm, b: nat, frames: seq<nat>)
    requires KP.Mapped(vm, v, b, frames)
    ensures Sound(v) && v.kernel == vm.kernel && v.kernel in v.roots && v.kernel != 0
  {
  }

  lemma MapOutcome(vm: Vm, v: Vm, w: Vm, b: nat, frames: seq<nat>, f: nat, ok: bool)
    requires KP.Mapped(vm, v, b, frames) && b + |frames| < KP.KPAGES && v.kernel == vm.kernel && v.kernel in v.roots
    requires AllocResult(v, w, v.kernel, PageOf(KP.HEAP_START + (b + |frames|) * 4096), 3, f, ok)
    ensures KP.Mapped(vm, w, b, if ok then frames + [f] else frames)
  {
    KP.KPageIsKernel(b + |frames|);
    assert vm.roots == v.roots;
    hide KP.Mapped, AllocResult;
    if ok { KP.MappedStep(vm, v, w, b, frames, f); } else { KP.MappedFail(vm, v, w, b, frames, KP.KPage(b + |frames|), f); }
  }

  lemma StartUnmapping(vm: Vm, v: Vm, b: nat, frames: seq<nat>)
    requires KP.Mapped(vm, v, b, frames)
    ensures KP.Unmapped(v, v, b, frames, 0) && KP.Distinct(frames)
  {
    hide Sound, Translate, Private;
    forall k | 0 <= k < |frames| ensures KP.StillMaps(v, b, frames, k) {
      assert KP.MapsFresh(vm, v, b, frames, k);
    }
  }

  lemma KernelIsRoot(v: Vm, w: Vm, b: nat, frames: seq<nat>, n: nat)
    requires n <= |frames| && KP.Unmapped(v, w, b, frames, n)
    ensures w.kernel in w.roots && w.kernel != 0
  {
  }

  lemma UnmappedIsSound(v: Vm, w: Vm, b: nat, frames: seq<nat>, n: nat)
    requires n <= |frames| && KP.Unmapped(v, w, b, frames, n)
    ensures Tables(w)
  {
  }

  lemma EndUnmapping(vm: Vm, v: Vm, w: Vm, b: nat, pages: nat, frames: seq<nat>)
    requires Sound(vm) && KP.Mapped(vm, v, b, frames) && KP.Unmapped(v, w, b, frames, |frames|)
    requires KP.AbsentRange(vm, b, pages) && |frames| <= pages && b + pages <= KP.KPAGES
    ensures Restored(vm, w) && Sound(w)
  {
    assert KP.AbsentRange(vm, b, |frames|);
    hide Sound, KP.Mapped, KP.Unmapped, KP.AbsentRange;
    KP.RolledBack(vm, v, w, b, frames);
  }

  /** The list in memory is an aligned tiling of the heap in whole pages. */
  ghost predicate Shape(hdr: Headers, head: nat, bs: seq<Block>, end: nat) {
    && KP.HEAP_START <= end <= TOP && (end - KP.HEAP_START) % 4096 == 0
    && Tiling(bs, KP.HEAP_START, end) && Represents(hdr, head, bs)
  }

  lemma BlockAt(hdr: Headers, head: nat, bs: seq<Block>, end: nat, i: nat)
    requires Shape(hdr, head, bs, end) && i < |bs|
    ensures bs[i].addr in hdr && hdr[bs[i].addr] == Header(bs[i].size, bs[i].free, NextAddr(bs, i))
    ensures bs[i].addr >= KP.HEAP_START && bs[i].End() <= end && bs[i].addr % 16 == 0 && 0 < bs[i].size && bs[i].size % 16 == 0
    ensures head == bs[0].addr
  {
    assert HeaderOk(hdr, bs, i);
    TilingAligned(bs, KP.HEAP_START, end, i);
  }

  lemma NextIsBlock(hdr: Headers, head: nat, bs: seq<Block>, end: nat, i: nat)
    requires Shape(hdr, head, bs, end) && i <= |bs|
    ensures i < |bs| ==> bs[i].addr != 0
  {
    if i < |bs| { BlockAt(hdr, head, bs, end, i); }
  }

  lemma ServeShape(hdr: Headers, head: nat, bs: seq<Block>, end: nat, i: nat, n: nat)
    requires Shape(hdr, head, bs, end) && i < |bs| && 0 < n <= bs[i].size && n % 16 == 0
    ensures Shape(ServeHeaders(hdr, bs[i], n, NextAddr(bs, i)), head, Carved(bs, i, n), end)
  {
    hide Tiling, Represents;
    CarveKeepsTiling(bs, KP.HEAP_START, end, i, n);
    CarveRepresents(hdr, head, bs, KP.HEAP_START, end, i, n);
  }

  lemma AppendShape(hdr: Headers, head: nat, bs: seq<Block>, end: nat, b: Block)
    requires Shape(hdr, head, bs, end) && b.addr == end && 0 < b.size && b.size % 16 == 0
    requires (b.End() - KP.HEAP_START) % 4096 == 0 && b.End() <= TOP
    ensures bs == [] ==> head == 0 && Shape(hdr[b.addr := Header(b.size, b.free, 0)], b.addr, bs + [b], b.End())
    ensures bs != [] ==> head != 0
    ensures bs != [] ==> var last := bs[|bs| - 1];
              Shape(hdr[b.addr := Header(b.size, b.free, 0)][last.addr := Header(last.size, last.free, b.addr)], head, bs + [b], b.End())
  {
    TilingAppend(bs, [b], KP.HEAP_START, end, b.End());
    if bs != [] {
      BlockAt(hdr, head, bs, end, 0);
      hide Tiling, Represents;
      AppendRepresents(hdr, head, bs, KP.HEAP_START, end, b);
    } else {
      assert bs + [b] == [b];
    }
  }
}
