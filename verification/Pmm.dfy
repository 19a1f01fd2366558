/**
  The physical page allocator: one bit per 4 KB page, a hint below which every
  page is in use, and a counter of used pages.
 */
module PageAllocator {

  const PAGE_SIZE: nat := 4096
  const PHYS_NULL: nat := 0

  /** Pages below 72 MB belong to the kernel and are never handed out. */
  const LOW_PAGES: nat := 0x4800000 / 4096

  // -------------------------------------------------------------------- bits

  function Mask(k: nat): bv8
    requires k < 8
  {
    if k == 0 then 1 else if k == 1 then 2 else if k == 2 then 4 else if k == 3 then 8
    else if k == 4 then 16 else if k == 5 then 32 else if k == 6 then 64 else 128
  }

  predicate OneBit(m: bv8) {
    m == 1 || m == 2 || m == 4 || m == 8 || m == 16 || m == 32 || m == 64 || m == 128
  }

  lemma MaskIsOneBit(k: nat)
    requires k < 8
    ensures OneBit(Mask(k))
  {
  }

  lemma MaskInjective(k: nat, m: nat)
    requires k < 8 && m < 8
    ensures Mask(k) == Mask(m) <==> k == m
  {
  }

  lemma SetThenTest(b: bv8, a: bv8, m: bv8)
    requires OneBit(a) && OneBit(m)
    ensures ((b | a) & m != 0) == (a == m || b & m != 0)
  {
  }

  lemma ClearThenTest(b: bv8, a: bv8, m: bv8)
    requires OneBit(a) && OneBit(m)
    ensures ((b & !a) & m != 0) == (a != m && b & m != 0)
  {
  }

  predicate Has(b: bv8, k: nat)
    requires k < 8
  {
    b & Mask(k) != 0
  }

  function With(b: bv8, k: nat): bv8
    requires k < 8
  {
    b | Mask(k)
  }

  function Without(b: bv8, k: nat): bv8
    requires k < 8
  {
    b & !Mask(k)
  }

  predicate TestBit(bm: seq<bv8>, i: nat)
    requires i < 8 * |bm|
  {
    Has(bm[i / 8], i % 8)
  }

  lemma SetBit(bm: seq<bv8>, i: nat, j: nat)
    requires i < 8 * |bm| && j < 8 * |bm|
    ensures TestBit(bm[i / 8 := With(bm[i / 8], i % 8)], j) == (i == j || TestBit(bm, j))
  {
    MaskIsOneBit(i % 8);
    MaskIsOneBit(j % 8);
    MaskInjective(i % 8, j % 8);
    hide Mask, OneBit;
    if i / 8 == j / 8 {
      SetThenTest(bm[i / 8], Mask(i % 8), Mask(j % 8));
    }
  }

  lemma ClearBit(bm: seq<bv8>, i: nat, j: nat)
    requires i < 8 * |bm| && j < 8 * |bm|
    ensures TestBit(bm[i / 8 := Without(bm[i / 8], i % 8)], j) == (i != j && TestBit(bm, j))
  {
    MaskIsOneBit(i % 8);
    MaskIsOneBit(j % 8);
    MaskInjective(i % 8, j % 8);
    hide Mask, OneBit;
    if i / 8 == j / 8 {
      ClearThenTest(bm[i / 8], Mask(i % 8), Mask(j % 8));
    }
  }

  lemma AllOnes(i: nat)
    ensures (0xFF as bv8) & Mask(i % 8) != 0
  {
    MaskIsOneBit(i % 8);
  }

  // ------------------------------------------------------------------- state

  /** The bitmap's first `pages` bits are the membership of `used`. */
  ghost predicate BitmapIs(bm: seq<bv8>, pages: nat, used: set<nat>) {
    && pages <= 8 * |bm|
    && (forall i {:trigger i in used} :: 0 <= i < pages ==> (TestBit(bm, i) <==> i in used))
    && (forall i :: i in used ==> i < pages)
  }

  lemma BitmapAdd(bm: seq<bv8>, pages: nat, used: set<nat>, i: nat)
    requires BitmapIs(bm, pages, used) && i < pages
    ensures BitmapIs(bm[i / 8 := With(bm[i / 8], i % 8)], pages, used + {i})
  {
    hide Mask, With, Without, Has;
    forall j | 0 <= j < pages
      ensures TestBit(bm[i / 8 := With(bm[i / 8], i % 8)], j) <==> j in used + {i}
    {
      SetBit(bm, i, j);
      assert TestBit(bm, j) <==> j in used;
    }
  }

  lemma BitmapRemove(bm: seq<bv8>, pages: nat, used: set<nat>, i: nat)
    requires BitmapIs(bm, pages, used) && i < pages
    ensures BitmapIs(bm[i / 8 := Without(bm[i / 8], i % 8)], pages, used - {i})
  {
    hide Mask, With, Without, Has;
    forall j | 0 <= j < pages
      ensures TestBit(bm[i / 8 := Without(bm[i / 8], i % 8)], j) <==> j in used - {i}
    {
      ClearBit(bm, i, j);
      assert TestBit(bm, j) <==> j in used;
    }
  }

  predicate Below(p: nat, n: nat) { p < n }

  lemma InRange(bm: seq<bv8>, pages: nat, used: set<nat>)
    requires BitmapIs(bm, pages, used)
    ensures forall i :: i in used ==> i < pages
  {
  }

  // ---------------------------------------------------------- boot memory map

  /** A region of the boot loader's memory map. */
  datatype Region = Region(base: nat, length: nat, usable: bool) {
    function End(): nat { base + length }
  }

  function RoundUp(x: nat): nat {
    (x + PAGE_SIZE - 1) / PAGE_SIZE * PAGE_SIZE
  }

  /** Page `p` starts inside the page-aligned part of a usable region. */
  predicate InUsable(r: Region, p: nat) {
    r.usable && RoundUp(r.base) <= p * PAGE_SIZE < r.End()
  }

  predicate Offered(regions: seq<Region>, p: nat) {
    exists r :: r in regions && InUsable(r, p)
  }

  /** The least bound of the usable regions' ends, 0 when there is none. */
  predicate IsHighest(regions: seq<Region>, top: nat) {
    && (forall r :: r in regions && r.usable ==> r.End() <= top)
    && (top == 0 || exists r :: r in regions && r.usable && r.End() == top)
  }

  /** The region holds `bytes` bytes from its first page at or above 72 MB, which is `at`. */
  predicate Holds(r: Region, bytes: nat, at: nat) {
    && r.usable
    && at == (if RoundUp(r.base) < 0x4800000 then 0x4800000 else RoundUp(r.base))
    && at < r.End() && bytes <= r.End() - at
  }

  /** Bytes of a bitmap for `pages` pages, in whole pages. */
  function BitmapBytes(pages: nat): nat {
    RoundUp((pages + 7) / 8)
  }

  /** Free after boot: offered by the map, above the kernel zone, outside the bitmap. */
  ghost predicate FreeAtBoot(regions: seq<Region>, pages: nat, at: nat, p: nat) {
    && p < pages && Offered(regions, p) && 0x480_0000 <= p * PAGE_SIZE
    && !(at / PAGE_SIZE <= p < at / PAGE_SIZE + BitmapBytes(pages) / PAGE_SIZE)
  }

  /** The bitmap has a bit for every page, in the fewest whole pages that do. */
  lemma BitmapFits(pages: nat)
    ensures pages <= 8 * BitmapBytes(pages) && 8 * (BitmapBytes(pages) - 4096) < pages
    ensures BitmapBytes(pages) % PAGE_SIZE == 0
  {
  }

  lemma RoundedIsAligned(x: nat)
    ensures RoundUp(x) % PAGE_SIZE == 0 && x <= RoundUp(x) < x + PAGE_SIZE
  {
  }

  /** The bitmap lies in offered pages that start at or above 72 MB. */
  lemma BitmapInsideOffered(regions: seq<Region>, r: Region, pages: nat, at: nat, p: nat)
    requires r in regions && Holds(r, BitmapBytes(pages), at)
    requires at / PAGE_SIZE <= p < at / PAGE_SIZE + BitmapBytes(pages) / PAGE_SIZE
    ensures at % PAGE_SIZE == 0 && Offered(regions, p) && 0x480_0000 <= p * PAGE_SIZE
  {
    RoundedIsAligned(r.base);
    BitmapFits(pages);
    assert InUsable(r, p);
  }

  method FindHighest(regions: seq<Region>) returns (top: nat)
    ensures IsHighest(regions, top)
  {
    top := 0;
    for i := 0 to |regions|
      invariant IsHighest(regions[..i], top)
    {
      assert regions[..i + 1] == regions[..i] + [regions[i]];
      if regions[i].usable && regions[i].End() > top { top := regions[i].End(); }
    }
    assert regions[..|regions|] == regions;
  }

  /** The first region that can hold the bitmap. */
  method PlaceBitmap(regions: seq<Region>, bytes: nat) returns (found: bool, at: nat)
    ensures found ==> Placed(regions, bytes, at)
    ensures !found ==> forall r, x :: r in regions ==> !Holds(r, bytes, x)
  {
    found, at := false, 0;
    for i := 0 to |regions|
      invariant forall j, x :: 0 <= j < i ==> !Holds(regions[j], bytes, x)
    {
      if regions[i].usable {
        var base := RoundUp(regions[i].base);
        if base < 0x4800000 { base := 0x4800000; }
        if base < regions[i].End() && regions[i].End() - base >= bytes {
          assert Holds(regions[i], bytes, base);
          return true, base;
        }
      }
    }
  }

  class Pmm {
    const bitmap: array<bv8>
    const totalPages: nat
    var usedPages: nat
    var nextFreeHint: nat
    ghost var used: set<nat>

    /** The bitmap, the counter and the hint describe `used`. */
    ghost predicate Valid()
      reads this, bitmap
    {
      && BitmapIs(bitmap[..], totalPages, used)
      && usedPages == |used|
      && (forall i :: 0 <= i < nextFreeHint && i < totalPages ==> i in used)
      && (forall i :: 0 <= i < LOW_PAGES && i < totalPages ==> i in used)
    }

    /** All pages used, counters not set yet. */
    constructor (bytes: nat, pages: nat)
      requires pages <= 8 * bytes
      ensures fresh(bitmap) && totalPages == pages
      ensures BitmapIs(bitmap[..], totalPages, used)
      ensures forall p :: p in used <==> 0 <= p < pages
    {
      bitmap := new bv8[bytes](_ => 0xFF);
      totalPages := pages;
      usedPages, nextFreeHint := 0, 0;
      used := set p: nat | p < pages && Below(p, pages);
      new;
      hide Mask;
      forall i | 0 <= i < pages
        ensures TestBit(bitmap[..], i)
      {
        AllOnes(i);
      }
    }

    /** Step B for one region. */
    method FreeRegion(r: Region)
      requires BitmapIs(bitmap[..], totalPages, used)
      modifies bitmap, this`used
      ensures BitmapIs(bitmap[..], totalPages, used)
      ensures forall p {:trigger p in used} :: p in used <==> p in old(used) && !InUsable(r, p)
    {
      hide BitmapIs, RoundUp;
      if !r.usable { return; }
      RoundedIsAligned(r.base);
      var addr := RoundUp(r.base);
      while addr < r.End()
        invariant addr % PAGE_SIZE == 0 && RoundUp(r.base) <= addr
        invariant BitmapIs(bitmap[..], totalPages, used)
        invariant forall p {:trigger p in used} ::
                    p in used <==> p in old(used) && !(InUsable(r, p) && p * PAGE_SIZE < addr)
      {
        var page := addr / PAGE_SIZE;
        assert page * PAGE_SIZE == addr;
        InRange(bitmap[..], totalPages, used);
        if page < totalPages { Unmark(page); }
        addr := addr + PAGE_SIZE;
      }
    }

    /** Steps C and D: lock `count` pages from `first`, as far as the bitmap reaches. */
    method LockRange(first: nat, count: nat)
      requires BitmapIs(bitmap[..], totalPages, used)
      modifies bitmap, this`used
      ensures BitmapIs(bitmap[..], totalPages, used)
      ensures forall p {:trigger p in used} ::
                p in used <==> p in old(used) || (first <= p < first + count && p < totalPages)
    {
      hide BitmapIs;
      var i := 0;
      while i < count && first + i < totalPages
        invariant 0 <= i <= count
        invariant BitmapIs(bitmap[..], totalPages, used)
        invariant forall p {:trigger p in used} ::
                    p in used <==> p in old(used) || (first <= p < first + i && p < totalPages)
      {
        Mark(first + i);
        i := i + 1;
      }
    }

    /** Phase 4's count of the set bits. */
    method CountUsed() returns (n: nat)
      requires BitmapIs(bitmap[..], totalPages, used)
      ensures n == |used|
    {
      InRange(bitmap[..], totalPages, used);
      hide BitmapIs;
      n := 0;
      ghost var seen: set<nat> := {};
      for i := 0 to totalPages
        invariant n == |seen| && forall p :: p in seen <==> p in used && p < i
      {
        var taken := Test(i);
        if taken {
          n := n + 1;
          seen := seen + {i};
        }
      }
      assert seen == used;
    }

    method Mark(i: nat)
      requires BitmapIs(bitmap[..], totalPages, used) && i < totalPages
      modifies bitmap, this`used
      ensures BitmapIs(bitmap[..], totalPages, used) && used == old(used) + {i}
    {
      BitmapAdd(bitmap[..], totalPages, used, i);
      hide Mask, With, Without, Has, BitmapIs;
      ghost var bm := bitmap[..];
      bitmap[i / 8] := With(bitmap[i / 8], i % 8);
      assert bitmap[..] == bm[i / 8 := With(bm[i / 8], i % 8)];
      used := used + {i};
    }

    method Unmark(i: nat)
      requires BitmapIs(bitmap[..], totalPages, used) && i < totalPages
      modifies bitmap, this`used
      ensures BitmapIs(bitmap[..], totalPages, used) && used == old(used) - {i}
    {
      BitmapRemove(bitmap[..], totalPages, used, i);
      hide Mask, With, Without, Has, BitmapIs;
      ghost var bm := bitmap[..];
      bitmap[i / 8] := Without(bitmap[i / 8], i % 8);
      assert bitmap[..] == bm[i / 8 := Without(bm[i / 8], i % 8)];
      used := used - {i};
    }

    method Test(i: nat) returns (set_: bool)
      requires BitmapIs(bitmap[..], totalPages, used) && i < totalPages
      ensures set_ <==> i in used
    {
      assert bitmap[i / 8] == bitmap[..][i / 8];
      assert TestBit(bitmap[..], i) <==> i in used;
      set_ := Has(bitmap[i / 8], i % 8);
    }

    /** Hands out the lowest free page, or `PHYS_NULL` exactly when none is free. */
    method AllocPage() returns (addr: nat)
      requires Valid()
      modifies this`usedPages, this`nextFreeHint, this`used, bitmap
      ensures Valid()
      ensures addr == PHYS_NULL <==> forall i :: 0 <= i < totalPages ==> i in old(used)
      ensures addr == PHYS_NULL ==> used == old(used)
      ensures addr != PHYS_NULL ==>
                var p := addr / PAGE_SIZE;
                && addr == p * PAGE_SIZE && 0x480_0000 <= addr && p < totalPages && p !in old(used)
                && used == old(used) + {p}
                && forall i :: 0 <= i < p ==> i in old(used)
    {
      hide BitmapIs;
      var i := nextFreeHint;
      while i < totalPages
        invariant unchanged(this) && unchanged(bitmap) && BitmapIs(bitmap[..], totalPages, used)
        invariant nextFreeHint <= i
        invariant forall k :: 0 <= k < i && k < totalPages ==> k in used
      {
        var taken := Test(i);
        if !taken {
          Mark(i);
          usedPages := usedPages + 1;
          nextFreeHint := i + 1;
          return i * PAGE_SIZE;
        }
        i := i + 1;
      }
      var wrapEnd := if nextFreeHint < totalPages then nextFreeHint else totalPages;
      i := 0;
      while i < wrapEnd
        invariant 0 <= i <= wrapEnd
        invariant unchanged(this) && unchanged(bitmap) && BitmapIs(bitmap[..], totalPages, used)
      {
        var taken := Test(i);
        if !taken {
          // every page below the hint is in use, so the wrap scan finds nothing
          assert false;
        }
        i := i + 1;
      }
      return PHYS_NULL;
    }

    /** Whether the address is a page start in range that is in use. */
    method OwnsPage(addr: nat) returns (owns: bool)
      requires Valid()
      ensures owns <==> addr != PHYS_NULL && addr % PAGE_SIZE == 0 && addr / PAGE_SIZE in used
    {
      if addr == PHYS_NULL || addr % PAGE_SIZE != 0 { return false; }
      if addr / PAGE_SIZE >= totalPages { return false; }
      owns := Test(addr / PAGE_SIZE);
    }

    /** The page a free request actually releases: aligned, in range, not low, in use. */
    ghost predicate Freeable(addr: nat)
      reads this
    {
      addr % PAGE_SIZE == 0 && 0x480_0000 <= addr && addr / PAGE_SIZE < totalPages && addr / PAGE_SIZE in used
    }

    /** Releases a page; null, unaligned, out-of-range, low and double frees are refused. */
    method FreePage(addr: nat)
      requires Valid()
      modifies this`usedPages, this`nextFreeHint, this`used, bitmap
      ensures Valid()
      ensures used == if old(Freeable(addr)) then old(used) - {addr / PAGE_SIZE} else old(used)
    {
      hide BitmapIs;
      if addr == PHYS_NULL { return; }
      if addr % PAGE_SIZE != 0 { return; }
      var bit := addr / PAGE_SIZE;
      if bit >= totalPages { return; }
      if addr < 0x4800000 { return; }
      var taken := Test(bit);
      if !taken { return; }
      Unmark(bit);
      if usedPages > 0 { usedPages := usedPages - 1; }
      if bit < nextFreeHint { nextFreeHint := bit; }
    }
  }

  /** `at` is where the bitmap goes: in the first region that can hold it. */
  ghost predicate Placed(regions: seq<Region>, bytes: nat, at: nat) {
    exists i :: 0 <= i < |regions| && Holds(regions[i], bytes, at)
                && forall j, x :: 0 <= j < i ==> !Holds(regions[j], bytes, x)
  }

  datatype Boot = Panic | Ready(pmm: Pmm, top: nat, at: nat)

  /**
    Boot. `Panic` stands for the two halts: no usable memory, and no region with room for
    the bitmap. Otherwise exactly the offered pages outside the kernel zone and outside
    the bitmap itself are free.
   */
  method InitDynamic(regions: seq<Region>) returns (r: Boot)
    ensures r.Panic? ==>
              || (forall x :: x in regions && x.usable ==> x.End() == 0)
              || exists top: nat :: IsHighest(regions, top)
                   && forall x, at :: x in regions ==> !Holds(x, BitmapBytes(top / PAGE_SIZE), at)
    ensures r.Ready? ==>
              && fresh(r.pmm) && fresh(r.pmm.bitmap) && r.pmm.Valid()
              && 0 < r.top && IsHighest(regions, r.top) && r.pmm.totalPages == r.top / PAGE_SIZE
              && Placed(regions, BitmapBytes(r.pmm.totalPages), r.at)
              && forall p {:trigger p in r.pmm.used} :: 0 <= p < r.pmm.totalPages ==>
                   (p !in r.pmm.used <==> FreeAtBoot(regions, r.pmm.totalPages, r.at, p))
  {
    hide BitmapIs, RoundUp, BitmapBytes, InUsable;
    var top := FindHighest(regions);
    if top == 0 { return Panic; }
    var pages := top / PAGE_SIZE;
    var found, at := PlaceBitmap(regions, BitmapBytes(pages));
    if !found { return Panic; }
    BitmapFits(pages);
    var pmm := new Pmm(BitmapBytes(pages), pages);
    for i := 0 to |regions|
      invariant fresh(pmm) && fresh(pmm.bitmap)
      invariant BitmapIs(pmm.bitmap[..], pages, pmm.used)
      invariant forall p {:trigger p in pmm.used} ::
                  p in pmm.used <==> 0 <= p < pages && !Offered(regions[..i], p)
    {
      assert regions[..i + 1] == regions[..i] + [regions[i]];
      pmm.FreeRegion(regions[i]);
    }
    assert regions[..|regions|] == regions;
    pmm.LockRange(0, LOW_PAGES);
    pmm.LockRange(at / PAGE_SIZE, BitmapBytes(pages) / PAGE_SIZE);
    pmm.usedPages := pmm.CountUsed();
    pmm.nextFreeHint := LOW_PAGES;
    return Ready(pmm, top, at);
  }
}
