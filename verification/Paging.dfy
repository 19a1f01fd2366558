/** The virtual memory manager: page tables changed in place over the page allocator. */
module Paging {
  import opened PageTables
  import opened PagingSteps
  import opened PagingSpaces
  import opened PagingOps
  import opened PagingTeardown
  import opened PagingBoot
  import PageAllocator

  class Vmm {
    const pmm: PageAllocator.Pmm
    const kernel: nat
    var mem: Memory
    ghost var roots: set<nat>
    ghost var frameOf: map<Place, nat>

    constructor (pmm: PageAllocator.Pmm, mem: Memory, kernel: nat, ghost boot: map<Place, nat>)
      ensures this.pmm == pmm && this.mem == mem && this.kernel == kernel
      ensures roots == {kernel} && frameOf == boot
    {
      this.pmm, this.mem, this.kernel := pmm, mem, kernel;
      roots, frameOf := {kernel}, boot;
    }

    ghost function St(): Vm
      reads this, pmm
    {
      Vm(mem, pmm.totalPages, pmm.used, kernel, roots, frameOf)
    }

    ghost predicate Valid()
      reads this, pmm, pmm.bitmap
    {
      pmm.Valid() && Tables(St())
    }

    /** Fills every absent kernel slot of the boot PML4; `false` stands for the panic. */
    method Init() returns (ok: bool)
      requires pmm.Valid() && Boot(St(), KERNEL_SLOT)
      modifies this`mem, this`frameOf, pmm, pmm.bitmap
      ensures pmm.Valid()
      ensures !ok ==> NoneFree(St())
      ensures ok ==> Valid() && Sound(St()) && Prefilled(old(St()), St())
      ensures ok ==> forall pg {:trigger Translate(mem, kernel, pg)} ::
                       Translate(mem, kernel, pg) == Translate(old(mem), kernel, pg)
    {
      hide Boot, PageAllocator.BitmapIs, Prefilled, Put, Zeroed, Cell, Translate, NoneFree;
      ghost var vm := St();
      BootFacts(vm, KERNEL_SLOT);
      for i := 256 to 512
        invariant pmm.Valid() && Boot(St(), i) && Prefilled(vm, St())
      {
        BootFacts(St(), i);
        if Cell(mem, kernel, i).Present() {
          BootSkip(St(), i);
        } else {
          ghost var v := St();
          var f := AllocTable();
          if f == 0 { return false; }
          BootInstallEntries(v, i, f);
          BootFills(vm, v, i, f);
          mem := Put(mem, kernel, i, TableLink(f));
          frameOf := frameOf[Child(kernel, Pml4(kernel), i) := f];
          assert St() == Installed(v, Pml4(kernel), i, f);
        }
      }
      BootIsTables(St());
      forall pg ensures Translate(mem, kernel, pg) == Translate(vm.mem, kernel, pg) {
        PrefillKeepsTranslations(vm, St(), pg);
      }
      return true;
    }

    /** A zeroed frame, or 0 when the allocator has none. */
    method AllocTable() returns (f: nat)
      requires pmm.Valid() && Sized(mem) && pmm.totalPages <= |mem|
      modifies this`mem, pmm, pmm.bitmap
      ensures pmm.Valid()
      ensures f == 0 ==> St() == old(St()) && NoneFree(St())
      ensures f != 0 ==> Managed(old(St()), f) && f !in old(pmm.used) && pmm.used == old(pmm.used) + {f}
                         && mem == Zeroed(old(mem), f)
    {
      hide PageAllocator.BitmapIs;
      var addr := pmm.AllocPage();
      if addr == PageAllocator.PHYS_NULL { return 0; }
      f := addr / PageAllocator.PAGE_SIZE;
      mem := Zeroed(mem, f);
    }

    /** One level of a map's walk. */
    method Level(ghost p: Place, table: nat, i: Index, d: nat) returns (next: nat, ok: bool)
      requires Valid() && p in frameOf && frameOf[p] == table && p.Depth() == d < 3
      modifies this`mem, this`frameOf, pmm, pmm.bitmap
      ensures Valid() && LevelResult(old(St()), St(), p, i, next, ok)
    {
      hide Tables, Zeroed, Put, Cell, PageAllocator.BitmapIs, LevelResult, NoneFree;
      ghost var vm := St();
      TablesSized(vm, p);
      var e := Cell(mem, table, i);
      if d > 0 && e.Huge() {
        LevelStops(vm, p, i);
        return 0, false;
      }
      if !e.Present() {
        var f := AllocTable();
        if f == 0 {
          LevelStops(vm, p, i);
          return 0, false;
        }
        LevelInstalls(vm, p, i, f);
        mem := Put(mem, table, i, TableLink(f));
        frameOf := frameOf[Child(kernel, p, i) := f];
        assert St() == Installed(vm, p, i, f);
      } else {
        LevelPresent(vm, p, i);
      }
      next := Cell(mem, table, i).frame;
      return next, true;
    }

    /** Maps one 4 KB page; a failure changes no translation. */
    method MapInto(va: nat, paddr: nat, flags: nat, target: nat) returns (ok: bool)
      requires Valid() && flags < 4096 && (target != 0 ==> target in roots)
      modifies this`mem, this`frameOf, pmm, pmm.bitmap
      ensures Valid()
      ensures target == 0 ==> !ok && St() == old(St())
      ensures target != 0 ==> MapResult(old(St()), St(), target, PageOf(va), Pte(paddr / 4096, flags), ok)
    {
      hide Tables, LevelResult, Grown, HugeAt, MapResult, PageAllocator.BitmapIs, On, Owner, PageOf, Translate;
      if target == 0 { return false; }
      ghost var vm := St();
      var pg := PageOf(va);
      ghost var e := Pte(paddr / 4096, flags);
      RootPlace(vm, target);
      GrownReflexive(vm, Owner(vm, target, pg));
      var pdpt, ok1 := Level(On(kernel, target, pg, 0), target, pg.i4, 0);
      ghost var v1 := St();
      MapLevel(vm, vm, v1, target, pg, e, 0, pdpt, ok1);
      if !ok1 { return false; }
      var pd, ok2 := Level(On(kernel, target, pg, 1), pdpt, pg.i3, 1);
      ghost var v2 := St();
      MapLevel(vm, v1, v2, target, pg, e, 1, pd, ok2);
      if !ok2 { return false; }
      var pt, ok3 := Level(On(kernel, target, pg, 2), pd, pg.i2, 2);
      ghost var v3 := St();
      MapLevel(vm, v2, v3, target, pg, e, 2, pt, ok3);
      if !ok3 { return false; }
      WriteHasEntry(v3, On(kernel, target, pg, 3), pg.i1, e);
      mem := Put(mem, pt, pg.i1, Pte(paddr / 4096, flags));
      MapStores(vm, v3, St(), target, pg, e);
      return true;
    }

    /** The PML4 meant by a target of 0 is the kernel's. */
    function RootOf(target: nat): nat {
      if target != 0 then target else kernel
    }

    /** Whether the address is mapped at all, by a page of any size. */
    method IsMapped(va: nat, target: nat) returns (yes: bool)
      requires Valid() && RootOf(target) in roots
      ensures yes <==> Translate(mem, RootOf(target), PageOf(va)).Some?
    {
      ghost var vm := St();
      var r := RootOf(target);
      var pg := PageOf(va);
      RootPlace(vm, r);
      hide PageOf, Tables, SmallPage, InHuge, On;
      var e4 := Cell(mem, r, pg.i4);
      if !e4.Present() { StoppedWalk(vm, r, pg, 0); return false; }
      WalkStep(vm, r, pg, 0);
      RootNotHuge(vm, r, pg.i4);
      var e3 := Cell(mem, e4.frame, pg.i3);
      if !e3.Present() { StoppedWalk(vm, r, pg, 1); return false; }
      if e3.Huge() { StoppedWalk(vm, r, pg, 1); return true; }
      WalkStep(vm, r, pg, 1);
      var e2 := Cell(mem, e3.frame, pg.i2);
      if !e2.Present() { StoppedWalk(vm, r, pg, 2); return false; }
      if e2.Huge() { StoppedWalk(vm, r, pg, 2); return true; }
      WalkStep(vm, r, pg, 2);
      TranslateIs(vm, r, pg, 3);
      return Cell(mem, e2.frame, pg.i1).Present();
    }

    /** Removes a 4 KB mapping and returns the physical address it had; 0 when there is none. */
    method UnmapFrom(va: nat, target: nat) returns (addr: nat)
      requires Valid() && RootOf(target) in roots
      modifies this`mem
      ensures Valid() && UnmapResult(old(St()), St(), RootOf(target), PageOf(va), addr)
    {
      hide PageOf, Tables, SmallPage, InHuge, On, PageAllocator.BitmapIs, Translate;
      ghost var vm := St();
      var r := RootOf(target);
      var pg := PageOf(va);
      RootPlace(vm, r);
      var e4 := Cell(mem, r, pg.i4);
      if !e4.Present() { StoppedWalk(vm, r, pg, 0); return 0; }
      WalkStep(vm, r, pg, 0);
      RootNotHuge(vm, r, pg.i4);
      var e3 := Cell(mem, e4.frame, pg.i3);
      if !e3.Present() || e3.Huge() { StoppedWalk(vm, r, pg, 1); return 0; }
      WalkStep(vm, r, pg, 1);
      var e2 := Cell(mem, e3.frame, pg.i2);
      if !e2.Present() || e2.Huge() { StoppedWalk(vm, r, pg, 2); return 0; }
      WalkStep(vm, r, pg, 2);
      var e1 := Cell(mem, e2.frame, pg.i1);
      SmallIs(vm, r, pg);
      if !e1.Present() { return 0; }
      WriteHasEntry(vm, On(kernel, r, pg, 3), pg.i1, NoPte);
      UnmapStores(vm, vm.(mem := Put(mem, e2.frame, pg.i1, NoPte)), r, pg);
      mem := Put(mem, e2.frame, pg.i1, NoPte);
      return e1.frame * 4096;
    }

    /** Takes a frame from the allocator and maps it; hands it back when the map fails. */
    method AllocAndMap(va: nat, flags: nat, root: nat) returns (ok: bool, paddr: nat)
      requires Valid() && Sound(St()) && flags < 4096 && root in roots && root != 0
      modifies this`mem, this`frameOf, pmm, pmm.bitmap
      ensures Valid() && AllocResult(old(St()), St(), root, PageOf(va), flags, paddr / 4096, ok)
    {
      hide Tables, Exclusive, PageOf, PageAllocator.BitmapIs, MapResult, AllocResult, Collides, OnlySpace, PagesSame, PrivateKept, NoNewHuge, SameTranslations, Translate;
      ghost var vm := St();
      paddr := pmm.AllocPage();
      if paddr == PageAllocator.PHYS_NULL {
        NothingAllocated(vm, root, PageOf(va), flags);
        return false, paddr;
      }
      ghost var f := paddr / 4096;
      TakenKeepsSound(vm, f);
      ok := MapInto(va, paddr, flags, root);
      if !ok {
        AllocGivesBack(vm, St(), root, PageOf(va), flags, f);
        ghost var w := St();
        pmm.FreePage(paddr);
        assert St() == Freed(w, f);
        return false, paddr;
      }
      AllocSucceeds(vm, St(), root, PageOf(va), flags, f);
    }

    /** The same for a target of 0, which means the kernel's PML4. */
    method AllocInto(va: nat, flags: nat, target: nat) returns (ok: bool, ghost frame: nat)
      requires Valid() && Sound(St()) && flags < 4096 && RootOf(target) in roots
      modifies this`mem, this`frameOf, pmm, pmm.bitmap
      ensures Valid() && AllocResult(old(St()), St(), RootOf(target), PageOf(va), flags, frame, ok)
    {
      RootPlace(St(), kernel);
      hide Tables, Exclusive, PageOf, PageAllocator.BitmapIs, AllocResult;
      var paddr;
      ok, paddr := AllocAndMap(va, flags, RootOf(target));
      frame := paddr / 4096;
    }

    /** A new address space sharing the kernel half, or 0. */
    method Create() returns (root: nat)
      requires Valid()
      modifies this, pmm, pmm.bitmap
      ensures Valid() && CreateResult(old(St()), St(), root)
    {
      hide PageAllocator.BitmapIs, Cloning, CreateResult;
      ghost var vm := St();
      RootPlace(vm, kernel);
      root := AllocTable();
      if root == 0 { 
        assert CreateResult(vm, St(), 0) by { CreatedNothing(vm); }
        return; 
      }
      FreshFrame(vm, root);
      CloningStarts(vm.mem, kernel, root);
      hide Tables, Cell, Put, Zeroed;
      for i := 256 to 512
        invariant pmm.Valid() && pmm.used == vm.used + {root} && roots == vm.roots && frameOf == vm.frameOf
        invariant Sized(mem) && |mem| == |vm.mem| && Cloning(vm.mem, mem, kernel, root, i)
      {
        CloningStep(vm.mem, mem, kernel, root, i);
        CellOfPut(mem, root, i, Cell(mem, kernel, i));
        mem := Put(mem, root, i, Cell(mem, kernel, i));
      }
      roots, frameOf := roots + {root}, frameOf[Pml4(root) := root];
      CloneIsNewRoot(vm, St(), root);
    }

    /** Gives a frame back if the allocator owns it. */
    method Release(f: nat)
      requires pmm.Valid()
      modifies pmm, pmm.bitmap
      ensures pmm.Valid() && pmm.used == Freed(old(St()), f).used
    {
      hide PageAllocator.BitmapIs;
      var owns := pmm.OwnsPage(f * 4096);
      if owns { pmm.FreePage(f * 4096); }
    }

    /**
      Empties one user table: pages are given back, large pages dropped, and the tables
      below emptied, given back and unlinked. At depth 0 only the user slots are visited.
     */
    method EmptyTable(ghost p: Place, table: nat, d: nat)
      requires Valid() && Sound(St()) && p in frameOf && frameOf[p] == table && p.root != kernel && p.Depth() == d
      modifies this`mem, this`frameOf, pmm, pmm.bitmap
      ensures Valid() && Emptied(old(St()), St(), p, if d == 0 then 256 else 512)
      decreases 3 - d, 1
    {
      ghost var vm := St();
      EmptiedNone(vm, p);
      for i := 0 to if d == 0 then 256 else 512
        invariant Valid() && Emptied(vm, St(), p, i)
      {
        EmptySlot(vm, p, table, i, d);
      }
    }

    method EmptySlot(ghost vm: Vm, ghost p: Place, table: nat, i: Index, d: nat)
      requires Valid() && Emptied(vm, St(), p, i) && frameOf[p] == table && p.Depth() == d
      requires d == 0 ==> i < 256
      modifies this`mem, this`frameOf, pmm, pmm.bitmap
      ensures Valid() && Emptied(vm, St(), p, i + 1)
      decreases 3 - d, 0
    {
      ghost var v := St();
      hide Tables, Exclusive, OnlySpace, Untouched, PageAllocator.BitmapIs, Put, Cell;
      var e := Cell(mem, table, i);
      if !e.Present() {
        EmptiedSkip(vm, v, p, i);
        return;
      }
      if d == 3 {
        WriteHasEntry(v, p, i, NoPte);
        Release(e.frame);
        mem := Put(mem, table, i, NoPte);
        UnmapOnlySpace(v, v.(mem := mem), St(), p, i);
        ClearedLeaf(v, v.(mem := mem), St(), p, i, e.frame);
        EmptiedClear(vm, v, St(), p, i);
      } else if e.Huge() {
        HugeIsBelowRoot(v, p, i);
        WriteHasEntry(v, p, i, NoPte);
        mem := Put(mem, table, i, NoPte);
        ClearHugeOnlySpace(v, St(), p, i);
        EmptiedClear(vm, v, St(), p, i);
      } else {
        ghost var c := Child(kernel, p, i);
        LevelLinked(v, p, i);
        ChildInside(kernel, p, i, p);
        EmptyTable(c, e.frame, d + 1);
        ghost var u := St();
        SubtreeEmptied(v, u, p, c);
        DropLostTable(u, c);
        Release(e.frame);
        mem := Put(mem, table, i, NoPte);
        frameOf := frameOf - {c};
        assert St() == Freed(u, u.frameOf[c]).(mem := Put(u.mem, u.frameOf[c.Up()], c.Slot(), NoPte), frameOf := u.frameOf - {c});
        EmptiedSubtree(vm, v, u, St(), p, i);
      }
    }

    /** Tears the user half down and optionally gives the root back. */
    method Destroy(target: nat, freePml4: bool)
      requires Valid() && Sound(St()) && (target != 0 ==> target in roots && target != kernel)
      modifies this, pmm, pmm.bitmap
      ensures Valid()
      ensures target == 0 ==> St() == old(St())
      ensures target != 0 ==> DestroyResult(old(St()), St(), target, freePml4)
    {
      hide Tables, Exclusive, OnlySpace, Untouched, PageAllocator.BitmapIs, Emptied, DestroyResult;
      if target == 0 { return; }
      ghost var vm := St();
      RootPlace(vm, target);
      EmptyTable(Pml4(target), target, 0);
      ghost var v := St();
      if freePml4 {
        DestroyFreesRoot(vm, v, target);
        Release(target);
        roots, frameOf := roots - {target}, frameOf - {Pml4(target)};
        assert St() == WithoutRoot(v, target);
        DestroyedIsSound(vm, St(), target, true);
      } else {
        DestroyKeepsRoot(vm, v, target);
      }
    }
  }

  lemma RootPlace(vm: Vm, r: nat)
    requires Tables(vm) && r in vm.roots
    ensures Pml4(r) in vm.frameOf && vm.frameOf[Pml4(r)] == r
    ensures forall pg {:trigger On(vm.kernel, r, pg, 0)} :: On(vm.kernel, r, pg, 0) == Pml4(r)
    ensures forall k, s, pg: Page, d {:trigger On(k, s, pg, d)} :: 0 <= k && 0 <= s && 0 <= d <= 3 ==> On(k, s, pg, d).Depth() == d
  {
    assert PlaceOk(vm, Pml4(r));
  }

  /** What one level of a map adds to the levels before it. */
  lemma MapLevel(vm: Vm, v: Vm, w: Vm, r: nat, pg: Page, e: Pte, d: nat, next: nat, ok: bool)
    requires Tables(v) && Grown(vm, v, Owner(vm, r, pg)) && r in vm.roots && d < 3
    requires On(vm.kernel, r, pg, d) in v.frameOf && |v.used| <= |vm.used| + d
    requires LevelResult(v, w, On(vm.kernel, r, pg, d), pg.At(d), next, ok)
    requires forall c: nat {:trigger HugeAt(v, r, pg, c)} :: d <= c < 3 ==> (HugeAt(v, r, pg, c) <==> HugeAt(vm, r, pg, c))
    ensures !ok ==> MapResult(vm, w, r, pg, e, false)
    ensures ok ==> Grown(vm, w, Owner(vm, r, pg)) && On(w.kernel, r, pg, d + 1) in w.frameOf
                   && next == w.frameOf[On(w.kernel, r, pg, d + 1)] && w.kernel == vm.kernel && w.roots == vm.roots
                   && (d > 0 ==> !HugeAt(vm, r, pg, d)) && |w.used| <= |vm.used| + d + 1
    ensures ok ==> forall c: nat {:trigger HugeAt(w, r, pg, c)} :: d + 1 <= c < 3 ==>
                     (HugeAt(w, r, pg, c) <==> HugeAt(vm, r, pg, c))
  {
    LevelGrowsOn(v, w, r, pg, d, next, ok);
    LevelTakesOne(v, w, On(vm.kernel, r, pg, d), pg.At(d), next, ok);
    GrownTransitive(vm, v, w, Owner(vm, r, pg));
    forall c: nat | d + 1 <= c < 3 ensures HugeAt(w, r, pg, c) <==> HugeAt(vm, r, pg, c) {
      LevelKeepsHuge(v, w, r, pg, d, next, ok, c);
    }
    assert HugeAt(v, r, pg, d) <==> HugeAt(vm, r, pg, d);
    ChildOn(vm.kernel, r, pg, d);
    hide Tables, Grown, Translate, Exclusive, OnlySpace, Private;
    if !ok { MapFails(vm, w, r, pg, e); }
  }

  lemma RootNotHuge(vm: Vm, r: nat, i: Index)
    requires Tables(vm) && r in vm.roots
    ensures !Cell(vm.mem, r, i).Huge()
  {
    assert RootOk(vm, r, i);
  }

  lemma SmallIs(vm: Vm, r: nat, pg: Page)
    requires On(vm.kernel, r, pg, 3) in vm.frameOf
    ensures SmallPage(vm, r, pg) <==> Entry(vm, On(vm.kernel, r, pg, 3), pg.i1).Present()
  {
  }

  lemma NothingAllocated(vm: Vm, r: nat, pg: Page, flags: nat)
    requires Sound(vm) && NoneFree(vm)
    ensures AllocResult(vm, vm, r, pg, flags, 0, false)
  {
    OnlySpaceReflexive(vm, Owner(vm, r, pg));
  }

  lemma AllocGivesBack(vm: Vm, w: Vm, r: nat, pg: Page, flags: nat, f: nat)
    requires Sound(vm) && Managed(vm, f) && f !in vm.used && r in vm.roots
    requires MapResult(Taken(vm, f), w, r, pg, Pte(f, flags), false)
    ensures AllocResult(vm, Freed(w, f), r, pg, flags, f, false) && Tables(Freed(w, f))
  {
    hide Tables, Exclusive, MapResult, AllocResult, Collides, OnlySpace, PagesSame, PrivateKept, NoNewHuge, SameTranslations, NewAreTables, TablesKept, OnlyFree;
    AllocFails(vm, w, r, pg, flags, f);
    AllocFailed(vm, Freed(w, f), r, pg, flags, f);
  }

  lemma AllocFailed(vm: Vm, w: Vm, r: nat, pg: Page, flags: nat, f: nat)
    requires Sound(w) && SameSpaces(vm, w) && SameTranslations(vm, w) && OnlySpace(vm, w, Owner(vm, r, pg))
    requires PagesSame(vm, w) && vm.used <= w.used && PrivateKept(vm, w) && NewAreTables(vm, w, Owner(vm, r, pg)) && TablesKept(vm, w)
    requires Collides(vm, r, pg) || OnlyFree(w, f)
    requires |w.used| <= |vm.used| + 4 && NoNewHuge(vm, w)
    ensures AllocResult(vm, w, r, pg, flags, f, false)
  {
  }

  lemma CreatedNothing(vm: Vm)
    requires NoneFree(vm)
    ensures CreateResult(vm, vm, 0)
  {
  }

  lemma DestroyedIsSound(vm: Vm, w: Vm, r: nat, freeRoot: bool)
    requires DestroyResult(vm, w, r, freeRoot)
    ensures Tables(w)
  {
  }

  lemma HugeIsBelowRoot(v: Vm, p: Place, i: Index)
    requires Tables(v) && p in v.frameOf && Entry(v, p, i).Huge()
    ensures p.Depth() > 0
  {
    assert PlaceOk(v, p);
    if p.Pml4? { RootNotHuge(v, p.root, i); }
  }

  lemma ClearedLeaf(v: Vm, u: Vm, w: Vm, p: Place, i: Index, f: nat)
    requires HasEntry(v, u, p, i, NoPte) && w == Freed(u, f)
    ensures w.roots == v.roots && w.frameOf == v.frameOf
    ensures forall q, j: nat {:trigger Entry(w, q, j)} :: q in w.frameOf && j < ENTRIES ==>
              Entry(w, q, j) == if q == p && j == i then NoPte else Entry(v, q, j)
  {
    forall q, j: nat | q in w.frameOf && j < ENTRIES
      ensures Entry(w, q, j) == if q == p && j == i then NoPte else Entry(v, q, j)
    {
      assert Entry(w, q, j) == Entry(u, q, j);
    }
  }

  lemma SubtreeEmptied(v: Vm, u: Vm, p: Place, c: Place)
    requires Emptied(v, u, c, ENTRIES) && !Inside(p, c) && p in v.frameOf && c.Depth() > 0
    ensures CanDrop(u, c) && p in u.frameOf && u.frameOf[p] == v.frameOf[p] && u.frameOf[c] == v.frameOf[c]
    ensures Tables(u)
  {
    hide Tables, OnlySpace;
    assert p in u.frameOf <==> p in v.frameOf;
  }
}
