/** The boot page tables, before and while the kernel half is filled in. */
module PagingBoot {
  import opened PageTables
  import opened PagingSteps

  /** One root, whose kernel slots below `n` are all present. */
  ghost predicate Boot(vm: Vm, n: nat) {
    && Sized(vm.mem) && vm.total <= |vm.mem|
    && Places(vm) && Linked(vm) && Separate(vm)
    && vm.roots == {vm.kernel} && vm.kernel != 0 && Pml4(vm.kernel) in vm.frameOf
    && (forall i: Index {:trigger Cell(vm.mem, vm.kernel, i)} ::
          !Cell(vm.mem, vm.kernel, i).Huge() && (KERNEL_SLOT <= i < n ==> Cell(vm.mem, vm.kernel, i).Present()))
  }

  lemma BootIsTables(vm: Vm)
    requires Boot(vm, ENTRIES)
    ensures Tables(vm)
    ensures (forall p :: p in vm.frameOf ==> p.root == vm.kernel) && Exclusive(vm)
  {
    hide Linked, Separate;
    forall p | p in vm.frameOf ensures p.root == vm.kernel { assert PlaceOk(vm, p); }
  }

  /** The new table reaches no other place's frame. */
  lemma BootSetup(vm: Vm, i: Index, f: nat)
    requires Boot(vm, i) && KERNEL_SLOT <= i && !Entry(vm, Pml4(vm.kernel), i).Present()
    requires Managed(vm, f) && f !in vm.used
    ensures f < |vm.mem| && vm.frameOf[Pml4(vm.kernel)] == vm.kernel < |vm.mem|
    ensures Pdpt(vm.kernel, i) !in vm.frameOf
    ensures forall q :: q in vm.frameOf ==> vm.frameOf[q] != f && q.root == vm.kernel
    ensures forall q :: q in vm.frameOf ==> q.Up() != Pdpt(vm.kernel, i)
  {
    hide Separate;
    assert PlaceOk(vm, Pml4(vm.kernel));
    assert LinkOk(vm, Pml4(vm.kernel), i);
    forall q | q in vm.frameOf
      ensures vm.frameOf[q] != f && q.root == vm.kernel
      ensures q.Up() != Pdpt(vm.kernel, i)
    {
      assert PlaceOk(vm, q);
    }
  }

  lemma BootInstallEntries(vm: Vm, i: Index, f: nat)
    requires Boot(vm, i) && KERNEL_SLOT <= i && !Entry(vm, Pml4(vm.kernel), i).Present()
    requires Managed(vm, f) && f !in vm.used
    ensures f < |vm.mem| && vm.frameOf[Pml4(vm.kernel)] < |vm.mem|
    ensures HasNewTable(vm, Installed(vm, Pml4(vm.kernel), i, f), Pml4(vm.kernel), i, f)
  {
    BootSetup(vm, i, f);
    var p := Pml4(vm.kernel);
    CellOfZeroed(vm.mem, f);
    CellOfPut(Zeroed(vm.mem, f), vm.frameOf[p], i, TableLink(f));
    var w := Installed(vm, p, i, f);
    hide Cell, Put, Zeroed, Linked, Places;
    forall q, j | q in w.frameOf && 0 <= j < ENTRIES
      ensures Entry(w, q, j) == if q == Child(vm.kernel, p, i) then NoPte else if q == p && j == i then TableLink(f) else Entry(vm, q, j)
    {
      if q != Child(vm.kernel, p, i) && q != p { assert Apart(vm, p, q); }
    }
  }

  lemma BootInstall(vm: Vm, w: Vm, i: Index, f: nat)
    requires Boot(vm, i) && KERNEL_SLOT <= i && !Entry(vm, Pml4(vm.kernel), i).Present()
    requires Managed(vm, f) && f !in vm.used && HasNewTable(vm, w, Pml4(vm.kernel), i, f)
    ensures Boot(w, i + 1)
  {
    BootSetup(vm, i, f);
    BootInstallLinked(vm, w, i, f);
    hide Linked;
    var p := Pml4(vm.kernel);
    assert PlaceOk(vm, p);
    forall q | q in w.frameOf ensures PlaceOk(w, q) {
      if q in vm.frameOf { assert PlaceOk(vm, q); }
    }
    forall q, s | q in w.frameOf && s in w.frameOf && q != s ensures Apart(w, q, s) {
      if q in vm.frameOf && s in vm.frameOf { assert Apart(vm, q, s); }
    }
    forall j: Index
      ensures !Cell(w.mem, w.kernel, j).Huge() && (KERNEL_SLOT <= j < i + 1 ==> Cell(w.mem, w.kernel, j).Present())
    {
      assert Entry(w, p, j) == if j == i then TableLink(f) else Entry(vm, p, j);
      assert Entry(vm, p, j) == Cell(vm.mem, vm.kernel, j);
    }
  }

  lemma BootInstallLinked(vm: Vm, w: Vm, i: Index, f: nat)
    requires Boot(vm, i) && KERNEL_SLOT <= i && !Entry(vm, Pml4(vm.kernel), i).Present()
    requires Managed(vm, f) && f !in vm.used && HasNewTable(vm, w, Pml4(vm.kernel), i, f)
    ensures Linked(w)
  {
    BootSetup(vm, i, f);
    hide Places, Separate, Cell;
    var p, c := Pml4(vm.kernel), Pdpt(vm.kernel, i);
    forall q, j: Index | q in w.frameOf && q.Depth() < 3 ensures LinkOk(w, q, j) {
      if q == c {
        assert Entry(w, q, j) == NoPte;
        assert Child(vm.kernel, c, j) !in vm.frameOf || Child(vm.kernel, c, j).Up() == c;
      } else if q == p && j == i {
        assert Entry(w, q, j) == TableLink(f);
      } else {
        assert LinkOk(vm, q, j);
        assert Entry(w, q, j) == Entry(vm, q, j);
      }
    }
  }

  lemma BootSkip(vm: Vm, i: Index)
    requires Boot(vm, i) && KERNEL_SLOT <= i && Cell(vm.mem, vm.kernel, i).Present()
    ensures Boot(vm, i + 1)
  {
    hide Places, Linked, Separate;
  }

  /** Only absent kernel slots of the root were filled, with empty tables. */
  ghost predicate Prefilled(vm: Vm, w: Vm) {
    && w.kernel == vm.kernel && w.total == vm.total && w.roots == vm.roots && |w.mem| == |vm.mem| && vm.used <= w.used
    && (forall q {:trigger q in w.frameOf} :: q in w.frameOf ==>
          || (q in vm.frameOf && w.frameOf[q] == vm.frameOf[q])
          || (q.Pdpt? && q.root == vm.kernel && q.i4 >= KERNEL_SLOT && !Entry(vm, Pml4(vm.kernel), q.i4).Present()
              && forall j: nat {:trigger Entry(w, q, j)} :: j < ENTRIES ==> Entry(w, q, j) == NoPte))
    && (forall q {:trigger q in vm.frameOf} :: q in vm.frameOf ==> q in w.frameOf && w.frameOf[q] == vm.frameOf[q])
    && (forall q, j: nat {:trigger Entry(w, q, j)} :: q in vm.frameOf && j < ENTRIES ==>
          Entry(w, q, j) == Entry(vm, q, j)
          || (q == Pml4(vm.kernel) && j >= KERNEL_SLOT && !Entry(vm, q, j).Present()))
  }

  lemma PrefillStep(vm: Vm, v: Vm, w: Vm, i: Index, f: nat)
    requires Prefilled(vm, v) && Pml4(vm.kernel) in vm.frameOf && i >= KERNEL_SLOT
    requires Boot(v, i) && !Entry(v, Pml4(v.kernel), i).Present() && Managed(v, f) && f !in v.used
    requires HasNewTable(v, w, Pml4(vm.kernel), i, f)
    ensures Prefilled(vm, w)
  {
    BootSetup(v, i, f);
    hide Cell, Boot;
    var p, c := Pml4(vm.kernel), Pdpt(vm.kernel, i);
    assert !Entry(vm, p, i).Present() by { assert Entry(v, p, i) == Entry(v, p, i); }
    forall q | q in w.frameOf
      ensures || (q in vm.frameOf && w.frameOf[q] == vm.frameOf[q])
              || (q.Pdpt? && q.root == vm.kernel && q.i4 >= KERNEL_SLOT && !Entry(vm, Pml4(vm.kernel), q.i4).Present()
                  && forall j: nat {:trigger Entry(w, q, j)} :: j < ENTRIES ==> Entry(w, q, j) == NoPte)
    {
      if q != c {
        assert q in v.frameOf && w.frameOf[q] == v.frameOf[q];
        if q !in vm.frameOf {
          forall j: nat | j < ENTRIES ensures Entry(w, q, j) == NoPte {
            assert q != p;
            assert Entry(v, q, j) == NoPte;
          }
        }
      }
    }
    forall q, j: nat | q in vm.frameOf && j < ENTRIES
      ensures Entry(w, q, j) == Entry(vm, q, j) || (q == p && j >= KERNEL_SLOT && !Entry(vm, q, j).Present())
    {
      assert q in v.frameOf && q != c;
      assert Entry(v, q, j) == Entry(v, q, j);
    }
  }

  /** Filling the kernel half maps nothing and unmaps nothing. */
  lemma PrefillKeepsTranslations(vm: Vm, w: Vm, pg: Page)
    requires Prefilled(vm, w) && Tables(w) && Linked(vm)
    requires Pml4(vm.kernel) in vm.frameOf && vm.frameOf[Pml4(vm.kernel)] == vm.kernel
    ensures Translate(vm.mem, w.kernel, pg) == Translate(w.mem, w.kernel, pg)
  {
    var k, p := vm.kernel, Pml4(vm.kernel);
    assert RootOk(w, k, pg.i4);
    assert LinkOk(vm, p, pg.i4);
    if Entry(w, p, pg.i4) != Entry(vm, p, pg.i4) {
      assert LinkOk(w, p, pg.i4);
      TranslateIs(w, k, pg, 1);
      hide Tables, Cell, InHuge, Linked;
      assert Entry(w, Pdpt(k, pg.i4), pg.i3) == NoPte;
    } else {
      hide Tables, Cell, Linked;
      forall d: nat | d <= 3 && On(k, k, pg, d) in w.frameOf
        ensures Cell(vm.mem, w.frameOf[On(k, k, pg, d)], pg.At(d)) == Entry(w, On(k, k, pg, d), pg.At(d))
      {
        var q := On(k, k, pg, d);
        assert Entry(w, q, pg.At(d)) == Entry(w, q, pg.At(d));
      }
      TranslateSame(w, vm.mem, k, pg);
    }
  }

  lemma BootFacts(vm: Vm, n: nat)
    requires Boot(vm, n)
    ensures Sized(vm.mem) && vm.total <= |vm.mem| && vm.kernel < |vm.mem| && Linked(vm) && Prefilled(vm, vm)
    ensures Pml4(vm.kernel) in vm.frameOf && vm.frameOf[Pml4(vm.kernel)] == vm.kernel
  {
    assert PlaceOk(vm, Pml4(vm.kernel));
  }

  lemma BootFills(vm: Vm, v: Vm, i: Index, f: nat)
    requires Prefilled(vm, v) && Pml4(vm.kernel) in vm.frameOf && i >= KERNEL_SLOT
    requires Boot(v, i) && !Entry(v, Pml4(v.kernel), i).Present() && Managed(v, f) && f !in v.used
    ensures Sized(v.mem) && f < |v.mem| && Pml4(v.kernel) in v.frameOf && v.frameOf[Pml4(v.kernel)] < |v.mem|
    ensures |Zeroed(v.mem, f)| == |v.mem| && Sized(Zeroed(v.mem, f))
    ensures var w := Installed(v, Pml4(v.kernel), i, f); Boot(w, i + 1) && Prefilled(vm, w)
  {
    BootInstallEntries(v, i, f);
    CellOfZeroed(v.mem, f);
    var w := Installed(v, Pml4(v.kernel), i, f);
    hide Boot, HasNewTable, Prefilled;
    BootInstall(v, w, i, f);
    PrefillStep(vm, v, w, i, f);
  }

  /** The least boot state: an empty PML4 in frame `k`, all other memory blank. */
  lemma MinimalBoot(frames: nat, total: nat, used: set<nat>, k: nat)
    requires 0 < k < frames && total <= frames && (LOW_FRAMES <= k < total ==> k in used)
    ensures Boot(Vm(seq(frames, _ => Blank()), total, used, k, {k}, map[Pml4(k) := k]), KERNEL_SLOT)
  {
    var vm := Vm(seq(frames, _ => Blank()), total, used, k, {k}, map[Pml4(k) := k]);
    forall p | p in vm.frameOf ensures PlaceOk(vm, p) {
    }
    forall p, i: Index | p in vm.frameOf && p.Depth() < 3 ensures LinkOk(vm, p, i) {
      assert Entry(vm, p, i) == NoPte;
    }
  }
}
