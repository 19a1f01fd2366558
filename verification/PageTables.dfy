/**
  Four-level page tables as values. Physical memory is a sequence of frames of
  512 entries; `Walk` is the hardware's translation. A ghost layout names every
  table by its place in its address space. Kernel tables (PML4 slots 256..511)
  have one place each, however many address spaces reach them.
 */
module PageTables {
  import opened Basics

  const ENTRIES: nat := 512
  const KERNEL_SLOT: nat := 256
  const LOW_FRAMES: nat := 0x4800000 / 4096

  type Index = i: nat | i < 512

  /** An entry: the frame it points to and its low twelve bits. */
  datatype Pte = Pte(frame: nat, flags: nat) {
    predicate Present() { flags % 2 == 1 }
    predicate Huge() { flags / 128 % 2 == 1 }
  }

  const NoPte: Pte := Pte(0, 0)

  /** Present, writable, user: what the kernel puts on every table it links. */
  function TableLink(f: nat): (e: Pte)
    ensures e.frame == f && e.Present() && !e.Huge() && e.flags / 2 % 2 == 1 && e.flags / 4 % 2 == 1
  {
    Pte(f, 7)
  }

  /** A virtual page, as the four table indices of its address. */
  datatype Page = Page(i4: Index, i3: Index, i2: Index, i1: Index) {
    function At(d: nat): Index {
      if d == 0 then i4 else if d == 1 then i3 else if d == 2 then i2 else i1
    }

    predicate Kernel() { i4 >= KERNEL_SLOT }
  }

  function PageOf(va: nat): Page {
    Page(va / 0x80_0000_0000 % 512, va / 0x4000_0000 % 512, va / 0x20_0000 % 512, va / 4096 % 512)
  }

  /** Where a table stands in the hierarchy of the address space rooted at `root`. */
  datatype Place =
    | Pml4(root: nat)
    | Pdpt(root: nat, i4: Index)
    | Pd(root: nat, i4: Index, i3: Index)
    | Pt(root: nat, i4: Index, i3: Index, i2: Index)
  {
    function Depth(): nat {
      match this case Pml4(_) => 0 case Pdpt(_, _) => 1 case Pd(_, _, _) => 2 case Pt(_, _, _, _) => 3
    }

    function Up(): Place {
      match this
      case Pml4(r) => this
      case Pdpt(r, a) => Pml4(r)
      case Pd(r, a, b) => Pdpt(r, a)
      case Pt(r, a, b, c) => Pd(r, a, b)
    }

    /** The slot of the parent table that links this one. */
    function Slot(): Index {
      match this case Pml4(_) => 0 case Pdpt(_, a) => a case Pd(_, _, b) => b case Pt(_, _, _, c) => c
    }
  }

  /** The table linked by slot `i` of `p`; kernel slots of every root lead to the kernel's table. */
  function Child(k: nat, p: Place, i: Index): Place {
    match p
    case Pml4(r) => Pdpt(if i >= KERNEL_SLOT then k else r, i)
    case Pdpt(r, a) => Pd(r, a, i)
    case Pd(r, a, b) => Pt(r, a, b, i)
    case Pt(_, _, _, _) => p
  }

  /** The table met at depth `d` when translating `pg` from root `r`. */
  function On(k: nat, r: nat, pg: Page, d: nat): Place {
    var owner := if pg.Kernel() then k else r;
    if d == 0 then Pml4(r)
    else if d == 1 then Pdpt(owner, pg.i4)
    else if d == 2 then Pd(owner, pg.i4, pg.i3)
    else Pt(owner, pg.i4, pg.i3, pg.i2)
  }

  type Memory = seq<seq<Pte>>

  function Cell(mem: Memory, f: nat, i: nat): Pte {
    if f < |mem| && i < |mem[f]| then mem[f][i] else NoPte
  }

  predicate Sized(mem: Memory) {
    forall f :: 0 <= f < |mem| ==> |mem[f]| == ENTRIES
  }

  function Put(mem: Memory, f: nat, i: nat, e: Pte): Memory
    requires f < |mem| && i < |mem[f]|
  {
    mem[f := mem[f][i := e]]
  }

  function Blank(): seq<Pte> { seq(ENTRIES, _ => NoPte) }

  function Zeroed(mem: Memory, f: nat): Memory
    requires f < |mem|
  {
    mem[f := Blank()]
  }

  /** An entry that leads to a further table. */
  predicate Links(e: Pte, d: nat) {
    e.Present() && !(d > 0 && e.Huge())
  }

  /** The 4 KB frame of `pg` inside a 1 GB (depth 1) or 2 MB (depth 2) page. */
  function InHuge(e: Pte, d: nat, pg: Page): nat {
    if d == 1 then e.frame / 0x40000 * 0x40000 + pg.i2 * 512 + pg.i1
    else e.frame / 512 * 512 + pg.i1
  }

  /**
    Inside a large page of `n` frames the frame number has the entry's upper bits and the page's
    lower ones: its pages are consecutive frames from a multiple of `n`.
   */
  lemma LargePageFrames(e: Pte, d: nat, pg: Page)
    requires d == 1 || d == 2
    ensures var n := if d == 1 then 0x4000_0000 / 4096 else 0x20_0000 / 4096;
            && InHuge(e, d, pg) / n == e.frame / n
            && InHuge(e, d, pg) % n == if d == 1 then pg.i2 * 512 + pg.i1 else pg.i1
  {
  }

  /** Translation from a table at depth `d`. */
  function Walk(mem: Memory, table: nat, d: nat, pg: Page): Option<Pte>
    requires d <= 3
    decreases 3 - d
  {
    var e := Cell(mem, table, pg.At(d));
    if !e.Present() then None
    else if d == 3 then Some(e)
    else if d > 0 && e.Huge() then Some(Pte(InHuge(e, d, pg), e.flags))
    else Walk(mem, e.frame, d + 1, pg)
  }

  function Translate(mem: Memory, root: nat, pg: Page): Option<Pte> {
    Walk(mem, root, 0, pg)
  }

  // ------------------------------------------------------------------- state

  /**
    `total` and `used` are the page allocator's; `kernel` is the boot PML4, `roots` the
    live PML4 frames and `frameOf` the frame of every table.
   */
  datatype Vm = Vm(mem: Memory, total: nat, used: set<nat>, kernel: nat, roots: set<nat>,
                   frameOf: map<Place, nat>)

  /** Frames the page allocator hands out and takes back. */
  predicate Managed(vm: Vm, f: nat) {
    LOW_FRAMES <= f < vm.total
  }

  function Entry(vm: Vm, p: Place, i: nat): Pte {
    if p in vm.frameOf then Cell(vm.mem, vm.frameOf[p], i) else NoPte
  }

  predicate PlaceOk(vm: Vm, p: Place)
    requires p in vm.frameOf
  {
    && p.root in vm.roots
    && vm.frameOf[p] < |vm.mem|
    && (Managed(vm, vm.frameOf[p]) ==> vm.frameOf[p] in vm.used)
    && (p.Pml4? ==> vm.frameOf[p] == p.root)
    && (!p.Pml4? ==> p.Up() in vm.frameOf && (p.root == vm.kernel || p.i4 < KERNEL_SLOT))
  }

  /** The slot links exactly the table the layout puts there. */
  predicate LinkOk(vm: Vm, p: Place, i: Index) {
    var c := Child(vm.kernel, p, i);
    && (Links(Entry(vm, p, i), p.Depth()) <==> c in vm.frameOf)
    && (c in vm.frameOf ==> Entry(vm, p, i).frame == vm.frameOf[c])
  }

  predicate Apart(vm: Vm, p: Place, q: Place)
    requires p in vm.frameOf && q in vm.frameOf
  {
    vm.frameOf[p] != vm.frameOf[q]
  }

  /** A PML4's kernel slots are the kernel's, all present; no slot is marked huge. */
  predicate RootOk(vm: Vm, r: nat, i: Index) {
    && !Cell(vm.mem, r, i).Huge()
    && (i >= KERNEL_SLOT ==> Cell(vm.mem, r, i) == Cell(vm.mem, vm.kernel, i)
                             && Cell(vm.mem, r, i).Present())
  }

  ghost predicate Places(vm: Vm) {
    forall p {:trigger PlaceOk(vm, p)} :: p in vm.frameOf ==> PlaceOk(vm, p)
  }

  ghost predicate Linked(vm: Vm) {
    forall p, i {:trigger LinkOk(vm, p, i)} :: p in vm.frameOf && p.Depth() < 3 ==> LinkOk(vm, p, i)
  }

  ghost predicate Separate(vm: Vm) {
    forall p, q {:trigger Apart(vm, p, q)} :: p in vm.frameOf && q in vm.frameOf && p != q ==> Apart(vm, p, q)
  }

  ghost predicate Roots(vm: Vm) {
    && vm.kernel in vm.roots && vm.kernel != 0
    && (forall r :: r in vm.roots ==> Pml4(r) in vm.frameOf)
    && (forall r, i {:trigger RootOk(vm, r, i)} :: r in vm.roots ==> RootOk(vm, r, i))
  }

  /** The structure every operation keeps. */
  ghost predicate Tables(vm: Vm) {
    && Sized(vm.mem) && vm.total <= |vm.mem|
    && Places(vm) && Linked(vm) && Separate(vm) && Roots(vm)
  }

  /** A present 4 KB entry of a user address space whose frame the allocator manages. */
  predicate UserLeaf(vm: Vm, p: Place, i: Index) {
    && p in vm.frameOf && p.Pt? && p.root != vm.kernel
    && Entry(vm, p, i).Present() && Managed(vm, Entry(vm, p, i).frame)
  }

  /** A user page's frame is in use and is no table. */
  ghost predicate LeafOk(vm: Vm, p: Place, i: Index) {
    && Entry(vm, p, i).frame in vm.used
    && forall q :: q in vm.frameOf ==> vm.frameOf[q] != Entry(vm, p, i).frame
  }

  predicate LeavesApart(vm: Vm, p: Place, i: Index, q: Place, j: Index) {
    Entry(vm, p, i).frame != Entry(vm, q, j).frame
  }

  /** Every managed frame mapped in a user half is mapped there once and is no table. */
  ghost predicate Exclusive(vm: Vm) {
    && (forall p, i {:trigger LeafOk(vm, p, i)} :: UserLeaf(vm, p, i) ==> LeafOk(vm, p, i))
    && (forall p, i, q, j {:trigger LeavesApart(vm, p, i, q, j)} ::
          UserLeaf(vm, p, i) && UserLeaf(vm, q, j) && (p != q || i != j) ==> LeavesApart(vm, p, i, q, j))
  }

  // ------------------------------------------------------------ memory facts

  lemma CellOfPut(mem: Memory, f: nat, i: nat, e: Pte)
    requires Sized(mem) && f < |mem| && i < ENTRIES
    ensures Sized(Put(mem, f, i, e)) && |Put(mem, f, i, e)| == |mem|
    ensures forall g, j {:trigger Cell(Put(mem, f, i, e), g, j)} :: 0 <= g && 0 <= j ==>
              Cell(Put(mem, f, i, e), g, j) == if g == f && j == i then e else Cell(mem, g, j)
  {
  }

  lemma CellOfZeroed(mem: Memory, f: nat)
    requires Sized(mem) && f < |mem|
    ensures Sized(Zeroed(mem, f)) && |Zeroed(mem, f)| == |mem|
    ensures forall g, j {:trigger Cell(Zeroed(mem, f), g, j)} :: 0 <= g && 0 <= j ==>
              Cell(Zeroed(mem, f), g, j) == if g == f then NoPte else Cell(mem, g, j)
  {
  }

  // ------------------------------------------------------- walking the layout

  lemma ChildOn(k: nat, r: nat, pg: Page, d: nat)
    requires d < 3
    ensures Child(k, On(k, r, pg, d), pg.At(d)) == On(k, r, pg, d + 1)
    ensures On(k, r, pg, d).Depth() == d
  {
  }

  /** Every root reaches tables of the layout only, and reaches the linked ones. */
  lemma WalkStep(vm: Vm, r: nat, pg: Page, d: nat)
    requires Tables(vm) && d < 3 && On(vm.kernel, r, pg, d) in vm.frameOf
    ensures var e := Entry(vm, On(vm.kernel, r, pg, d), pg.At(d));
            && (Links(e, d) <==> On(vm.kernel, r, pg, d + 1) in vm.frameOf)
            && (Links(e, d) ==> e.frame == vm.frameOf[On(vm.kernel, r, pg, d + 1)])
  {
    ChildOn(vm.kernel, r, pg, d);
    assert LinkOk(vm, On(vm.kernel, r, pg, d), pg.At(d));
  }

  /** No entry met when translating `pg` from `r` differs in `mem`. */
  ghost predicate SameOn(vm: Vm, mem: Memory, r: nat, pg: Page) {
    forall d: nat {:trigger On(vm.kernel, r, pg, d)} :: d <= 3 && On(vm.kernel, r, pg, d) in vm.frameOf ==>
      Cell(mem, vm.frameOf[On(vm.kernel, r, pg, d)], pg.At(d)) == Entry(vm, On(vm.kernel, r, pg, d), pg.At(d))
  }

  lemma {:induction false} WalkSame(vm: Vm, mem: Memory, r: nat, pg: Page, d: nat)
    requires Tables(vm) && d <= 3 && On(vm.kernel, r, pg, d) in vm.frameOf
    requires SameOn(vm, mem, r, pg)
    ensures Walk(mem, vm.frameOf[On(vm.kernel, r, pg, d)], d, pg)
         == Walk(vm.mem, vm.frameOf[On(vm.kernel, r, pg, d)], d, pg)
    decreases 3 - d
  {
    hide Tables, Cell, InHuge, On;
    if d < 3 {
      WalkStep(vm, r, pg, d);
      if On(vm.kernel, r, pg, d + 1) in vm.frameOf {
        WalkSame(vm, mem, r, pg, d + 1);
      }
    }
  }

  lemma TranslateSame(vm: Vm, mem: Memory, r: nat, pg: Page)
    requires Tables(vm) && r in vm.roots && SameOn(vm, mem, r, pg)
    ensures Translate(mem, r, pg) == Translate(vm.mem, r, pg)
  {
    assert On(vm.kernel, r, pg, 0) == Pml4(r);
    assert PlaceOk(vm, Pml4(r));
    WalkSame(vm, mem, r, pg, 0);
  }
}
