/**
  The operations of KyuzenFS as relations on whole volumes: when they succeed,
  what they do to paths, and that they keep the volume invariant.
 */
module KfsOps {
  import opened Basics
  import opened KfsTree
  import opened KfsDisk
  import opened KfsEffects
  import opened KfsDurable
  import opened KfsPath

  /** The layout right after formatting: an empty root directory. */
  function EmptyLayout(root: nat): Layout {
    Layout(Tree(root, map[root := EmptySlots(SLOTS)], map[]), map[root := [root]], map[])
  }

  /** What `name` becomes in a directory entry. */
  function StoredName(name: string): (r: string)
    ensures r <= name && (|name| <= 22 ==> r == name) && (|name| > 22 ==> |r| == 22)
  {
    if |name| <= NAME_MAX then name else name[..NAME_MAX]
  }

  function Zeros(n: nat): (r: seq<Byte>)
    ensures |r| == n && forall i :: 0 <= i < n ==> r[i] == 0
  {
    seq(n, _ => 0 as Byte)
  }

  /** File contents as laid out on disk: padded with zeros to whole sectors. */
  function Padded(data: seq<Byte>): (r: seq<Byte>)
    ensures |r| == SECTOR * SectorsFor(|data|)
    ensures r[..|data|] == data && forall i :: |data| <= i < |r| ==> r[i] == 0
  {
    SizeFits(|data|);
    data + Zeros(SECTOR * SectorsFor(|data|) - |data|)
  }

  function PaddedSector(data: seq<Byte>, i: nat): Sector
    requires i < SectorsFor(|data|)
  {
    DataSector(Padded(data)[SECTOR * i..SECTOR * i + SECTOR])
  }

  function PaddedSectors(data: seq<Byte>, n: nat): (r: seq<Sector>)
    requires n <= SectorsFor(|data|)
    ensures |r| == n && forall i :: 0 <= i < n ==> r[i] == PaddedSector(data, i)
  {
    seq(n, i requires 0 <= i < n => PaddedSector(data, i))
  }

  lemma PaddedSnoc(data: seq<Byte>, i: nat)
    requires i < SectorsFor(|data|)
    ensures PaddedSectors(data, i + 1) == PaddedSectors(data, i) + [PaddedSector(data, i)]
  {
    hide Padded, PaddedSector;
  }

  /** The state of the allocation loop after sectors `c` were taken. */
  ghost predicate AllocatedSoFar(s0: Fs, s: Fs, data: seq<Byte>, c: seq<nat>, start: nat, prev: nat, offset: nat) {
    && |c| <= SectorsFor(|data|) && Allocated(s0, s, c, PaddedSectors(data, |c|))
    && s.root == s0.root && |s.disk| > 0 && s.disk[0] == s0.disk[0]
    && offset == (if SECTOR * |c| <= |data| then SECTOR * |c| else |data|)
    && (if c == [] then prev == 0 else start == c[0] && prev == c[|c| - 1])
    && |FreeSet(s)| == |FreeSet(s0)| - |c|
  }

  lemma NothingAllocated(s: Fs)
    requires Geometry(s)
    ensures |s.disk| > 0
    ensures forall data: seq<Byte> :: AllocatedSoFar(s, s, data, [], 0, 0, 0)
  {
    FatCovers(s.total);
    assert Allocated(s, s, [], []);
    assert forall data: seq<Byte> :: PaddedSectors(data, 0) == [];
  }

  /** One sector buffer filled by the copy loop. */
  lemma ChunkIsPadded(data: seq<Byte>, i: nat, offset: nat, chunk: nat)
    requires i < SectorsFor(|data|)
    requires offset == (if SECTOR * i <= |data| then SECTOR * i else |data|)
    requires chunk == (if |data| - offset > SECTOR then SECTOR else |data| - offset)
    ensures DataSector(data[offset..offset + chunk] + Zeros(SECTOR - chunk)) == PaddedSector(data, i)
  {
    assert offset == SECTOR * i;
    assert data[offset..offset + chunk] + Zeros(SECTOR - chunk) == Padded(data)[SECTOR * i..SECTOR * i + SECTOR];
  }

  // ------------------------------------------------- creation as one effect

  /** The layout after `InsertDirEntry` put `e` at slot `j`, in the new sector `x` unless `x` is 0. */
  function AfterInsert(l: Layout, d: nat, e: Entry, j: nat, x: nat, c: seq<nat>, o: Object): Layout
    requires d in l.tree.dirs && d in l.chains && (x == 0 ==> j < |l.tree.dirs[d]|)
  {
    var slots := l.tree.dirs[d];
    if x == 0 then Registered(l, d, l.chains[d], slots[j := e], e, j, c, o)
    else Registered(l, d, l.chains[d] + [x], slots + ([e] + EmptySlots(SLOTS - 1)), e, |slots|, c, o)
  }

  ghost predicate InsertEffect(s: Fs, s': Fs, l: Layout, d: nat, e: Entry, j: nat, x: nat)
    requires d in l.tree.dirs && d in l.chains
  {
    if x == 0 then SlotReused(s, s', l.chains[d], l.tree.dirs[d], e, j)
    else ChainExtended(s, s', l.chains[d], l.tree.dirs[d], e, x) && j == |l.tree.dirs[d]|
  }

  lemma InsertEffectKeepsWellFormed(s: Fs, s': Fs, l: Layout, d: nat, e: Entry, j: nat, x: nat, c: seq<nat>, o: Object)
    requires WellFormed(s, l) && d in l.tree.dirs && d in l.chains && Attachable(s, l, c, e, o)
    requires InsertEffect(s, s', l, d, e, j, x)
    ensures x == 0 ==> j < |l.tree.dirs[d]|
    ensures WellFormed(Counted(s', s.files + 1), AfterInsert(l, d, e, j, x, c, o))
    ensures TreeInserted(l.tree, AfterInsert(l, d, e, j, x, c, o).tree, d, e, j)
  {
    hide WellFormed, Attachable, TreeInserted, DirIs;
    if x == 0 {
      ReuseKeepsWellFormed(s, s', l, d, e, j, c, o);
      RecountKeepsWellFormed(s', s.files + 1, AfterInsert(l, d, e, j, x, c, o));
    } else {
      ExtendKeepsWellFormed(s, s', l, d, e, x, c, o);
      RecountKeepsWellFormed(s', s.files + 1, AfterInsert(l, d, e, j, x, c, o));
    }
  }

  /** The volume after the entry count was set and the header written. */
  function Counted(s: Fs, n: nat): Fs {
    if s.disk == [] then s.(files := n) else s.(files := n, disk := s.disk[0 := HeaderSector(s.root, n)])
  }

  lemma RecountKeepsWellFormed(s: Fs, n: nat, l: Layout)
    requires WellFormed(s.(files := n), l)
    ensures WellFormed(Counted(s, n), l) && HeaderSaved(Counted(s, n))
  {
    var s1, s2 := s.(files := n), Counted(s, n);
    forall k | k in l.chains
      ensures Agree(s1.fat, s2.fat, l.chains[k]) && Agree(s1.disk, s2.disk, l.chains[k])
    {
      FatCovers(s.total);
      ChainInRange(s.fat, s.root, s.total, l.chains[k]);
    }
    FrameKeepsWellFormed(s1, s2, l);
  }

  lemma FileIsAttachable(s: Fs, s1: Fs, l: Layout, c: seq<nat>, data: seq<Byte>, e: Entry)
    requires WellFormed(s, l) && |c| == SectorsFor(|data|)
    requires Allocated(s, s1, c, PaddedSectors(data, |c|))
    requires e.flag == FlagFile && e.start == c[0] && e.size == |data| && |e.name| <= NAME_MAX
    ensures WellFormed(s1, l) && Attachable(s1, l, c, e, NewFile(Padded(data)))
  {
    hide WellFormed;
    AllocationKeepsWellFormed(s, s1, l, c, PaddedSectors(data, |c|));
    assert FileIs(s1.disk, c, Padded(data));
  }

  lemma FolderIsAttachable(s: Fs, s1: Fs, l: Layout, x: nat, e: Entry)
    requires WellFormed(s, l) && Allocated(s, s1, [x], [DirSector(EmptySlots(SLOTS))])
    requires e.flag == FlagFolder && e.start == x && e.size == 0 && |e.name| <= NAME_MAX
    ensures WellFormed(s1, l) && Attachable(s1, l, [x], e, NewDir(EmptySlots(SLOTS)))
  {
    hide WellFormed;
    AllocationKeepsWellFormed(s, s1, l, [x], [DirSector(EmptySlots(SLOTS))]);
    assert EmptySlots(SLOTS)[0..16] == EmptySlots(SLOTS);
    assert DirIs(s1.disk, [x], EmptySlots(SLOTS));
  }

  /** Exactly when a creation needing `sectors` data sectors succeeds. */
  ghost predicate Creatable(s: Fs, l: Layout, path: string, sectors: nat)
    requires l.tree.root in l.tree.dirs
  {
    && FinalName(path) != ""
    && var d := Walk(l.tree, Components(ParentPart(path)));
       && d.Some?
       && var slots := l.tree.dirs[d.value];
          && Find(slots, FinalName(path)) == |slots|
          && |FreeSet(s)| >= sectors + if FirstEmpty(slots) < |slots| then 0 else 1
  }

  /** From `t` to `t'` exactly the path `target` changes: it was absent and now denotes `node`. */
  ghost predicate Added(t: Tree, t': Tree, target: seq<string>, node: Node) {
    && t.root in t.dirs && t'.root in t'.dirs
    && View(t, target) == None && View(t', target) == Some(node)
    && forall p :: p != target ==> View(t', p) == View(t, p)
  }

  /** From `t` to `t'` exactly the path `target` changes: it no longer denotes anything. */
  ghost predicate Removed(t: Tree, t': Tree, target: seq<string>) {
    && t.root in t.dirs && t'.root in t'.dirs
    && View(t, target).Some? && View(t', target) == None
    && forall p :: p != target ==> View(t', p) == View(t, p)
  }

  /** The location a creation puts its entry at: the target with its name cut to the on-disk field. */
  function StoredTarget(path: string): seq<string> {
    Components(ParentPart(path)) + [StoredName(FinalName(path))]
  }

  /** The parent directory has no entry under the name as it will be stored. */
  predicate StoredNameFree(t: Tree, path: string)
    requires t.root in t.dirs
  {
    var d := Walk(t, Components(ParentPart(path)));
    d.Some? ==> Find(t.dirs[d.value], StoredName(FinalName(path))) == |t.dirs[d.value]|
  }

  lemma InsertGivesEffect(s: Fs, s': Fs, l: Layout, d: nat, e: Entry, j: nat, x: nat)
    requires d in l.tree.dirs && d in l.chains && j == FirstEmpty(l.tree.dirs[d])
    requires x == 0 ==> SlotReused(s, s', l.chains[d], l.tree.dirs[d], e, j)
    requires x != 0 ==> ChainExtended(s, s', l.chains[d], l.tree.dirs[d], e, x)
    ensures InsertEffect(s, s', l, d, e, j, x)
  {
  }

  /** An entry of the stored name stands before the slot a creation uses. */
  predicate Hidden(t: Tree, path: string)
    requires t.root in t.dirs
  {
    var d := Walk(t, Components(ParentPart(path)));
    d.Some? && Find(t.dirs[d.value], StoredName(FinalName(path))) < FirstEmpty(t.dirs[d.value])
  }

  /**
    What `p` denotes after `node` was created at `path`: nothing changes if the new entry is
    hidden; else the stored target denotes the new object and the paths below it nothing.
   */
  function AfterCreate(t: Tree, path: string, node: Node, p: seq<string>): Option<Node>
    requires t.root in t.dirs
  {
    if Hidden(t, path) || !(StoredTarget(path) <= p) then View(t, p)
    else if p == StoredTarget(path) then Some(node)
    else None
  }

  /** Exactly the slot `x` of the parent directory came to life, under the stored name. */
  ghost predicate EntryAdded(t: Tree, t': Tree, path: string, x: Slot)
    requires t.root in t.dirs && t'.root in t'.dirs
  {
    && Walk(t, Components(ParentPart(path))) == Some(x.dir) == Walk(t', Components(ParentPart(path))) && x.index == FirstEmpty(t.dirs[x.dir])
    && !IsLive(t, x) && IsLive(t', x) && At(t', x).name == StoredName(FinalName(path))
    && (forall y {:trigger IsLive(t', y)} :: IsLive(t', y) <==> IsLive(t, y) || y == x)
    && (forall y {:trigger At(t', y)} :: IsLive(t, y) ==> IsLive(t', y) && At(t', y) == At(t, y))
  }

  /** What a successful creation of `node` at `path` means for the tree. */
  ghost predicate PathsAdded(t: Tree, t': Tree, path: string, node: Node)
    requires t.root in t.dirs
  {
    && t'.root in t'.dirs && t'.root == t.root
    && (forall p {:trigger View(t', p)} :: View(t', p) == AfterCreate(t, path, node, p))
    && (exists x :: EntryAdded(t, t', path, x))
    && (StoredNameFree(t, path) ==> Added(t, t', StoredTarget(path), node))
    && (View(t', Target(path)) == Some(node) <==> |FinalName(path)| <= NAME_MAX)
    && (StoredNameFree(t, path) && UniqueNames(t) ==> UniqueNames(t'))
  }

  lemma EntryCreated(t: Tree, t': Tree, home: map<nat, Slot>, d: nat, e: Entry, j: nat, path: string, node: Node)
    requires TreeOk(t) && HomesOk(t', home) && TreeInserted(t, t', d, e, j) && j == FirstEmpty(t.dirs[d])
    requires t.root in t.dirs && Walk(t, Components(ParentPart(path))) == Some(d) && node == NodeOf(t', e)
    requires e.name == StoredName(FinalName(path)) && Find(t.dirs[d], FinalName(path)) == |t.dirs[d]|
    ensures PathsAdded(t, t', path, node)
  {
    hide TreeOk, Walk, View, Find, FirstEmpty, TreeInserted, UniqueNames, Components, NodeOf, Added, EntryAdded, HomesOk, AfterCreate, FinalName, ParentPart;
    RootStays(t, t', d, e, j);
    forall p ensures View(t', p) == AfterCreate(t, path, node, p) { CreatedAt(t, t', d, e, j, path, node, p); }
    SlotAdded(t, t', d, e, j, path);
    if StoredNameFree(t, path) { FreeNameAdded(t, t', d, e, j, path, node); }
    TargetCreated(t, t', home, d, path, node);
  }

  lemma RootStays(t: Tree, t': Tree, d: nat, e: Entry, j: nat)
    requires TreeInserted(t, t', d, e, j) && t.root in t.dirs
    ensures t'.root in t'.dirs && t'.root == t.root
  {
  }

  lemma CreatedAt(t: Tree, t': Tree, d: nat, e: Entry, j: nat, path: string, node: Node, p: seq<string>)
    requires TreeOk(t) && TreeInserted(t, t', d, e, j) && j == FirstEmpty(t.dirs[d])
    requires t.root in t.dirs && t'.root in t'.dirs && Walk(t, Components(ParentPart(path))) == Some(d) && node == NodeOf(t', e)
    requires e.name == StoredName(FinalName(path))
    ensures View(t', p) == AfterCreate(t, path, node, p)
  {
    hide TreeOk, Walk, View, Find, FirstEmpty, TreeInserted, Components, NodeOf, FinalName, ParentPart;
    ViewInserted(t, t', d, e, j, Components(ParentPart(path)), p);
  }

  /** The path asked for denotes the new object exactly when its name fits an entry. */
  lemma TargetCreated(t: Tree, t': Tree, home: map<nat, Slot>, d: nat, path: string, node: Node)
    requires t.root in t.dirs && t'.root in t'.dirs && HomesOk(t', home) && Walk(t, Components(ParentPart(path))) == Some(d)
    requires Find(t.dirs[d], FinalName(path)) == |t.dirs[d]|
    requires View(t', Target(path)) == AfterCreate(t, path, node, Target(path))
    ensures View(t', Target(path)) == Some(node) <==> |FinalName(path)| <= NAME_MAX
  {
    hide Walk, View, Find, Components, HomesOk, FinalName, ParentPart;
    if |FinalName(path)| > NAME_MAX {
      LongNameViewsNothing(t', home, Components(ParentPart(path)), FinalName(path));
    }
  }

  lemma SlotAdded(t: Tree, t': Tree, d: nat, e: Entry, j: nat, path: string)
    requires TreeOk(t) && TreeInserted(t, t', d, e, j) && t.root in t.dirs && t'.root in t'.dirs
    requires Walk(t, Components(ParentPart(path))) == Some(d) && e.name == StoredName(FinalName(path)) && j == FirstEmpty(t.dirs[d])
    ensures EntryAdded(t, t', path, Slot(d, j))
  {
    hide Walk, Find, Components, TreeOk, FirstEmpty;
    var parent := Components(ParentPart(path));
    assert !(parent + [e.name] <= parent);
    WalkInserted(t, t', d, e, j, parent, parent);
  }

  /** With the stored name free exactly one path changes. */
  lemma FreeNameAdded(t: Tree, t': Tree, d: nat, e: Entry, j: nat, path: string, node: Node)
    requires TreeOk(t) && TreeInserted(t, t', d, e, j) && t.root in t.dirs && t'.root in t'.dirs
    requires Walk(t, Components(ParentPart(path))) == Some(d) && node == NodeOf(t', e)
    requires e.name == StoredName(FinalName(path)) && StoredNameFree(t, path)
    ensures Added(t, t', StoredTarget(path), node)
    ensures UniqueNames(t) ==> UniqueNames(t')
  {
    hide Walk, Find, Components, TreeOk, View, TreeInserted, UniqueNames, NodeOf;
    var parent := Components(ParentPart(path));
    WalkSnoc(t, parent, e.name);
    ViewSnoc(t, parent, e.name);
    ViewInserted(t, t', d, e, j, parent, parent + [e.name]);
    forall p | p != parent + [e.name] ensures View(t', p) == View(t, p) {
      ViewInserted(t, t', d, e, j, parent, p);
      if parent + [e.name] <= p { NothingBelow(t, parent + [e.name], p); }
    }
    if UniqueNames(t) { InsertKeepsUniqueNames(t, t', d, e, j); }
  }

  lemma LongNameViewsNothing(t: Tree, home: map<nat, Slot>, parent: seq<string>, name: string)
    requires t.root in t.dirs && HomesOk(t, home) && |name| > NAME_MAX
    ensures View(t, parent + [name]) == None
  {
    assert (parent + [name])[..|parent|] == parent;
    if Walk(t, parent).Some? {
      LongNamesAreAbsent(t, home, Walk(t, parent).value, name);
    }
  }

  lemma FirstEmptyIs(slots: seq<Entry>, r: nat)
    requires r <= |slots| && (r < |slots| ==> !Live(slots[r]))
    requires forall j :: 0 <= j < r ==> Live(slots[j])
    ensures FirstEmpty(slots) == r
  {
  }

  // ------------------------------------------- consequences of the invariant

  lemma RootFacts(s: Fs, l: Layout)
    requires WellFormed(s, l)
    ensures l.tree.root == s.root && s.root in l.tree.dirs && s.root >= 2 && TreeOk(l.tree)
  {
    hide IsChain, DirIs, FileIs, Apart, ChainsOk, DirsStored, FilesStored, HomesOk, TreeOk;
    WellFormedTree(l.tree, l.home);
  }

  lemma WellFormedHomes(s: Fs, l: Layout)
    requires WellFormed(s, l)
    ensures HomesOk(l.tree, l.home)
  {
    hide HomesOk, ChainsOk, Stored;
  }

  lemma DirFacts(s: Fs, l: Layout, d: nat)
    requires WellFormed(s, l) && d in l.tree.dirs
    ensures d in l.chains && IsChain(s.fat, s.root, s.total, l.chains[d]) && l.chains[d][0] == d
    ensures DirIs(s.disk, l.chains[d], l.tree.dirs[d])
  {
    hide IsChain, DirIs, FileIs, Apart, HomesOk;
  }

  lemma FileFacts(s: Fs, l: Layout, k: nat)
    requires WellFormed(s, l) && k in l.tree.files
    ensures k in l.chains && IsChain(s.fat, s.root, s.total, l.chains[k]) && l.chains[k][0] == k
    ensures FileIs(s.disk, l.chains[k], l.tree.files[k])
  {
    hide IsChain, DirIs, FileIs, Apart, HomesOk;
  }

  /** What the invariant says about a live entry. */
  lemma EntryFacts(t: Tree, home: map<nat, Slot>, d: nat, j: nat)
    requires HomesOk(t, home) && d in t.dirs && j < |t.dirs[d]| && Live(t.dirs[d][j])
    ensures var e := t.dirs[d][j];
            && |e.name| <= NAME_MAX && e.start in home && home[e.start] == Slot(d, j)
            && (e.flag == FlagFolder ==> e.start in t.dirs && e.size == 0)
            && (e.flag == FlagFile ==> e.start in t.files && |t.files[e.start]| == SECTOR * SectorsFor(e.size))
  {
    assert IsLive(t, Slot(d, j));
    assert HomeOk(t, home, At(t, Slot(d, j)).start);
  }

  /** No entry has a name longer than the on-disk field, so such names are never found. */
  lemma LongNamesAreAbsent(t: Tree, home: map<nat, Slot>, d: nat, name: string)
    requires HomesOk(t, home) && d in t.dirs && |name| > NAME_MAX
    ensures Find(t.dirs[d], name) == |t.dirs[d]|
  {
    var j := Find(t.dirs[d], name);
    if j < |t.dirs[d]| {
      EntryFacts(t, home, d, j);
    }
  }

  lemma EmptyPath(t: Tree)
    requires t.root in t.dirs
    ensures Walk(t, []) == Some(t.root) && Components("") == []
  {
  }

  lemma ComponentAt(path: string, start: nat, end: nat)
    requires start < end <= |path| && (end < |path| ==> path[end] == '/')
    requires forall k :: start <= k < end ==> path[k] != '/'
    ensures Components(path[start..]) == [path[start..end]] + Components(path[end..])
  {
    var s := path[start..];
    NameLenIs(s, end - start);
    assert s[..end - start] == path[start..end];
    assert s[end - start..] == path[end..];
  }

  // --------------------------------------------------- results of operations

  /** Geometry, and every link outside `dirty` is on disk. */
  ghost predicate BaseOk(s: Fs, stale: set<nat>, dirty: set<nat>) {
    Geometry(s) && Saved(s.fat, s.disk, FatSectors(s.total), stale, dirty)
  }

  /** The invariant between operations. */
  ghost predicate ValidFs(s: Fs, l: Layout, stale: set<nat>) {
    BaseOk(s, stale, {}) && HeaderSaved(s) && WellFormed(s, l)
  }

  ghost predicate SameHeader(s: Fs, s': Fs) {
    SameShape(s, s') && s'.files == s.files && |s.disk| > 0 && s'.disk[0] == s.disk[0]
  }

  /** Result of `InsertDirEntry` on the directory `slots` on chain `c`. */
  ghost predicate InsertResult(s: Fs, s': Fs, c: seq<nat>, slots: seq<Entry>, e: Entry, ok: bool, j: nat, x: nat) {
    && SameHeader(s, s') && j == FirstEmpty(slots)
    && if !ok then s' == s && FreeSet(s) == {} && j == |slots|
       else if x == 0 then SlotReused(s, s', c, slots, e, j)
       else ChainExtended(s, s', c, slots, e, x)
  }

  /** Result of the allocation loop for a file. */
  ghost predicate AllocResult(s: Fs, s': Fs, data: seq<Byte>, c: seq<nat>, ok: bool, start: nat) {
    && |c| <= SectorsFor(|data|) && Allocated(s, s', c, PaddedSectors(data, |c|)) && SameHeader(s, s')
    && |FreeSet(s')| == |FreeSet(s)| - |c| && (c == [] ==> s' == s)
    && |c| <= SectorCount(|data|) && (ok <==> |c| == SectorCount(|data|))
    && (if ok then start == (if c == [] then 0 else c[0]) else FreeSet(s') == {})
  }

  /** The number of sectors as computed in 32 bits. */
  function SectorCount(size: nat): nat {
    if size == 0 then 1 else (size + 511) % 0x1_0000_0000 / 512
  }

  /** The 32-bit sum is exact up to 511 bytes below the limit; above, no sector at all is counted. */
  lemma SectorCountIsExactIff(size: nat)
    requires size < 0x1_0000_0000
    ensures SectorCount(size) == SectorsFor(size) <==> size + 511 < 0x1_0000_0000
    ensures size + 511 >= 0x1_0000_0000 ==> SectorCount(size) == 0
  {
  }

  /** Result of inserting an entry and counting it. */
  ghost predicate AddResult(s: Fs, l: Layout, s': Fs, l': Layout, stale: set<nat>, d: nat, e: Entry, c: seq<nat>, o: Object, ok: bool, j: nat, x: nat)
    requires d in l.tree.dirs && d in l.chains
  {
    && ValidFs(s', l', stale)
    && (ok <==> FirstEmpty(l.tree.dirs[d]) < |l.tree.dirs[d]| || FreeSet(s) != {})
    && (!ok ==> s' == s && l' == l)
    && (ok && x == 0 ==> j < |l.tree.dirs[d]|)
    && (ok ==> l' == AfterInsert(l, d, e, j, x, c, o) && TreeInserted(l.tree, l'.tree, d, e, j))
    && (ok ==> e.start !in l.chains && |s'.fat| == |s.fat| && (FirstEmpty(l.tree.dirs[d]) < |l.tree.dirs[d]| ==> s'.fat == s.fat))
    && (ok && FirstEmpty(l.tree.dirs[d]) == |l.tree.dirs[d]| ==> TakesSector(s, s', x))
    && (ok ==> j == FirstEmpty(l.tree.dirs[d]))
    && (ok ==> |FreeSet(s')| == |FreeSet(s)| - if FirstEmpty(l.tree.dirs[d]) < |l.tree.dirs[d]| then 0 else 1)
  }

  /** Sector `x` was free and now ends a chain. */
  predicate TakesSector(s: Fs, s': Fs, x: nat) {
    x in FreeSet(s) && x < |s'.fat| && s'.fat[x] == FAT_EOF
  }

  lemma InsertShape(s: Fs, s': Fs, c: seq<nat>, slots: seq<Entry>, e: Entry, ok: bool, j: nat, x: nat)
    requires InsertResult(s, s', c, slots, e, ok, j, x)
    ensures SameHeader(s, s') && (!ok ==> s' == s)
  {
  }

  lemma AddIsValid(s: Fs, l: Layout, s': Fs, l': Layout, stale: set<nat>, d: nat, e: Entry, c: seq<nat>, o: Object, ok: bool, j: nat, x: nat)
    requires d in l.tree.dirs && d in l.chains && AddResult(s, l, s', l', stale, d, e, c, o, ok, j, x)
    ensures ValidFs(s', l', stale)
  {
    hide ValidFs;
  }

  lemma InsertFails(s: Fs, l: Layout, stale: set<nat>, s1: Fs, d: nat, e: Entry, c: seq<nat>, o: Object, j: nat, x: nat)
    requires ValidFs(s, l, stale) && d in l.tree.dirs && d in l.chains
    requires InsertResult(s, s1, l.chains[d], l.tree.dirs[d], e, false, j, x)
    ensures AddResult(s, l, s1, l, stale, d, e, c, o, false, j, x)
  {
    hide ValidFs, AfterInsert;
  }

  lemma InsertSucceeds(s: Fs, l: Layout, stale: set<nat>, s1: Fs, d: nat, e: Entry, c: seq<nat>, o: Object, j: nat, x: nat)
    requires WellFormed(s, l) && d in l.tree.dirs && d in l.chains && Attachable(s, l, c, e, o)
    requires InsertResult(s, s1, l.chains[d], l.tree.dirs[d], e, true, j, x)
    requires BaseOk(Counted(s1, s.files + 1), stale, {})
    ensures x == 0 ==> j < |l.tree.dirs[d]|
    ensures AddResult(s, l, Counted(s1, s.files + 1), AfterInsert(l, d, e, j, x, c, o), stale, d, e, c, o, true, j, x)
  {
    hide WellFormed, Attachable, BaseOk, TreeInserted, DirIs, AfterInsert;
    assert ChainExtended(s, s1, l.chains[d], l.tree.dirs[d], e, x) ==> x in [x] && x in FreeSet(s);
    InsertGivesEffect(s, s1, l, d, e, j, x);
    InsertEffectKeepsWellFormed(s, s1, l, d, e, j, x, c, o);
    AttachableIsNew(s, l, c, e, o);
    DirFacts(s, l, d);
    InsertTakes(s, s1, l.chains[d], l.tree.dirs[d], e, j, x);
  }

  /** An insertion takes a sector exactly when the directory was full. */
  lemma InsertTakes(s: Fs, s1: Fs, c: seq<nat>, slots: seq<Entry>, e: Entry, j: nat, x: nat)
    requires InsertResult(s, s1, c, slots, e, true, j, x) && IsChain(s.fat, s.root, s.total, c)
    ensures |FreeSet(Counted(s1, s.files + 1))| == |FreeSet(s)| - if FirstEmpty(slots) < |slots| then 0 else 1
  {
    hide DirIs, FirstEmpty;
    assert FreeSet(Counted(s1, s.files + 1)) == FreeSet(s1);
    if x == 0 {
      assert FreeSet(s1) == FreeSet(s);
    } else {
      assert s.fat[c[|c| - 1]] == FAT_EOF;
      assert x in [x] && x in FreeSet(s);
      assert FreeSet(s1) == FreeSet(s) - {x};
    }
  }

  lemma AttachableIsNew(s: Fs, l: Layout, c: seq<nat>, e: Entry, o: Object)
    requires WellFormed(s, l) && Attachable(s, l, c, e, o)
    ensures e.start !in l.chains
  {
    hide IsChain, Stored, HomesOk;
    NewStart(s.fat, s.root, s.total, l.chains, c);
  }

  /** Result of file creation. */
  ghost predicate CreateResult(s: Fs, l: Layout, s': Fs, l': Layout, stale: set<nat>, path: string, data: seq<Byte>, ok: bool)
    requires l.tree.root in l.tree.dirs
  {
    && ValidFs(s', l', stale)
    && (ok <==> Creatable(s, l, path, SectorsFor(|data|)))
    && (!ok ==> l' == l && if ReachesAllocation(l.tree, path) then FreeSet(s') == {} else s' == s)
    && (ok ==> PathsAdded(l.tree, l'.tree, path, FileNode(data)) && OneChainAdded(s, l, s', l', path, SectorsFor(|data|)))
    && (ok ==> |FreeSet(s')| == |FreeSet(s)| - SectorsFor(|data|) - Growth(l.tree, path))
  }

  /** Sectors the parent directory needs for one more entry. */
  function Growth(t: Tree, path: string): nat
    requires t.root in t.dirs
  {
    if HasEmptySlot(t, path) then 0 else 1
  }

  /** The parent exists and does not have the name yet. */
  predicate ReachesAllocation(t: Tree, path: string)
    requires t.root in t.dirs
  {
    && FinalName(path) != ""
    && var d := Walk(t, Components(ParentPart(path)));
       d.Some? && Find(t.dirs[d.value], FinalName(path)) == |t.dirs[d.value]|
  }

  /** The parent directory of `path` has an empty slot. */
  predicate HasEmptySlot(t: Tree, path: string)
    requires t.root in t.dirs
  {
    var d := Walk(t, Components(ParentPart(path)));
    d.Some? && FirstEmpty(t.dirs[d.value]) < |t.dirs[d.value]|
  }

  /** Exactly one chain is new and it is the file's. */
  ghost predicate OneChainAdded(s: Fs, l: Layout, s': Fs, l': Layout, path: string, n: nat)
    requires l.tree.root in l.tree.dirs
  {
    exists k :: NewChain(s, l, s', l', path, k, n)
  }

  ghost predicate NewChain(s: Fs, l: Layout, s': Fs, l': Layout, path: string, k: nat, n: nat)
    requires l.tree.root in l.tree.dirs
  {
    ChainTaken(s, l, s', l', path, k, n) && (|FinalName(path)| <= NAME_MAX ==> NamesFileAt(l'.tree, path, k))
  }

  /** The chain at `k` is new, made of `n` sectors that were free; with an empty slot at hand no other link changes. */
  ghost predicate ChainTaken(s: Fs, l: Layout, s': Fs, l': Layout, path: string, k: nat, n: nat)
    requires l.tree.root in l.tree.dirs
  {
    && k in l'.chains && k !in l.chains && |l'.chains[k]| == n && |s'.fat| == |s.fat|
    && (forall y :: y in l'.chains[k] ==> y < |s.fat| && s.fat[y] == FAT_FREE)
    && (HasEmptySlot(l.tree, path) ==> forall y :: 0 <= y < |s.fat| && y !in l'.chains[k] ==> s'.fat[y] == s.fat[y])
    && (!HasEmptySlot(l.tree, path) ==> exists x: nat :: TakesSector(s, s', x) && x !in l'.chains[k])
  }

  /** `path` names a file whose object is `k`. */
  ghost predicate NamesFileAt(t: Tree, path: string, k: nat) {
    && t.root in t.dirs && Deletable(t, path)
    && IsLive(t, SlotFor(t, path)) && At(t, SlotFor(t, path)).start == k
  }

  /** An entry was inserted and counted, whatever it points at. */
  ghost predicate LooseAdded(s: Fs, l: Layout, s': Fs, d: nat, e: Entry, j: nat, x: nat)
    requires d in l.tree.dirs && d in l.chains
  {
    exists s1 :: InsertResult(s, s1, l.chains[d], l.tree.dirs[d], e, true, j, x) && s' == Counted(s1, s.files + 1)
  }

  /** Result of creating a file whose size wraps: no sector is taken and the entry points at sector 0. */
  ghost predicate LooseResult(s: Fs, l: Layout, s': Fs, path: string, size: nat, ok: bool)
    requires l.tree.root in l.tree.dirs
  {
    && (ok <==> Creatable(s, l, path, 0))
    && (!ok ==> s' == s)
    && (ok ==> var d := Walk(l.tree, Components(ParentPart(path))).value;
               d in l.chains && exists j, x :: LooseAdded(s, l, s', d, LooseEntry(path, size), j, x))
  }

  function LooseEntry(path: string, size: nat): Entry {
    Entry(StoredName(FinalName(path)), FlagFile, 0, size)
  }

  lemma LooseIs(s: Fs, l: Layout, s1: Fs, d: nat, e: Entry, j: nat, x: nat)
    requires d in l.tree.dirs && d in l.chains && InsertResult(s, s1, l.chains[d], l.tree.dirs[d], e, true, j, x)
    ensures LooseAdded(s, l, Counted(s1, s.files + 1), d, e, j, x)
  {
    hide InsertResult, Counted;
  }

  /** The end of such a creation. */
  lemma LooseEnds(s: Fs, l: Layout, stale: set<nat>, s': Fs, l': Layout, path: string, size: nat, d: nat, o: Object, ok: bool, j: nat, x: nat)
    requires l.tree.root in l.tree.dirs && d in l.tree.dirs && d in l.chains
    requires FinalName(path) != "" && Walk(l.tree, Components(ParentPart(path))) == Some(d)
    requires Find(l.tree.dirs[d], FinalName(path)) == |l.tree.dirs[d]|
    requires ok ==> LooseAdded(s, l, s', d, LooseEntry(path, size), j, x)
    requires !ok ==> AddResult(s, l, s', l', stale, d, LooseEntry(path, size), [], o, false, j, x)
    ensures LooseResult(s, l, s', path, size, ok)
  {
    if ok { LooseHadRoom(s, l, s', d, LooseEntry(path, size), j, x); } else { AddFailed(s, l, s', l', stale, d, LooseEntry(path, size), [], o, j, x); }
    hide Walk, Find, FirstEmpty, Components, FinalName, ParentPart, AddResult, LooseAdded, FreeSet;
    NoneOrSome(FreeSet(s));
  }

  lemma NoneOrSome(a: set<nat>)
    ensures |a| == 0 <==> a == {}
  {
  }

  lemma LooseHadRoom(s: Fs, l: Layout, s': Fs, d: nat, e: Entry, j: nat, x: nat)
    requires d in l.tree.dirs && d in l.chains && LooseAdded(s, l, s', d, e, j, x)
    ensures FirstEmpty(l.tree.dirs[d]) < |l.tree.dirs[d]| || FreeSet(s) != {}
  {
    hide FirstEmpty, DirIs;
    var s1 :| InsertResult(s, s1, l.chains[d], l.tree.dirs[d], e, true, j, x) && s' == Counted(s1, s.files + 1);
    if x != 0 {
      assert x in [x];
      assert x in FreeSet(s);
    }
  }

  lemma AllocationFails(s: Fs, l: Layout, s1: Fs, stale: set<nat>, path: string, data: seq<Byte>, c: seq<nat>, start: nat)
    requires WellFormed(s, l) && HeaderSaved(s) && BaseOk(s1, stale, {}) && l.tree.root in l.tree.dirs
    requires ReachesAllocation(l.tree, path)
    requires |data| + 511 < 0x1_0000_0000
    requires AllocResult(s, s1, data, c, false, start)
    ensures CreateResult(s, l, s1, l, stale, path, data, false)
  {
    hide WellFormed, BaseOk, FreeSet, Walk, Find, FirstEmpty, Components, Allocated;
    SectorCountIsExactIff(|data|);
    AllocationKeepsWellFormed(s, s1, l, c, PaddedSectors(data, |c|));
    assert |FreeSet(s)| == |c|;
  }

  lemma NothingCounted(s: Fs, s1: Fs, data: seq<Byte>, c: seq<nat>, start: nat)
    requires AllocResult(s, s1, data, c, true, start) && |data| < 0x1_0000_0000 <= |data| + 511
    ensures c == [] && start == 0 && s1 == s
  {
    SectorCountIsExactIff(|data|);
  }

  /** A sector count of 0 is always met, so a failed allocation had something to count. */
  lemma SomethingCounted(s: Fs, s1: Fs, data: seq<Byte>, c: seq<nat>, start: nat)
    requires AllocResult(s, s1, data, c, false, start) && |data| < 0x1_0000_0000
    ensures |data| + 511 < 0x1_0000_0000
  {
    SectorCountIsExactIff(|data|);
  }

  lemma AllocationSucceeds(s: Fs, l: Layout, stale: set<nat>, s1: Fs, data: seq<Byte>, c: seq<nat>, start: nat, name: string)
    requires WellFormed(s, l) && HeaderSaved(s) && BaseOk(s1, stale, {})
    requires |data| + 511 < 0x1_0000_0000
    requires AllocResult(s, s1, data, c, true, start)
    ensures ValidFs(s1, l, stale) && c != []
    ensures Attachable(s1, l, c, Entry(StoredName(name), FlagFile, start, |data|), NewFile(Padded(data)))
  {
    hide BaseOk, FreeSet;
    SectorCountIsExactIff(|data|);
    FileIsAttachable(s, s1, l, c, data, Entry(StoredName(name), FlagFile, start, |data|));
    hide WellFormed, Allocated;
  }

  /** The last step of creation: the entry was inserted or the directory could not grow. */
  lemma CreationEnds(s: Fs, l: Layout, s1: Fs, s2: Fs, l2: Layout, stale: set<nat>, path: string, data: seq<Byte>,
                     d: nat, c: seq<nat>, start: nat, ok: bool, j: nat, x: nat)
    requires l.tree.root in l.tree.dirs && TreeOk(l.tree) && d in l.tree.dirs && d in l.chains
    requires |data| + 511 < 0x1_0000_0000
    requires AllocResult(s, s1, data, c, true, start)
    requires AddResult(s1, l, s2, l2, stale, d, Entry(StoredName(FinalName(path)), FlagFile, start, |data|), c, NewFile(Padded(data)), ok, j, x)
    requires FinalName(path) != "" && Walk(l.tree, Components(ParentPart(path))) == Some(d)
    requires Find(l.tree.dirs[d], FinalName(path)) == |l.tree.dirs[d]|
    ensures CreateResult(s, l, s2, l2, stale, path, data, ok)
  {
    hide WellFormed, BaseOk, FreeSet, Walk, Find, FirstEmpty, Components, Allocated, TreeOk, HomesOk, View, TreeInserted, AfterInsert, ValidFs, OneChainAdded, SameHeader, PathsAdded;
    SectorCountIsExactIff(|data|);
    if ok {
      ValidHomes(s2, l2, stale);
      var e := Entry(StoredName(FinalName(path)), FlagFile, start, |data|);
      FileIsNew(l, l2, d, e, j, x, c, data);
      EntryCreated(l.tree, l2.tree, l2.home, d, e, j, path, FileNode(data));
      CreatableIff(s, s1, l, path, d, |c|, ok);
      ChainAdded(s, l, s1, s2, l2, path, d, e, j, x, c, data);
    } else {
      CreatableIff(s, s1, l, path, d, |c|, ok);
    }
  }

  lemma FileIsNew(l: Layout, l': Layout, d: nat, e: Entry, j: nat, x: nat, c: seq<nat>, data: seq<Byte>)
    requires d in l.tree.dirs && d in l.chains && (x == 0 ==> j < |l.tree.dirs[d]|)
    requires l' == AfterInsert(l, d, e, j, x, c, NewFile(Padded(data))) && e.flag == FlagFile && e.size == |data|
    ensures NodeOf(l'.tree, e) == FileNode(data)
  {
  }

  lemma ChainAdded(s: Fs, l: Layout, s1: Fs, s2: Fs, l2: Layout, path: string, d: nat, e: Entry, j: nat, x: nat, c: seq<nat>, data: seq<Byte>)
    requires l.tree.root in l.tree.dirs && d in l.tree.dirs && d in l.chains && (x == 0 ==> j < |l.tree.dirs[d]|)
    requires |c| == SectorsFor(|data|) && Allocated(s, s1, c, PaddedSectors(data, |c|)) && TreeOk(l.tree)
    requires e == Entry(StoredName(FinalName(path)), FlagFile, c[0], |data|)
    requires l2 == AfterInsert(l, d, e, j, x, c, NewFile(Padded(data))) && TreeInserted(l.tree, l2.tree, d, e, j)
    requires FinalName(path) != "" && Walk(l.tree, Components(ParentPart(path))) == Some(d)
    requires Find(l.tree.dirs[d], FinalName(path)) == |l.tree.dirs[d]|
    requires e.start !in l.chains && |s2.fat| == |s1.fat| && (FirstEmpty(l.tree.dirs[d]) < |l.tree.dirs[d]| ==> s2.fat == s1.fat)
    requires FirstEmpty(l.tree.dirs[d]) == |l.tree.dirs[d]| ==> TakesSector(s1, s2, x)
    ensures OneChainAdded(s, l, s2, l2, path, |c|)
  {
    hide Walk, Find, FirstEmpty, Components, TreeOk, TreeInserted, FinalName, ParentPart, NamesFileAt, IsChain;
    InsertedChain(l, d, e, j, x, c, NewFile(Padded(data)));
    hide AfterInsert;
    if |FinalName(path)| <= NAME_MAX {
      EntryIsFound(l.tree, l2.tree, path, d, e, j);
    }
    if FirstEmpty(l.tree.dirs[d]) == |l.tree.dirs[d]| { SectorTaken(s, s1, s2, c, PaddedSectors(data, |c|), x); }
    assert NewChain(s, l, s2, l2, path, e.start, |c|);
  }

  lemma InsertedChain(l: Layout, d: nat, e: Entry, j: nat, x: nat, c: seq<nat>, o: Object)
    requires d in l.tree.dirs && d in l.chains && (x == 0 ==> j < |l.tree.dirs[d]|)
    ensures e.start in AfterInsert(l, d, e, j, x, c, o).chains && AfterInsert(l, d, e, j, x, c, o).chains[e.start] == c
  {
  }

  lemma SectorTaken(s: Fs, s1: Fs, s2: Fs, c: seq<nat>, content: seq<Sector>, x: nat)
    requires Allocated(s, s1, c, content) && TakesSector(s1, s2, x) && c != []
    ensures TakesSector(s, s2, x) && x !in c
  {
    forall i | 0 <= i < |c| ensures s1.fat[c[i]] != FAT_FREE {
      assert i + 1 < |c| ==> c[i + 1] in c;
    }
  }

  lemma EntryIsFound(t: Tree, t': Tree, path: string, d: nat, e: Entry, j: nat)
    requires TreeOk(t) && TreeInserted(t, t', d, e, j) && t.root in t.dirs && e.flag == FlagFile
    requires FinalName(path) != "" && Walk(t, Components(ParentPart(path))) == Some(d)
    requires Find(t.dirs[d], FinalName(path)) == |t.dirs[d]| && e.name == FinalName(path)
    ensures NamesFileAt(t', path, e.start)
  {
    hide Components, Walk, Find, NameStart;
    assert t'.root in t'.dirs;
    WalkInserted(t, t', d, e, j, Components(ParentPart(path)), Components(ParentPart(path)));
    FindInserted(t.dirs[d], t'.dirs[d], e, j, FinalName(path));
  }

  lemma CreatableIff(s: Fs, s1: Fs, l: Layout, path: string, d: nat, n: nat, ok: bool)
    requires l.tree.root in l.tree.dirs && d in l.tree.dirs
    requires FinalName(path) != "" && Walk(l.tree, Components(ParentPart(path))) == Some(d)
    requires Find(l.tree.dirs[d], FinalName(path)) == |l.tree.dirs[d]|
    requires |FreeSet(s1)| == |FreeSet(s)| - n
    requires ok <==> FirstEmpty(l.tree.dirs[d]) < |l.tree.dirs[d]| || FreeSet(s1) != {}
    ensures ok <==> Creatable(s, l, path, n)
  {
    hide FreeSet, Walk, Find, FirstEmpty, Components;
    assert FreeSet(s1) == {} <==> |FreeSet(s1)| == 0;
  }

  // ----------------------------------------------------------------- folders

  /** Folder creation takes the last free sector for the folder and then cannot grow the full parent. */
  ghost predicate RollsBack(s: Fs, l: Layout, path: string)
    requires l.tree.root in l.tree.dirs
  {
    && FinalName(path) != ""
    && var d := Walk(l.tree, Components(ParentPart(path)));
       && d.Some?
       && var slots := l.tree.dirs[d.value];
          && Find(slots, FinalName(path)) == |slots| && FirstEmpty(slots) == |slots| && |FreeSet(s)| == 1
  }

  /** The table on disk differs from the one in memory at sector `x`. */
  ghost predicate OutOfSync(s: Fs, x: nat) {
    var n := FatSectors(s.total);
    HasTable(s.disk, n) && x < LINKS * n && x < |s.fat| && s.fat[x] == FAT_FREE && DiskLink(s.disk, n, x) == FAT_EOF
  }

  /** Result of folder creation; the rollback leaves the disk table behind the one in memory. */
  ghost predicate FolderResult(s: Fs, l: Layout, s': Fs, l': Layout, stale: set<nat>, stale': set<nat>, path: string, ok: bool)
    requires l.tree.root in l.tree.dirs
  {
    && ValidFs(s', l', stale')
    && (ok <==> Creatable(s, l, path, 1))
    && (!ok ==> l' == l && s'.fat == s.fat && (!RollsBack(s, l, path) ==> s' == s))
    && (ok ==> PathsAdded(l.tree, l'.tree, path, FolderNode) && exists k :: ChainTaken(s, l, s', l', path, k, 1))
    && (ok ==> |FreeSet(s')| == |FreeSet(s)| - 1 - Growth(l.tree, path))
    && stale' == (if RollsBack(s, l, path) then stale + FreeSet(s) else stale)
    && (RollsBack(s, l, path) ==> forall x :: x in FreeSet(s) ==> OutOfSync(s', x))
  }

  lemma FolderAllocated(s: Fs, l: Layout, stale: set<nat>, s1: Fs, x: nat, name: string)
    requires WellFormed(s, l) && HeaderSaved(s) && BaseOk(s1, stale, {}) && SameHeader(s, s1)
    requires Allocated(s, s1, [x], [DirSector(EmptySlots(SLOTS))])
    ensures ValidFs(s1, l, stale)
    ensures Attachable(s1, l, [x], Entry(StoredName(name), FlagFolder, x, 0), NewDir(EmptySlots(SLOTS)))
  {
    hide BaseOk;
    FolderIsAttachable(s, s1, l, x, Entry(StoredName(name), FlagFolder, x, 0));
    hide WellFormed, Allocated;
  }

  lemma ValidHomes(s: Fs, l: Layout, stale: set<nat>)
    requires ValidFs(s, l, stale)
    ensures HomesOk(l.tree, l.home)
  {
    hide HomesOk, ChainsOk, Stored, BaseOk;
  }

  lemma NothingTaken(s: Fs)
    requires Geometry(s)
    ensures Allocated(s, s, [], [])
  {
    FatCovers(s.total);
  }

  lemma AddFailed(s: Fs, l: Layout, s': Fs, l': Layout, stale: set<nat>, d: nat, e: Entry, c: seq<nat>, o: Object, j: nat, x: nat)
    requires d in l.tree.dirs && d in l.chains && AddResult(s, l, s', l', stale, d, e, c, o, false, j, x)
    ensures s' == s && l' == l && FreeSet(s) == {} && FirstEmpty(l.tree.dirs[d]) == |l.tree.dirs[d]|
  {
    hide ValidFs;
  }

  lemma ValidRoot(s: Fs, l: Layout, stale: set<nat>)
    requires ValidFs(s, l, stale)
    ensures l.tree.root in l.tree.dirs && s.root >= 2
  {
    hide BaseOk, WellFormed;
    RootFacts(s, l);
  }

  lemma FolderEnds(s: Fs, l: Layout, s1: Fs, s2: Fs, l2: Layout, stale: set<nat>, path: string, d: nat, y: nat, j: nat, x: nat)
    requires l.tree.root in l.tree.dirs && TreeOk(l.tree) && d in l.tree.dirs && d in l.chains
    requires Allocated(s, s1, [y], [DirSector(EmptySlots(SLOTS))]) && |FreeSet(s1)| == |FreeSet(s)| - 1
    requires AddResult(s1, l, s2, l2, stale, d, Entry(StoredName(FinalName(path)), FlagFolder, y, 0), [y], NewDir(EmptySlots(SLOTS)), true, j, x)
    requires FinalName(path) != "" && Walk(l.tree, Components(ParentPart(path))) == Some(d)
    requires Find(l.tree.dirs[d], FinalName(path)) == |l.tree.dirs[d]|
    ensures FolderResult(s, l, s2, l2, stale, stale, path, true)
  {
    hide WellFormed, BaseOk, FreeSet, Walk, Find, FirstEmpty, Components, TreeOk, HomesOk, TreeInserted, ValidFs, PathsAdded, OutOfSync, ChainTaken, Allocated;
    var e := Entry(StoredName(FinalName(path)), FlagFolder, y, 0);
    ValidHomes(s2, l2, stale);
    assert NodeOf(l2.tree, e) == FolderNode;
    EntryCreated(l.tree, l2.tree, l2.home, d, e, j, path, FolderNode);
    CreatableIff(s, s1, l, path, d, 1, true);
    FolderChain(s, l, s1, s2, l2, path, d, e, j, x, y);
    assert !RollsBack(s, l, path);
  }

  lemma FolderChain(s: Fs, l: Layout, s1: Fs, s2: Fs, l2: Layout, path: string, d: nat, e: Entry, j: nat, x: nat, y: nat)
    requires l.tree.root in l.tree.dirs && d in l.tree.dirs && d in l.chains && (x == 0 ==> j < |l.tree.dirs[d]|) && e.start == y
    requires Allocated(s, s1, [y], [DirSector(EmptySlots(SLOTS))])
    requires l2 == AfterInsert(l, d, e, j, x, [y], NewDir(EmptySlots(SLOTS)))
    requires Walk(l.tree, Components(ParentPart(path))) == Some(d)
    requires y !in l.chains && |s2.fat| == |s1.fat| && (FirstEmpty(l.tree.dirs[d]) < |l.tree.dirs[d]| ==> s2.fat == s1.fat)
    requires FirstEmpty(l.tree.dirs[d]) == |l.tree.dirs[d]| ==> TakesSector(s1, s2, x)
    ensures ChainTaken(s, l, s2, l2, path, y, 1)
  {
    hide Walk, Find, FirstEmpty, Components;
    assert l2.chains[y] == [y];
    hide AfterInsert;
    assert y in [y];
    if FirstEmpty(l.tree.dirs[d]) == |l.tree.dirs[d]| { SectorTaken(s, s1, s2, [y], [DirSector(EmptySlots(SLOTS))], x); }
  }

  lemma SoleSector(s: Fs, s1: Fs, y: nat, v: Sector)
    requires Allocated(s, s1, [y], [v])
    ensures y < s1.total && y < |s1.fat| && s1.fat[y] == FAT_EOF
  {
    assert s1.fat[[y][0]] == FAT_EOF;
    assert y in [y];
  }

  /** The rollback restores the table in memory but not on disk. */
  lemma RollbackEnds(s: Fs, l: Layout, stale: set<nat>, s1: Fs, s2: Fs, path: string, d: nat, y: nat)
    requires l.tree.root in l.tree.dirs
    requires ValidFs(s, l, stale) && d in l.tree.dirs && SameHeader(s, s1) && BaseOk(s1, stale, {})
    requires Allocated(s, s1, [y], [DirSector(EmptySlots(SLOTS))]) && FreeSet(s) == {y}
    requires s2 == s1.(fat := s1.fat[y := FAT_FREE])
    requires FirstEmpty(l.tree.dirs[d]) == |l.tree.dirs[d]|
    requires FinalName(path) != "" && Walk(l.tree, Components(ParentPart(path))) == Some(d)
    requires Find(l.tree.dirs[d], FinalName(path)) == |l.tree.dirs[d]|
    ensures FolderResult(s, l, s2, l, stale, stale + {y}, path, false)
  {
    hide WellFormed, BaseOk, FreeSet, Walk, Find, FirstEmpty, Components, Allocated, HasTable;
    SoleSector(s, s1, y, DirSector(EmptySlots(SLOTS)));
    RollbackSaved(s1, s2, stale, y);
    TableUndone(s, s1, y);
    AllocationUndone(s, s1, s2, l, y);
    assert |FreeSet(s)| == 1;
  }

  lemma FolderIsValid(s: Fs, l: Layout, s': Fs, stale: set<nat>, stale': set<nat>, path: string)
    requires l.tree.root in l.tree.dirs && FolderResult(s, l, s', l, stale, stale', path, false)
    ensures ValidFs(s', l, stale')
  {
    hide ValidFs;
  }

  lemma TableUndone(s: Fs, s1: Fs, y: nat)
    requires Allocated(s, s1, [y], [DirSector(EmptySlots(SLOTS))]) && y < |s1.fat|
    ensures s1.fat[y := FAT_FREE] == s.fat
  {
    assert y in [y];
  }

  lemma RollbackSaved(s1: Fs, s2: Fs, stale: set<nat>, y: nat)
    requires BaseOk(s1, stale, {}) && y < s1.total && y < |s1.fat| && s1.fat[y] == FAT_EOF
    requires s2 == s1.(fat := s1.fat[y := FAT_FREE])
    ensures BaseOk(s2, stale + {y}, {}) && OutOfSync(s2, y)
  {
    var n := FatSectors(s1.total);
    assert LinkSaved(s1.fat, s1.disk, n, stale, y);
    forall x | 0 <= x < LINKS * n
      ensures LinkSaved(s2.fat, s2.disk, n, stale + {y}, x)
    {
      assert LinkSaved(s1.fat, s1.disk, n, stale, x);
    }
  }

  lemma AllocationUndone(s: Fs, s1: Fs, s2: Fs, l: Layout, y: nat)
    requires WellFormed(s, l) && Allocated(s, s1, [y], [DirSector(EmptySlots(SLOTS))])
    requires y < |s1.fat| && s2 == s1.(fat := s1.fat[y := FAT_FREE])
    ensures WellFormed(s2, l)
  {
    hide WellFormed, Agree, Allocated;
    WellFormedShape(s, l);
    forall k | k in l.chains
      ensures Agree(s.fat, s2.fat, l.chains[k]) && Agree(s.disk, s2.disk, l.chains[k])
    {
      ChainUntouched(s, s1, s2, l, y, k);
    }
    UndoneShape(s, s1, y);
    FrameKeepsWellFormed(s, s2, l);
  }

  lemma UndoneShape(s: Fs, s1: Fs, y: nat)
    requires Allocated(s, s1, [y], [DirSector(EmptySlots(SLOTS))]) && y < |s1.fat|
    ensures SameShape(s, s1.(fat := s1.fat[y := FAT_FREE])) && s1.files == s.files
  {
  }

  lemma ChainUntouched(s: Fs, s1: Fs, s2: Fs, l: Layout, y: nat, k: nat)
    requires Geometry(s) && s.root > 0 && ChainsOk(s.fat, s.root, s.total, l.chains) && k in l.chains
    requires Allocated(s, s1, [y], [DirSector(EmptySlots(SLOTS))]) && y < |s1.fat| && s2 == s1.(fat := s1.fat[y := FAT_FREE])
    ensures Agree(s.fat, s2.fat, l.chains[k]) && Agree(s.disk, s2.disk, l.chains[k])
  {
    hide IsChain, FatSectors;
    assert IsChain(s.fat, s.root, s.total, l.chains[k]);
    FatCovers(s.total);
    ChainInRange(s.fat, s.root, s.total, l.chains[k]);
    FreeIsApart(s, [y], l.chains[k]);
    assert y in [y];
  }

  // ---------------------------------------------------------------- deletion

  /** `path` names a file. */
  predicate Deletable(t: Tree, path: string)
    requires t.root in t.dirs
  {
    && FinalName(path) != ""
    && var e := Lookup(t, Components(ParentPart(path)), FinalName(path));
       e.Some? && e.value.flag == FlagFile
  }

  /** In a well-formed tree a path leads to a folder exactly if it denotes one. */
  lemma WalksIffFolder(t: Tree, home: map<nat, Slot>, p: seq<string>)
    requires t.root in t.dirs && HomesOk(t, home)
    ensures Walk(t, p).Some? <==> View(t, p) == Some(FolderNode)
  {
    if p != [] {
      var parent, n := p[..|p| - 1], p[|p| - 1];
      assert p == parent + [n];
      ViewSnoc(t, parent, n);
      if Walk(t, parent).Some? {
        var d := Walk(t, parent).value;
        var j := Find(t.dirs[d], n);
        hide Find, HomesOk, View;
        if j < |t.dirs[d]| {
          EntryFacts(t, home, d, j);
          SizeFits(t.dirs[d][j].size);
        }
      }
    }
  }

  /** What can be deleted is exactly what a path with a final name denotes as a file. */
  lemma DeletableIffFile(t: Tree, home: map<nat, Slot>, path: string)
    requires t.root in t.dirs && HomesOk(t, home)
    ensures Deletable(t, path) <==> FinalName(path) != "" && View(t, Target(path)).Some? && View(t, Target(path)).value.FileNode?
  {
    var parent, n := Components(ParentPart(path)), FinalName(path);
    hide HomesOk, View, Components, ParentPart, FinalName, Walk;
    ViewSnoc(t, parent, n);
    if Walk(t, parent).Some? {
      var d := Walk(t, parent).value;
      var j := Find(t.dirs[d], n);
      hide Find;
      if j < |t.dirs[d]| {
        EntryFacts(t, home, d, j);
        SizeFits(t.dirs[d][j].size);
      }
    }
  }

  /**
    A creation of `n` sectors succeeds exactly if there is a final name, the parent denotes a folder,
    the path denotes nothing, and the sectors, with one for a full parent, are free.
   */
  lemma CreatableIffAbsent(s: Fs, l: Layout, path: string, n: nat)
    requires l.tree.root in l.tree.dirs && HomesOk(l.tree, l.home)
    ensures Creatable(s, l, path, n) <==>
              && FinalName(path) != "" && View(l.tree, Components(ParentPart(path))) == Some(FolderNode)
              && View(l.tree, Target(path)) == None && |FreeSet(s)| >= n + Growth(l.tree, path)
  {
    hide HomesOk, View, Components, ParentPart, FinalName, Walk, FreeSet;
    WalksIffFolder(l.tree, l.home, Components(ParentPart(path)));
    ViewSnoc(l.tree, Components(ParentPart(path)), FinalName(path));
  }

  /** The slot of the entry `path` names. */
  function SlotFor(t: Tree, path: string): Slot
    requires t.root in t.dirs && Walk(t, Components(ParentPart(path))).Some?
  {
    var d := Walk(t, Components(ParentPart(path))).value;
    Slot(d, Find(t.dirs[d], FinalName(path)))
  }

  /** What a deletion means for paths. */
  ghost predicate PathsRemoved(t: Tree, t': Tree, path: string, x: Slot)
    requires t.root in t.dirs
  {
    && t'.root in t'.dirs && t'.root == t.root && IsLive(t, x)
    && (forall p {:trigger View(t', p)} :: View(t', p) == ViewWithout(t, x, Target(path), p))
    && (forall y {:trigger IsLive(t', y)} :: IsLive(t', y) <==> IsLive(t, y) && y != x)
    && (forall y {:trigger At(t', y)} :: IsLive(t', y) ==> At(t', y) == At(t, y))
    && (View(t', Target(path)) == None <==> Sole(t, x))
    && (Sole(t, x) ==> Removed(t, t', Target(path)))
    && (UniqueNames(t) ==> Sole(t, x) && UniqueNames(t'))
  }

  /** Result of deletion: the victim's chain is freed and nothing else. */
  ghost predicate DeleteResult(s: Fs, l: Layout, s': Fs, l': Layout, stale: set<nat>, path: string, removed: bool)
    requires l.tree.root in l.tree.dirs
  {
    && ValidFs(s', l', stale)
    && (removed <==> Deletable(l.tree, path))
    && (!removed ==> s' == s && l' == l)
    && (removed ==>
          var x := SlotFor(l.tree, path);
          && IsLive(l.tree, x) && At(l.tree, x).start in l.chains && |s'.fat| == |s.fat|
          && (forall y :: 0 <= y < |s.fat| ==> s'.fat[y] == if y in l.chains[At(l.tree, x).start] then FAT_FREE else s.fat[y])
          && l'.chains == l.chains - {At(l.tree, x).start}
          && PathsRemoved(l.tree, l'.tree, path, x))
  }

  lemma OneSlotEmptied(t: Tree, t': Tree, x: Slot)
    requires TreeRemoved(t, t', x)
    ensures forall y {:trigger IsLive(t', y)} :: IsLive(t', y) <==> IsLive(t, y) && y != x
    ensures forall y {:trigger At(t', y)} :: IsLive(t', y) ==> At(t', y) == At(t, y)
  {
  }

  lemma RemovalOfPaths(t: Tree, t': Tree, path: string, x: Slot)
    requires TreeOk(t) && TreeRemoved(t, t', x) && t.root in t.dirs
    requires Walk(t, Components(ParentPart(path))) == Some(x.dir) && x == SlotFor(t, path)
    requires At(t, x).name == FinalName(path) && At(t, x).flag == FlagFile
    ensures PathsRemoved(t, t', path, x)
  {
    RemoveKeepsTreeOk(t, t', x);
    assert t'.root in t'.dirs && t'.root == t.root;
    assert UniqueNames(t) ==> Sole(t, x);
    OneSlotEmptied(t, t', x);
    hide Components, View, TreeOk, TreeRemoved, Sole, Walk, Find, UniqueNames, FinalName, ParentPart, ViewWithout;
    forall p ensures View(t', p) == ViewWithout(t, x, Target(path), p) {
      ViewAfterRemoval(t, t', x, Components(ParentPart(path)), p);
    }
    if Sole(t, x) {
      SoleRemoval(t, t', path, x);
    } else {
      NonSoleRemoval(t, t', path, x);
    }
  }

  lemma SoleRemoval(t: Tree, t': Tree, path: string, x: Slot)
    requires TreeOk(t) && IsLive(t, x) && TreeRemoved(t, t', x) && Sole(t, x) && t.root in t.dirs && t'.root in t'.dirs
    requires Walk(t, Components(ParentPart(path))) == Some(x.dir) && x == SlotFor(t, path)
    requires At(t, x).name == FinalName(path) && At(t, x).flag == FlagFile
    ensures Removed(t, t', Target(path))
  {
    hide Components, View, TreeOk, TreeRemoved, Sole, Walk, Find, FinalName, ParentPart;
    var parent := Components(ParentPart(path));
    ViewSnoc(t, parent, FinalName(path));
    WalkSnoc(t, parent, FinalName(path));
    ViewRemoved(t, t', x, parent, Target(path));
    forall p | p != Target(path)
      ensures View(t', p) == View(t, p)
    {
      ViewRemoved(t, t', x, parent, p);
      if Target(path) <= p { NothingBelow(t, Target(path), p); }
    }
  }

  lemma {:induction false} ParentSurvives(t: Tree, t': Tree, x: Slot, p: seq<string>)
    requires TreeOk(t) && TreeRemoved(t, t', x) && t'.root in t'.dirs
    requires Walk(t, p).Some?
    ensures Walk(t', p) == Walk(t, p)
    decreases |p|
  {
    if p != [] {
      ParentSurvives(t, t', x, p[..|p| - 1]);
      var d, n := Walk(t, p[..|p| - 1]).value, p[|p| - 1];
      var j := Find(t.dirs[d], n);
      if d == x.dir {
        assert j != x.index;
        FindIs(t'.dirs[d], n, j);
      }
    }
  }

  lemma NonSoleRemoval(t: Tree, t': Tree, path: string, x: Slot)
    requires TreeOk(t) && TreeRemoved(t, t', x) && !Sole(t, x) && t'.root in t'.dirs
    requires Walk(t, Components(ParentPart(path))) == Some(x.dir) && x == SlotFor(t, path)
    requires At(t, x).name == FinalName(path)
    ensures View(t', Target(path)).Some?
  {
    var parent := Components(ParentPart(path));
    ParentSurvives(t, t', x, parent);
    RemovedIffSole(t, t', x);
    assert Target(path)[..|Target(path)| - 1] == parent;
  }

  lemma DeletedLinks(s: Fs, s': Fs, c: seq<nat>, dc: seq<nat>, slots: seq<Entry>, j: nat)
    requires Deleted(s, s', c, dc, slots, j)
    ensures |s'.fat| == |s.fat|
    ensures forall y :: 0 <= y < |s.fat| ==> s'.fat[y] == if y in c then FAT_FREE else s.fat[y]
  {
  }

  /** Freeing the chain, emptying the slot and counting down gives the stated result. */
  lemma DeletionEnds(s: Fs, l: Layout, stale: set<nat>, s': Fs, path: string, d: nat, k: nat)
    requires l.tree.root in l.tree.dirs
    requires WellFormed(s, l) && TreeOk(l.tree) && Deletable(l.tree, path) && d in l.tree.dirs && d in l.chains
    requires Walk(l.tree, Components(ParentPart(path))) == Some(d)
    requires var j := Find(l.tree.dirs[d], FinalName(path));
             && j < |l.tree.dirs[d]| && k == l.tree.dirs[d][j].start && k in l.chains
             && Deleted(s, s', l.chains[k], l.chains[d], l.tree.dirs[d], j)
    requires BaseOk(s', stale, {}) && HeaderSaved(s')
    ensures DeleteResult(s, l, s', Unregistered(l, k, d, Find(l.tree.dirs[d], FinalName(path))), stale, path, true)
  {
    hide WellFormed, BaseOk, Walk, Find, Components, TreeOk, HomesOk, View, UniqueNames, TreeRemoved, PathsRemoved, DirIs, Deleted;
    var j := Find(l.tree.dirs[d], FinalName(path));
    var e := l.tree.dirs[d][j];
    WellFormedHomes(s, l);
    EntryFacts(l.tree, l.home, d, j);
    DeleteKeepsWellFormed(s, s', l, k, d, j);
    var l' := Unregistered(l, k, d, j);
    assert IsLive(l.tree, Slot(d, j)) && At(l.tree, Slot(d, j)) == e;
    RemovalOfPaths(l.tree, l'.tree, path, Slot(d, j));
    DeletedLinks(s, s', l.chains[k], l.chains[d], l.tree.dirs[d], j);
  }

  /** The first `i` sectors of chain `c` have been given back. */
  ghost predicate ChainFreed(s: Fs, s': Fs, c: seq<nat>, i: nat) {
    && i <= |c| && SameHeader(s, s')
    && (forall x :: 0 <= x < |s.fat| ==> s'.fat[x] == if x in c[..i] then FAT_FREE else s.fat[x])
    && (forall y :: s.root <= y < |s.disk| ==> s'.disk[y] == s.disk[y])
  }

  lemma FreeOne(s: Fs, s1: Fs, s2: Fs, c: seq<nat>, i: nat)
    requires ChainFreed(s, s1, c, i) && i < |c| && c[i] < |s.fat|
    requires SameHeader(s1, s2) && s2.fat == s1.fat[c[i] := FAT_FREE]
    requires forall y :: s.root <= y < |s.disk| ==> s2.disk[y] == s1.disk[y]
    ensures ChainFreed(s, s2, c, i + 1)
  {
    assert c[..i + 1] == c[..i] + [c[i]];
  }

  /** What a chain walk reads next, with the first `i` sectors already freed. */
  lemma UnfreedLink(s: Fs, s1: Fs, c: seq<nat>, i: nat)
    requires ChainFreed(s, s1, c, i) && i < |c| && IsChain(s.fat, s.root, s.total, c)
    ensures c[i] < |s.fat| && c[i] < s.total
    ensures s1.fat[c[i]] == if i + 1 < |c| then c[i + 1] else FAT_EOF
  {
    forall j | 0 <= j < i
      ensures c[..i][j] != c[i]
    {
      assert Differ(c, j, i);
    }
    assert c[i] !in c[..i];
    assert s.fat[c[i]] == if i + 1 < |c| then c[i + 1] else FAT_EOF;
  }

  /** The slot is emptied and the count written after the chain was freed. */
  lemma EmptiedSlot(s: Fs, s1: Fs, s2: Fs, c: seq<nat>, dc: seq<nat>, slots: seq<Entry>, j: nat)
    requires ChainFreed(s, s1, c, |c|) && s.files > 0 && j < |slots| && s.root > 0
    requires DirIs(s.disk, dc, slots) && dc[j / SLOTS] < |s.disk| && s.root <= dc[j / SLOTS]
    requires s.disk[dc[j / SLOTS]].DirSector? && |s.disk[dc[j / SLOTS]].slots| == SLOTS
    requires s2 == Counted(s1.(disk := s1.disk[dc[j / SLOTS] := DirSector(s.disk[dc[j / SLOTS]].slots[j % SLOTS := slots[j].(flag := FlagEmpty)])]), s.files - 1)
    ensures Deleted(s, s2, c, dc, slots, j)
  {
    assert c[..|c|] == c;
  }

  lemma FreedShape(s: Fs, s1: Fs, c: seq<nat>)
    requires ChainFreed(s, s1, c, |c|)
    ensures SameHeader(s, s1) && forall y :: s.root <= y < |s.disk| ==> s1.disk[y] == s.disk[y]
  {
  }

  lemma SlotSector(fat: seq<nat>, lo: nat, hi: nat, disk: seq<Sector>, dc: seq<nat>, slots: seq<Entry>, j: nat)
    requires IsChain(fat, lo, hi, dc) && DirIs(disk, dc, slots) && j < |slots|
    ensures j / SLOTS < |dc| && lo <= dc[j / SLOTS] < hi && dc[j / SLOTS] < |disk|
    ensures disk[dc[j / SLOTS]].DirSector? && |disk[dc[j / SLOTS]].slots| == SLOTS
    ensures disk[dc[j / SLOTS]].slots[j % SLOTS] == slots[j]
  {
  }

  lemma HomeCounted(s: Fs, l: Layout, k: nat)
    requires WellFormed(s, l) && k in l.home
    ensures s.files > 0 && s.total > s.root >= 2
  {
    hide ChainsOk, Stored, HomesOk;
    assert k in l.home.Keys;
  }

  // ----------------------------------------------------------------- reading

  function NodeSize(n: Node): nat {
    match n
    case FileNode(data) => |data|
    case FolderNode => 0
  }

  function NodeBytes(n: Node): seq<Byte> {
    match n
    case FileNode(data) => data
    case FolderNode => []
  }

  /** What the entry found for a path has to do with what the path denotes. */
  lemma FoundIsView(t: Tree, home: map<nat, Slot>, path: string, d: nat)
    requires t.root in t.dirs && HomesOk(t, home) && Walk(t, Components(ParentPart(path))) == Some(d)
    ensures var j := Find(t.dirs[d], FinalName(path));
            && (View(t, Target(path)).Some? <==> j < |t.dirs[d]|)
            && (j < |t.dirs[d]| ==>
                  && NodeSize(View(t, Target(path)).value) == t.dirs[d][j].size
                  && (t.dirs[d][j].flag == FlagFile ==>
                        && t.dirs[d][j].start in t.files && t.dirs[d][j].size <= |t.files[t.dirs[d][j].start]|
                        && NodeBytes(View(t, Target(path)).value) == t.files[t.dirs[d][j].start][..t.dirs[d][j].size])
                  && (t.dirs[d][j].flag != FlagFile ==> t.dirs[d][j].size == 0 && NodeBytes(View(t, Target(path)).value) == []))
  {
    hide Components, ParentPart, FinalName, Walk, Find, HomesOk, View;
    ViewSnoc(t, Components(ParentPart(path)), FinalName(path));
    var j := Find(t.dirs[d], FinalName(path));
    if j < |t.dirs[d]| {
      EntryFacts(t, home, d, j);
      SizeFits(t.dirs[d][j].size);
    }
  }

  lemma NotFoundIsNoView(t: Tree, path: string)
    requires t.root in t.dirs && Walk(t, Components(ParentPart(path))).None?
    ensures View(t, Target(path)) == None
  {
    assert Target(path)[..|Target(path)| - 1] == Components(ParentPart(path));
  }

  // ----------------------------------------------------------------- listing

  datatype Info = Info(name: string, size: nat, isFolder: bool)

  function InfoOf(e: Entry): Info {
    Info(e.name, e.size, e.flag == FlagFolder)
  }

  /** The live entries of a directory in slot order. */
  function Listing(slots: seq<Entry>): seq<Info> {
    if slots == [] then []
    else
      var e := slots[|slots| - 1];
      Listing(slots[..|slots| - 1]) + if Live(e) then [InfoOf(e)] else []
  }

  lemma ListingSnoc(slots: seq<Entry>, i: nat)
    requires i < |slots|
    ensures Listing(slots[..i + 1]) == Listing(slots[..i]) + if Live(slots[i]) then [InfoOf(slots[i])] else []
  {
    assert slots[..i + 1][..i] == slots[..i];
  }

  lemma {:induction false} ListingGrows(slots: seq<Entry>, i: nat)
    requires i <= |slots|
    ensures Listing(slots[..i]) <= Listing(slots)
    decreases |slots| - i
  {
    if i < |slots| {
      ListingSnoc(slots, i);
      ListingGrows(slots, i + 1);
    } else {
      assert slots[..i] == slots;
    }
  }

  lemma NothingListed(slots: seq<Entry>)
    ensures slots[..0] == [] && Listing(slots[..0]) == []
  {
  }

  /** The first `max` elements. */
  function Take(list: seq<Info>, max: int): seq<Info> {
    if max <= 0 then [] else if |list| <= max then list else list[..max]
  }

  /** No earlier item has the same name. */
  ghost predicate FirstListed(list: seq<Info>, i: nat)
    requires i < |list|
  {
    forall j :: 0 <= j < i ==> list[j].name != list[i].name
  }

  /** Every live name is listed. */
  lemma {:induction false} NamesListed(slots: seq<Entry>, name: string, j: nat) returns (i: nat)
    requires j < |slots| && Named(slots[j], name)
    ensures i < |Listing(slots)| && Listing(slots)[i].name == name
    decreases |slots|
  {
    var init := slots[..|slots| - 1];
    if j < |init| {
      i := NamesListed(init, name, j);
    } else {
      i := |Listing(init)|;
    }
  }

  /** The first item of a name is the entry found under it. */
  lemma {:induction false} FirstIsFound(slots: seq<Entry>, i: nat)
    requires i < |Listing(slots)| && FirstListed(Listing(slots), i)
    ensures var j := Find(slots, Listing(slots)[i].name);
            j < |slots| && Live(slots[j]) && Listing(slots)[i] == InfoOf(slots[j])
    decreases |slots|
  {
    hide Find;
    var init := slots[..|slots| - 1];
    var name := Listing(slots)[i].name;
    if i < |Listing(init)| {
      assert Listing(init)[i] == Listing(slots)[i];
      assert forall j :: 0 <= j < i ==> Listing(init)[j] == Listing(slots)[j];
      FirstIsFound(init, i);
      var j := Find(init, name);
      assert Named(slots[j], name) && forall k :: 0 <= k < j ==> init[k] == slots[k];
      FoundAt(slots, name, j);
    } else {
      assert Listing(init) == Listing(slots)[..i];
      forall j | 0 <= j < |init| ensures !Named(slots[j], name) {
        if Named(init[j], name) { var k := NamesListed(init, name, j); }
      }
      FoundAt(slots, name, |init|);
    }
  }

  lemma FoundAt(slots: seq<Entry>, name: string, j: nat)
    requires j < |slots| && Named(slots[j], name) && forall k :: 0 <= k < j ==> !Named(slots[k], name)
    ensures Find(slots, name) == j
  {
  }

  /** The item tells what a path of its name denotes: folder or file, and the size. */
  predicate Describes(item: Info, n: Node) {
    item.isFolder == n.FolderNode? && item.size == NodeSize(n)
  }

  /** Item `i`, if it is the first of its name, describes what the folder's path extended by that name denotes. */
  ghost predicate ItemIsView(t: Tree, p: seq<string>, list: seq<Info>, i: nat)
    requires t.root in t.dirs && i < |list|
  {
    FirstListed(list, i) ==> var v := View(t, p + [list[i].name]); v.Some? && Describes(list[i], v.value)
  }

  ghost predicate ItemsAreViews(t: Tree, p: seq<string>, list: seq<Info>)
    requires t.root in t.dirs
  {
    forall i {:trigger list[i]} :: 0 <= i < |list| ==> ItemIsView(t, p, list, i)
  }

  /** Whatever the folder's path extended by one name denotes is listed under that name. */
  ghost predicate EveryNameListed(t: Tree, p: seq<string>, list: seq<Info>)
    requires t.root in t.dirs
  {
    forall name {:trigger View(t, p + [name])} :: View(t, p + [name]).Some? ==> exists i :: 0 <= i < |list| && list[i].name == name
  }

  /** A listing tells exactly the paths below the folder. */
  lemma ListingIsView(t: Tree, home: map<nat, Slot>, p: seq<string>, d: nat)
    requires t.root in t.dirs && HomesOk(t, home) && Walk(t, p) == Some(d)
    ensures ItemsAreViews(t, p, Listing(t.dirs[d]))
    ensures EveryNameListed(t, p, Listing(t.dirs[d]))
  {
    hide Walk, Find, HomesOk, View, Listing;
    var list := Listing(t.dirs[d]);
    forall i | 0 <= i < |list| ensures ItemIsView(t, p, list, i) {
      if FirstListed(list, i) {
        FirstIsFound(t.dirs[d], i);
        var j := Find(t.dirs[d], list[i].name);
        ViewSnoc(t, p, list[i].name);
        EntryFacts(t, home, d, j);
        SizeFits(t.dirs[d][j].size);
      }
    }
    forall name | View(t, p + [name]).Some? ensures exists i :: 0 <= i < |list| && list[i].name == name {
      ViewSnoc(t, p, name);
      var i := NamesListed(t.dirs[d], name, Find(t.dirs[d], name));
    }
  }

  /** So does the part of it that fits. */
  lemma PartIsView(t: Tree, p: seq<string>, list: seq<Info>, max: int)
    requires t.root in t.dirs && ItemsAreViews(t, p, list)
    ensures var part := Take(list, max);
            && part <= list && (|part| < max ==> part == list) && (max >= 0 ==> |part| <= max)
            && ItemsAreViews(t, p, part)
  {
    hide View;
    var part := Take(list, max);
    forall i | 0 <= i < |part| ensures ItemIsView(t, p, part, i) {
      assert part[i] == list[i] && ItemIsView(t, p, list, i);
      assert forall j :: 0 <= j < i ==> part[j] == list[j];
    }
  }

  // -------------------------------------------------------------- formatting

  /** The first `n` table sectors on disk hold the links of `fat`. */
  ghost predicate TableWritten(disk: seq<Sector>, fat: seq<nat>, n: nat) {
    && LINKS * n <= |fat| && 1 + n <= |disk|
    && forall i :: 0 <= i < n ==> disk[1 + i] == FatSector(fat[LINKS * i..LINKS * i + LINKS])
  }

  lemma TableKept(disk: seq<Sector>, disk': seq<Sector>, fat: seq<nat>, n: nat, y: nat)
    requires TableWritten(disk, fat, n) && n < y < |disk|
    requires |disk'| == |disk| && disk' == disk[y := disk'[y]]
    ensures TableWritten(disk', fat, n)
  {
  }

  lemma FormattedIsFree(s: Fs)
    requires s.total <= |s.fat| && forall x :: s.root < x < s.total ==> s.fat[x] == FAT_FREE
    ensures forall x :: x in FreeSet(s) <==> s.root < x < s.total
  {
  }

  /** What `s` has to do with the volume `prior` it was mounted from. */
  ghost predicate MountOf(prior: Fs, lost: set<nat>, s: Fs) {
    HasTable(prior.disk, FatSectors(prior.total)) && s == Remounted(prior) && (lost == {} ==> s == prior)
  }

  /** A freshly formatted volume: every sector behind the root is free. */
  lemma FormattedIsValid(s: Fs)
    requires Geometry(s) && s.files == 0 && HeaderSaved(s)
    requires s.root < |s.fat| && s.fat[s.root] == FAT_EOF && s.disk[s.root] == DirSector(EmptySlots(SLOTS))
    requires TableWritten(s.disk, s.fat, FatSectors(s.total))
    ensures ValidFs(s, EmptyLayout(s.root), {})
  {
    var l, n := EmptyLayout(s.root), FatSectors(s.total);
    FatCovers(s.total);
    FormattedTable(s.fat, s.disk, n);
    assert EmptySlots(SLOTS)[0..16] == EmptySlots(SLOTS);
    assert Distinct([s.root]);
    assert IsChain(s.fat, s.root, s.total, [s.root]);
    assert HomesOk(l.tree, l.home);
  }

  lemma FormattedTable(fat: seq<nat>, disk: seq<Sector>, n: nat)
    requires |fat| == LINKS * n && TableWritten(disk, fat, n)
    ensures Saved(fat, disk, n, {}, {})
  {
    assert HasTable(disk, n) by {
      forall i | 1 <= i <= n
        ensures disk[i].FatSector? && |disk[i].links| == LINKS
      {
        var k := i - 1;
        assert disk[1 + k] == FatSector(fat[LINKS * k..LINKS * k + LINKS]);
      }
    }
    forall x | 0 <= x < LINKS * n
      ensures LinkSaved(fat, disk, n, {}, x)
    {
      assert disk[1 + x / LINKS].links == fat[LINKS * (x / LINKS)..LINKS * (x / LINKS) + LINKS];
    }
  }

  /** A volume read back from its disk is valid, with the layout it had, and nothing stale. */
  lemma MountedIsValid(prior: Fs, l: Layout, lost: set<nat>, s: Fs)
    requires ValidFs(prior, l, lost)
    requires |s.fat| == LINKS * FatSectors(prior.total) && s.total == prior.total && s.disk == prior.disk
    requires HasTable(s.disk, FatSectors(s.total))
    requires forall x :: 0 <= x < |s.fat| ==> s.fat[x] == DiskLink(s.disk, FatSectors(s.total), x)
    requires s.disk != [] && s.disk[0].HeaderSector? && s.root == s.disk[0].rootDir && s.files == s.disk[0].fileCount
    ensures ValidFs(s, l, {}) && MountOf(prior, lost, s)
  {
    hide WellFormed;
    assert s == Remounted(prior);
    RemountKeepsTree(prior, l, lost);
    assert forall x :: 0 <= x < |s.fat| ==> LinkSaved(s.fat, s.disk, FatSectors(s.total), {}, x);
  }

  /** A formatted volume: the empty tree on the same disk, every sector behind the root free. */
  ghost predicate FormatResult(s: Fs, s': Fs, l': Layout) {
    && ValidFs(s', l', {}) && l' == EmptyLayout(s'.root) && s'.total == s.total && s'.files == 0
    && forall x :: x in FreeSet(s') <==> s'.root < x < s'.total
  }

  lemma ValidHasTable(s: Fs, l: Layout, stale: set<nat>)
    requires ValidFs(s, l, stale)
    ensures HasTable(s.disk, FatSectors(s.total)) && s.disk != []
  {
    hide WellFormed;
  }
}
