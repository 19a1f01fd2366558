/**
  What each KyuzenFS operation does to the volume, as relations between the
  volume before and after, and what those effects keep: the layout invariant
  and the abstract tree.
 */
module KfsEffects {
  import opened Basics
  import opened KfsTree
  import opened KfsDisk

  predicate SameShape(s: Fs, s': Fs) {
    s'.total == s.total && s'.root == s.root && |s'.fat| == |s.fat| && |s'.disk| == |s.disk|
  }

  // ------------------------------------------------------------------ frames

  ghost predicate Agree<T>(a: seq<T>, b: seq<T>, c: seq<nat>) {
    |a| == |b| && forall x :: x in c ==> x < |a| && a[x] == b[x]
  }

  lemma ChainInRange(fat: seq<nat>, lo: nat, hi: nat, c: seq<nat>)
    requires IsChain(fat, lo, hi, c)
    ensures c != [] && Distinct(c)
    ensures forall x :: x in c ==> lo <= x < hi
  {
  }

  /** A chain only depends on the links of its own sectors. */
  lemma ChainFrame(fat: seq<nat>, fat': seq<nat>, lo: nat, hi: nat, c: seq<nat>)
    requires IsChain(fat, lo, hi, c) && Agree(fat, fat', c)
    ensures IsChain(fat', lo, hi, c)
  {
    assert forall i :: 0 <= i < |c| ==> c[i] in c;
  }

  /** An object only depends on the sectors of its own chain. */
  lemma DirFrame(disk: seq<Sector>, disk': seq<Sector>, c: seq<nat>, slots: seq<Entry>)
    requires Agree(disk, disk', c) && DirIs(disk, c, slots)
    ensures DirIs(disk', c, slots)
  {
    assert forall i :: 0 <= i < |c| ==> c[i] in c;
  }

  lemma FileFrame(disk: seq<Sector>, disk': seq<Sector>, c: seq<nat>, bytes: seq<Byte>)
    requires Agree(disk, disk', c) && FileIs(disk, c, bytes)
    ensures FileIs(disk', c, bytes)
  {
    assert forall i :: 0 <= i < |c| ==> c[i] in c;
  }

  /** If table and disk agree on every live chain, the invariant is kept with the same layout. */
  lemma FrameKeepsWellFormed(s: Fs, s': Fs, l: Layout)
    requires WellFormed(s, l) && SameShape(s, s') && s'.files == s.files
    requires forall k :: k in l.chains ==> Agree(s.fat, s'.fat, l.chains[k]) && Agree(s.disk, s'.disk, l.chains[k])
    ensures WellFormed(s', l)
  {
    forall k | k in l.chains
      ensures IsChain(s'.fat, s'.root, s'.total, l.chains[k])
    {
      ChainFrame(s.fat, s'.fat, s.root, s.total, l.chains[k]);
    }
    StoredFrame(s.disk, s'.disk, l.chains, l.tree);
  }

  lemma StoredFrame(disk: seq<Sector>, disk': seq<Sector>, chains: map<nat, seq<nat>>, t: Tree)
    requires Stored(disk, chains, t)
    requires forall k :: k in chains ==> Agree(disk, disk', chains[k])
    ensures Stored(disk', chains, t)
  {
    forall k | k in t.dirs
      ensures DirIs(disk', chains[k], t.dirs[k])
    {
      DirFrame(disk, disk', chains[k], t.dirs[k]);
    }
    forall k | k in t.files
      ensures FileIs(disk', chains[k], t.files[k])
    {
      FileFrame(disk, disk', chains[k], t.files[k]);
    }
  }

  // -------------------------------------------------------------- allocation

  ghost predicate FreeSectors(s: Fs, c: seq<nat>) {
    && s.total <= |s.fat| && s.total <= |s.disk| && Distinct(c)
    && (forall x :: x in c ==> s.root < x < s.total && s.fat[x] == FAT_FREE)
  }

  /** Sectors `c`, free before, are linked into one chain and filled with `content`. */
  ghost predicate Allocated(s: Fs, s': Fs, c: seq<nat>, content: seq<Sector>) {
    && SameShape(s, s') && s'.files == s.files
    && |content| == |c| && FreeSectors(s, c)
    && (c != [] ==> IsChain(s'.fat, s.root, s.total, c))
    && (forall x :: 0 <= x < |s.fat| && x !in c ==> s'.fat[x] == s.fat[x])
    && (forall i :: 0 <= i < |c| ==> c[i] < |s'.disk| && s'.disk[c[i]] == content[i])
    && (forall x :: s.root <= x < |s.disk| && x !in c ==> s'.disk[x] == s.disk[x])
  }

  /** Free sectors lie on no chain. */
  lemma FreeIsApart(s: Fs, c: seq<nat>, other: seq<nat>)
    requires FreeSectors(s, c) && IsChain(s.fat, s.root, s.total, other) && s.root > 0
    ensures Apart(other, c) && Apart(c, other)
  {
    forall x | x in other
      ensures x !in c
    {
      var i :| 0 <= i < |other| && other[i] == x;
      assert s.fat[other[i]] != FAT_FREE;
    }
  }

  /** Allocation, complete or cut short by a full disk, changes nothing that is live. */
  lemma AllocationKeepsWellFormed(s: Fs, s': Fs, l: Layout, c: seq<nat>, content: seq<Sector>)
    requires WellFormed(s, l) && Allocated(s, s', c, content)
    ensures WellFormed(s', l)
    ensures forall k :: k in l.chains ==> Apart(c, l.chains[k])
  {
    forall k | k in l.chains
      ensures Agree(s.fat, s'.fat, l.chains[k]) && Agree(s.disk, s'.disk, l.chains[k])
      ensures Apart(c, l.chains[k])
    {
      ChainInRange(s.fat, s.root, s.total, l.chains[k]);
      FreeIsApart(s, c, l.chains[k]);
    }
    FrameKeepsWellFormed(s, s', l);
  }

  // --------------------------------------------------------------- insertion

  function EmptySlots(n: nat): (r: seq<Entry>)
    ensures |r| == n && forall i :: 0 <= i < n ==> r[i] == EMPTY_ENTRY
  {
    seq(n, _ => EMPTY_ENTRY)
  }

  /** `e` overwrites the first empty slot `j` of the directory `slots` on chain `c`. */
  ghost predicate SlotReused(s: Fs, s': Fs, c: seq<nat>, slots: seq<Entry>, e: Entry, j: nat) {
    && SameShape(s, s') && s'.fat == s.fat && s'.files == s.files
    && DirIs(s.disk, c, slots)
    && j < |slots| && j == FirstEmpty(slots)
    && c[j / SLOTS] < |s.disk| && s.disk[c[j / SLOTS]].DirSector? && |s.disk[c[j / SLOTS]].slots| == SLOTS
    && s'.disk[c[j / SLOTS]] == DirSector(s.disk[c[j / SLOTS]].slots[j % SLOTS := e])
    && (forall x :: s.root <= x < |s.disk| && x != c[j / SLOTS] ==> s'.disk[x] == s.disk[x])
  }

  /** The directory `slots` on chain `c` is full and grows by the free sector `x`, whose first slot is `e`. */
  ghost predicate ChainExtended(s: Fs, s': Fs, c: seq<nat>, slots: seq<Entry>, e: Entry, x: nat) {
    && SameShape(s, s') && s'.files == s.files
    && DirIs(s.disk, c, slots) && FirstEmpty(slots) == |slots|
    && FreeSectors(s, [x])
    && c != [] && c[|c| - 1] < |s.fat| && x < |s.fat| && s'.fat == s.fat[c[|c| - 1] := x][x := FAT_EOF]
    && x < |s'.disk| && s'.disk[x] == DirSector([e] + EmptySlots(SLOTS - 1))
    && (forall y :: s.root <= y < |s.disk| && y != x ==> s'.disk[y] == s.disk[y])
  }

  /** What a new entry points at: an empty directory or a file's raw bytes. */
  datatype Object = NewDir(slots: seq<Entry>) | NewFile(bytes: seq<Byte>)

  ghost predicate ObjectIs(disk: seq<Sector>, c: seq<nat>, e: Entry, o: Object) {
    match o
    case NewDir(slots) => e.flag == FlagFolder && e.size == 0 && DirIs(disk, c, slots) && forall i :: 0 <= i < |slots| ==> !Live(slots[i])
    case NewFile(bytes) => e.flag == FlagFile && FileIs(disk, c, bytes) && |c| == SectorsFor(e.size)
  }

  /** Chain `c` is ready to become the object of entry `e`. */
  ghost predicate Attachable(s: Fs, l: Layout, c: seq<nat>, e: Entry, o: Object) {
    && IsChain(s.fat, s.root, s.total, c) && c[0] == e.start
    && (forall k :: k in l.chains ==> Apart(c, l.chains[k]))
    && |e.name| <= NAME_MAX && ObjectIs(s.disk, c, e, o)
  }

  /** The tree after directory `d` became `slots` and gained entry `e` for object `o`. */
  function Grown(t: Tree, d: nat, slots: seq<Entry>, e: Entry, o: Object): Tree {
    match o
    case NewDir(ds) => Tree(t.root, t.dirs[d := slots][e.start := ds], t.files)
    case NewFile(bs) => Tree(t.root, t.dirs[d := slots], t.files[e.start := bs])
  }

  /** The layout after directory `d` moved to chain `dc` and gained entry `e` at slot `j`, whose object is on chain `c`. */
  function Registered(l: Layout, d: nat, dc: seq<nat>, slots: seq<Entry>, e: Entry, j: nat, c: seq<nat>, o: Object): Layout {
    Layout(Grown(l.tree, d, slots, e, o), l.chains[d := dc][e.start := c], l.home[e.start := Slot(d, j)])
  }

  lemma NewStart(fat: seq<nat>, lo: nat, hi: nat, chains: map<nat, seq<nat>>, c: seq<nat>)
    requires ChainsOk(fat, lo, hi, chains) && IsChain(fat, lo, hi, c)
    requires forall k :: k in chains ==> Apart(c, chains[k])
    ensures c != [] && c[0] !in chains
    ensures forall k :: k in chains ==> Apart(chains[k], c)
  {
    forall k | k in chains
      ensures k != c[0]
    {
      assert chains[k][0] in chains[k];
    }
    assert c[0] in c;
  }

  /** The chain of directory `d` is now `dc`; outside `dc` table and disk are as before. */
  ghost predicate Replaced(s: Fs, s': Fs, chains: map<nat, seq<nat>>, d: nat, dc: seq<nat>) {
    && SameShape(s, s') && d in chains && s.total <= |s.fat| && s.total <= |s.disk|
    && IsChain(s'.fat, s.root, s.total, dc) && dc[0] == d
    && (forall k :: k in chains && k != d ==> Apart(chains[k], dc) && Apart(dc, chains[k]))
    && (forall x :: 0 <= x < |s.fat| && x !in dc ==> s'.fat[x] == s.fat[x])
    && (forall x :: s.root <= x < |s.disk| && x !in dc ==> s'.disk[x] == s.disk[x])
  }

  lemma ReplacedAgree(s: Fs, s': Fs, chains: map<nat, seq<nat>>, d: nat, dc: seq<nat>, a: seq<nat>)
    requires Replaced(s, s', chains, d, dc) && Apart(a, dc) && IsChain(s.fat, s.root, s.total, a)
    ensures Agree(s.fat, s'.fat, a) && Agree(s.disk, s'.disk, a)
  {
    ChainInRange(s.fat, s.root, s.total, a);
  }

  lemma RegisteredChains(s: Fs, s': Fs, chains: map<nat, seq<nat>>, d: nat, dc: seq<nat>, k: nat, c: seq<nat>)
    requires ChainsOk(s.fat, s.root, s.total, chains) && Replaced(s, s', chains, d, dc)
    requires IsChain(s.fat, s.root, s.total, c) && c[0] == k && k !in chains
    requires Apart(c, dc) && Apart(dc, c)
    requires forall m :: m in chains ==> Apart(chains[m], c) && Apart(c, chains[m])
    ensures ChainsOk(s'.fat, s.root, s.total, chains[d := dc][k := c])
  {
    var chains' := chains[d := dc][k := c];
    forall m | m in chains'
      ensures IsChain(s'.fat, s.root, s.total, chains'[m]) && chains'[m][0] == m
    {
      if m == k {
        ReplacedAgree(s, s', chains, d, dc, c);
        ChainFrame(s.fat, s'.fat, s.root, s.total, c);
      } else if m != d {
        ReplacedAgree(s, s', chains, d, dc, chains[m]);
        ChainFrame(s.fat, s'.fat, s.root, s.total, chains[m]);
      }
    }
    forall m, n | m in chains' && n in chains' && m != n
      ensures Apart(chains'[m], chains'[n])
    {
      if m != k && n != k && m != d && n != d {
        assert Apart(chains[m], chains[n]);
      }
    }
  }

  lemma ReplacedKeepsDir(s: Fs, s': Fs, chains: map<nat, seq<nat>>, d: nat, dc: seq<nat>, a: seq<nat>, slots: seq<Entry>)
    requires Replaced(s, s', chains, d, dc) && Apart(a, dc) && IsChain(s.fat, s.root, s.total, a)
    requires DirIs(s.disk, a, slots)
    ensures DirIs(s'.disk, a, slots)
  {
    ReplacedAgree(s, s', chains, d, dc, a);
    DirFrame(s.disk, s'.disk, a, slots);
  }

  lemma ReplacedKeepsFile(s: Fs, s': Fs, chains: map<nat, seq<nat>>, d: nat, dc: seq<nat>, a: seq<nat>, bytes: seq<Byte>)
    requires Replaced(s, s', chains, d, dc) && Apart(a, dc) && IsChain(s.fat, s.root, s.total, a)
    requires FileIs(s.disk, a, bytes)
    ensures FileIs(s'.disk, a, bytes)
  {
    ReplacedAgree(s, s', chains, d, dc, a);
    FileFrame(s.disk, s'.disk, a, bytes);
  }

  lemma RegisteredDirs(s: Fs, s': Fs, chains: map<nat, seq<nat>>, dirs: map<nat, seq<Entry>>, d: nat, dc: seq<nat>, slots: seq<Entry>, k: nat, c: seq<nat>)
    requires ChainsOk(s.fat, s.root, s.total, chains) && Replaced(s, s', chains, d, dc)
    requires DirsStored(s.disk, chains, dirs) && k !in chains && DirIs(s'.disk, dc, slots)
    ensures DirsStored(s'.disk, chains[d := dc][k := c], dirs[d := slots])
  {
    forall m | m in dirs && m != d
      ensures DirIs(s'.disk, chains[m], dirs[m])
    {
      ReplacedKeepsDir(s, s', chains, d, dc, chains[m], dirs[m]);
    }
  }

  lemma RegisteredFiles(s: Fs, s': Fs, chains: map<nat, seq<nat>>, files: map<nat, seq<Byte>>, d: nat, dc: seq<nat>, k: nat, c: seq<nat>)
    requires ChainsOk(s.fat, s.root, s.total, chains) && Replaced(s, s', chains, d, dc)
    requires FilesStored(s.disk, chains, files) && k !in chains && d !in files
    ensures FilesStored(s'.disk, chains[d := dc][k := c], files)
  {
    forall m | m in files
      ensures FileIs(s'.disk, chains[m], files[m])
    {
      ReplacedKeepsFile(s, s', chains, d, dc, chains[m], files[m]);
    }
  }

  lemma RegisteredStored(s: Fs, s': Fs, l: Layout, d: nat, dc: seq<nat>, slots: seq<Entry>, e: Entry, j: nat, c: seq<nat>, o: Object)
    requires ChainsOk(s.fat, s.root, s.total, l.chains) && Replaced(s, s', l.chains, d, dc)
    requires Stored(s.disk, l.chains, l.tree) && d in l.tree.dirs && e.start !in l.chains
    requires IsChain(s.fat, s.root, s.total, c) && Apart(c, dc)
    requires DirIs(s'.disk, dc, slots) && ObjectIs(s.disk, c, e, o)
    ensures var l' := Registered(l, d, dc, slots, e, j, c, o); Stored(s'.disk, l'.chains, l'.tree)
  {
    hide IsChain, DirIs, FileIs, Apart, Agree, ChainsOk, Replaced, DirsStored, FilesStored;
    RegisteredDirs(s, s', l.chains, l.tree.dirs, d, dc, slots, e.start, c);
    RegisteredFiles(s, s', l.chains, l.tree.files, d, dc, e.start, c);
    match o {
      case NewDir(ds) =>
        ReplacedKeepsDir(s, s', l.chains, d, dc, c, ds);
        OneMoreDir(s'.disk, l.chains[d := dc], l.tree.dirs[d := slots], e.start, c, ds);
      case NewFile(bs) =>
        ReplacedKeepsFile(s, s', l.chains, d, dc, c, bs);
        OneMoreFile(s'.disk, l.chains[d := dc], l.tree.files, e.start, c, bs);
    }
  }

  lemma OneMoreDir(disk: seq<Sector>, chains: map<nat, seq<nat>>, dirs: map<nat, seq<Entry>>, k: nat, c: seq<nat>, slots: seq<Entry>)
    requires DirsStored(disk, chains[k := c], dirs) && DirIs(disk, c, slots) && k !in dirs
    ensures DirsStored(disk, chains[k := c], dirs[k := slots])
  {
    hide DirIs;
  }

  lemma OneMoreFile(disk: seq<Sector>, chains: map<nat, seq<nat>>, files: map<nat, seq<Byte>>, k: nat, c: seq<nat>, bytes: seq<Byte>)
    requires FilesStored(disk, chains[k := c], files) && FileIs(disk, c, bytes) && k !in files
    ensures FilesStored(disk, chains[k := c], files[k := bytes])
  {
    hide FileIs;
  }

  lemma GrownTree(t: Tree, d: nat, slots: seq<Entry>, e: Entry, j: nat, o: Object, disk: seq<Sector>, c: seq<nat>)
    requires d in t.dirs && e.start !in t.dirs && e.start !in t.files
    requires SlotsInserted(t.dirs[d], slots, e, j) && ObjectIs(disk, c, e, o)
    ensures var t' := Grown(t, d, slots, e, o);
            && TreeInserted(t, t', d, e, j)
            && (e.flag == FlagFile ==> |t'.files[e.start]| == SECTOR * SectorsFor(e.size))
            && (e.flag == FlagFolder ==> e.size == 0)
  {
    SizeFits(e.size);
  }

  lemma InsertedLive(t: Tree, t': Tree, d: nat, e: Entry, j: nat, x: Slot)
    requires TreeInserted(t, t', d, e, j) && IsLive(t', x)
    ensures x == Slot(d, j) ==> At(t', x) == e
    ensures x != Slot(d, j) ==> IsLive(t, x) && At(t', x) == At(t, x)
  {
  }

  lemma InsertedHome(t: Tree, t': Tree, home: map<nat, Slot>, d: nat, e: Entry, j: nat, k: nat)
    requires TreeInserted(t, t', d, e, j) && HomeOk(t, home, k) && k != e.start
    ensures HomeOk(t', home[e.start := Slot(d, j)], k)
  {
    assert At(t', home[k]) == At(t, home[k]);
  }

  lemma InsertedMatch(t: Tree, t': Tree, home: map<nat, Slot>, d: nat, e: Entry, j: nat)
    requires HomesMatch(t, home) && TreeInserted(t, t', d, e, j)
    requires |e.name| <= NAME_MAX && (e.flag == FlagFolder ==> e.size == 0)
    requires e.flag == FlagFile ==> |t'.files[e.start]| == SECTOR * SectorsFor(e.size)
    ensures HomesMatch(t', home[e.start := Slot(d, j)])
  {
    var home' := home[e.start := Slot(d, j)];
    assert IsLive(t', Slot(d, j)) && At(t', Slot(d, j)) == e;
    forall k | k in home'
      ensures HomeOk(t', home', k)
    {
      hide TreeInserted;
      if k != e.start { InsertedHome(t, t', home, d, e, j, k); }
    }
  }

  lemma InsertedHoused(t: Tree, t': Tree, home: map<nat, Slot>, d: nat, e: Entry, j: nat)
    requires EntriesHoused(t, home) && TreeInserted(t, t', d, e, j) && e.start !in home
    ensures EntriesHoused(t', home[e.start := Slot(d, j)])
  {
    hide TreeInserted;
    var home' := home[e.start := Slot(d, j)];
    forall x | IsLive(t', x)
      ensures At(t', x).start in home' && home'[At(t', x).start] == x
    {
      InsertedLive(t, t', d, e, j, x);
    }
  }

  lemma RegisteredHomes(t: Tree, t': Tree, home: map<nat, Slot>, d: nat, e: Entry, j: nat)
    requires HomesOk(t, home) && TreeInserted(t, t', d, e, j) && t.root in t.dirs
    requires |e.name| <= NAME_MAX && (e.flag == FlagFolder ==> e.size == 0)
    requires e.flag == FlagFile ==> |t'.files[e.start]| == SECTOR * SectorsFor(e.size)
    ensures HomesOk(t', home[e.start := Slot(d, j)])
    ensures |home[e.start := Slot(d, j)]| == |home| + 1
  {
    hide HomesMatch, EntriesHoused, SlotsInserted;
    assert e.start !in home;
    InsertedMatch(t, t', home, d, e, j);
    InsertedHoused(t, t', home, d, e, j);
  }

  /** Common part of both kinds of insertion. */
  lemma RegisterKeepsWellFormed(s: Fs, s': Fs, l: Layout, d: nat, dc: seq<nat>, slots: seq<Entry>, e: Entry, j: nat, c: seq<nat>, o: Object)
    requires WellFormed(s, l) && SameShape(s, s') && s'.files == s.files + 1
    requires d in l.tree.dirs && Attachable(s, l, c, e, o) && Replaced(s, s', l.chains, d, dc)
    requires Apart(c, dc) && Apart(dc, c)
    requires DirIs(s'.disk, dc, slots) && SlotsInserted(l.tree.dirs[d], slots, e, j)
    ensures WellFormed(s', Registered(l, d, dc, slots, e, j, c, o))
    ensures TreeInserted(l.tree, Registered(l, d, dc, slots, e, j, c, o).tree, d, e, j)
  {
    hide IsChain, DirIs, FileIs, Apart, DirsStored, FilesStored, HomesOk, SlotsInserted, TreeInserted, Replaced;
    NewStart(s.fat, s.root, s.total, l.chains, c);
    RegisteredChains(s, s', l.chains, d, dc, e.start, c);
    RegisteredStored(s, s', l, d, dc, slots, e, j, c, o);
    GrownTree(l.tree, d, slots, e, j, o, s.disk, c);
    RegisteredHomes(l.tree, Grown(l.tree, d, slots, e, o), l.home, d, e, j);
  }

  /** The chain of a directory stays, with one slot rewritten. */
  lemma ReuseReplaces(s: Fs, s': Fs, chains: map<nat, seq<nat>>, slots: seq<Entry>, d: nat, e: Entry, j: nat)
    requires Geometry(s) && ChainsOk(s.fat, s.root, s.total, chains) && d in chains
    requires SlotReused(s, s', chains[d], slots, e, j)
    ensures Replaced(s, s', chains, d, chains[d]) && DirIs(s'.disk, chains[d], slots[j := e])
  {
    hide FatSectors;
    var dc := chains[d];
    FatCovers(s.total);
    ChainInRange(s.fat, s.root, s.total, dc);
    assert dc[j / SLOTS] in dc;
    DirUpdate(s.disk, s'.disk, dc, slots, j, e);
    forall k | k in chains && k != d
      ensures Apart(chains[k], dc) && Apart(dc, chains[k])
    {
      assert Apart(chains[k], chains[d]) && Apart(chains[d], chains[k]);
    }
  }

  lemma ReuseKeepsWellFormed(s: Fs, s': Fs, l: Layout, d: nat, e: Entry, j: nat, c: seq<nat>, o: Object)
    requires WellFormed(s, l) && d in l.tree.dirs && Attachable(s, l, c, e, o)
    requires SlotReused(s, s', l.chains[d], l.tree.dirs[d], e, j)
    ensures var l' := Registered(l, d, l.chains[d], l.tree.dirs[d][j := e], e, j, c, o);
            WellFormed(s'.(files := s.files + 1), l') && TreeInserted(l.tree, l'.tree, d, e, j)
  {
    hide DirIs, FileIs, IsChain, HomesOk, DirsStored, FilesStored, TreeInserted, ObjectIs, Replaced, ChainsOk, FatSectors;
    var dc, slots := l.chains[d], l.tree.dirs[d];
    ReuseReplaces(s, s', l.chains, slots, d, e, j);
    ReplacedIgnoresCount(s, s', l.chains, d, dc, s.files + 1);
    RegisterKeepsWellFormed(s, s'.(files := s.files + 1), l, d, dc, slots[j := e], e, j, c, o);
  }

  /** Linking a free sector behind a chain gives a longer chain. */
  lemma ChainGrows(fat: seq<nat>, fat': seq<nat>, lo: nat, hi: nat, c: seq<nat>, x: nat)
    requires IsChain(fat, lo, hi, c) && lo <= x < hi && x !in c
    requires fat' == fat[c[|c| - 1] := x][x := FAT_EOF]
    ensures IsChain(fat', lo, hi, c + [x])
  {
    var c' := c + [x];
    forall i | 0 <= i < |c'|
      ensures lo <= c'[i] < hi && fat'[c'[i]] == if i + 1 < |c'| then c'[i + 1] else FAT_EOF
    {
      if i < |c| - 1 {
        assert Differ(c, i, |c| - 1);
      }
    }
    forall i, j | 0 <= i < j < |c'|
      ensures Differ(c', i, j)
    {
      if j < |c| { assert Differ(c, i, j); }
    }
  }

  /** The grown chain of the directory takes the place of the old one. */
  lemma ExtendReplaces(s: Fs, s': Fs, chains: map<nat, seq<nat>>, slots: seq<Entry>, d: nat, e: Entry, x: nat)
    requires Geometry(s) && ChainsOk(s.fat, s.root, s.total, chains) && d in chains
    requires ChainExtended(s, s', chains[d], slots, e, x)
    ensures Replaced(s, s', chains, d, chains[d] + [x])
    ensures DirIs(s'.disk, chains[d] + [x], slots + ([e] + EmptySlots(SLOTS - 1)))
  {
    hide DirIs, IsChain, FatSectors;
    var old_ := chains[d];
    var dc := old_ + [x];
    FatCovers(s.total);
    assert x in [x];
    FreeIsApart(s, [x], old_);
    ChainInRange(s.fat, s.root, s.total, old_);
    ChainGrows(s.fat, s'.fat, s.root, s.total, old_, x);
    assert forall y :: y in dc <==> y in old_ || y == x;
    forall k | k in chains && k != d
      ensures Apart(chains[k], dc) && Apart(dc, chains[k])
    {
      assert Apart(chains[k], old_) && Apart(old_, chains[k]);
      FreeIsApart(s, [x], chains[k]);
    }
    DirAppend(s.disk, s'.disk, old_, slots, x, [e] + EmptySlots(SLOTS - 1));
  }

  lemma ExtendKeepsApart(s: Fs, s': Fs, c: seq<nat>, old_: seq<nat>, slots: seq<Entry>, e: Entry, x: nat)
    requires ChainExtended(s, s', old_, slots, e, x) && IsChain(s.fat, s.root, s.total, c) && s.root > 0 && Apart(c, old_)
    ensures Apart(c, old_ + [x]) && Apart(old_ + [x], c)
  {
    hide DirIs, IsChain;
    FreeIsApart(s, [x], c);
    assert x in [x];
    forall y | y in old_ + [x] ensures y !in c { if y != x { assert y in old_; } }
  }

  lemma ExtendInserts(slots: seq<Entry>, e: Entry)
    ensures SlotsInserted(slots, slots + ([e] + EmptySlots(SLOTS - 1)), e, |slots|)
  {
  }

  lemma ExtendKeepsWellFormed(s: Fs, s': Fs, l: Layout, d: nat, e: Entry, x: nat, c: seq<nat>, o: Object)
    requires WellFormed(s, l) && d in l.tree.dirs && Attachable(s, l, c, e, o)
    requires ChainExtended(s, s', l.chains[d], l.tree.dirs[d], e, x)
    ensures var slots := l.tree.dirs[d];
            var l' := Registered(l, d, l.chains[d] + [x], slots + ([e] + EmptySlots(SLOTS - 1)), e, |slots|, c, o);
            WellFormed(s'.(files := s.files + 1), l') && TreeInserted(l.tree, l'.tree, d, e, |slots|)
  {
    hide DirIs, FileIs, IsChain, HomesOk, DirsStored, FilesStored, TreeInserted, ObjectIs, SlotsInserted, Registered, Replaced, ChainsOk, FatSectors;
    var slots := l.tree.dirs[d];
    ExtendReplaces(s, s', l.chains, slots, d, e, x);
    ExtendKeepsApart(s, s', c, l.chains[d], slots, e, x);
    ExtendInserts(slots, e);
    ReplacedIgnoresCount(s, s', l.chains, d, l.chains[d] + [x], s.files + 1);
    RegisterKeepsWellFormed(s, s'.(files := s.files + 1), l, d, l.chains[d] + [x], slots + ([e] + EmptySlots(SLOTS - 1)), e, |slots|, c, o);
  }

  lemma ReplacedIgnoresCount(s: Fs, s': Fs, chains: map<nat, seq<nat>>, d: nat, dc: seq<nat>, n: nat)
    requires Replaced(s, s', chains, d, dc)
    ensures Replaced(s, s'.(files := n), chains, d, dc)
  {
  }

  // ---------------------------------------------------------------- deletion

  /** The chain `c` is returned to the free pool and slot `j` of the directory `slots` on `dc` is emptied. */
  ghost predicate Deleted(s: Fs, s': Fs, c: seq<nat>, dc: seq<nat>, slots: seq<Entry>, j: nat) {
    && SameShape(s, s') && s.files > 0 && s'.files == s.files - 1
    && (forall x :: 0 <= x < |s.fat| ==> s'.fat[x] == if x in c then FAT_FREE else s.fat[x])
    && DirIs(s.disk, dc, slots) && j < |slots|
    && dc[j / SLOTS] < |s.disk| && s.disk[dc[j / SLOTS]].DirSector? && |s.disk[dc[j / SLOTS]].slots| == SLOTS
    && s'.disk[dc[j / SLOTS]] == DirSector(s.disk[dc[j / SLOTS]].slots[j % SLOTS := slots[j].(flag := FlagEmpty)])
    && (forall x :: s.root <= x < |s.disk| && x != dc[j / SLOTS] ==> s'.disk[x] == s.disk[x])
  }

  function Unregistered(l: Layout, k: nat, d: nat, j: nat): Layout
    requires d in l.tree.dirs && j < |l.tree.dirs[d]|
  {
    var slots := l.tree.dirs[d];
    Layout(Tree(l.tree.root, l.tree.dirs[d := slots[j := slots[j].(flag := FlagEmpty)]], l.tree.files - {k}),
           l.chains - {k}, l.home - {k})
  }

  lemma HomeIsOk(t: Tree, home: map<nat, Slot>, k: nat)
    requires HomesOk(t, home) && k in home
    ensures HomeOk(t, home, k)
  {
  }

  lemma DeletedFrame(s: Fs, s': Fs, c: seq<nat>, dc: seq<nat>, slots: seq<Entry>, j: nat)
    requires Deleted(s, s', c, dc, slots, j)
    ensures SameShape(s, s') && s.files > 0 && s'.files == s.files - 1
    ensures forall x :: 0 <= x < |s.fat| ==> s'.fat[x] == if x in c then FAT_FREE else s.fat[x]
  {
    hide DirIs;
  }

  lemma DeleteKeepsWellFormed(s: Fs, s': Fs, l: Layout, k: nat, d: nat, j: nat)
    requires WellFormed(s, l) && k in l.home && l.home[k] == Slot(d, j) && k in l.tree.files
    requires d in l.tree.dirs && j < |l.tree.dirs[d]|
    requires Deleted(s, s', l.chains[k], l.chains[d], l.tree.dirs[d], j)
    ensures WellFormed(s', Unregistered(l, k, d, j))
    ensures TreeRemoved(l.tree, Unregistered(l, k, d, j).tree, Slot(d, j))
  {
    hide IsChain, DirIs, FileIs, Apart, ChainsOk, DirsStored, FilesStored, Agree, HomesOk, TreeRemoved, KeysMatch, Deleted, FatSectors;
    var l' := Unregistered(l, k, d, j);
    FatCovers(s.total);
    assert HomeOk(l.tree, l.home, k) by { HomeIsOk(l.tree, l.home, k); }
    UnregisteredTree(l, k, d, j);
    DeletedFrame(s, s', l.chains[k], l.chains[d], l.tree.dirs[d], j);
    DeletedChains(s, s', l.chains, k);
    DeletedDirs(s, s', l.chains, l.tree.dirs, k, d, j);
    DeletedFiles(s, s', l.chains, l.tree.files, l.tree.dirs[d], k, d, j);
    RemovedHomes(l.tree, l'.tree, l.home, k, Slot(d, j));
  }

  lemma UnregisteredTree(l: Layout, k: nat, d: nat, j: nat)
    requires KeysMatch(l.tree, l.chains) && k in l.tree.files && d in l.tree.dirs && j < |l.tree.dirs[d]|
    requires k in l.home && HomeOk(l.tree, l.home, k) && l.home[k] == Slot(d, j)
    ensures k in l.chains && k !in l.tree.dirs && d in l.chains && d !in l.tree.files
    ensures var l' := Unregistered(l, k, d, j); KeysMatch(l'.tree, l'.chains) && TreeRemoved(l.tree, l'.tree, Slot(d, j))
  {
  }

  lemma DeletedChains(s: Fs, s': Fs, chains: map<nat, seq<nat>>, k: nat)
    requires ChainsOk(s.fat, s.root, s.total, chains) && SameShape(s, s') && s.total <= |s.fat| && k in chains
    requires forall x :: 0 <= x < |s.fat| ==> s'.fat[x] == if x in chains[k] then FAT_FREE else s.fat[x]
    ensures ChainsOk(s'.fat, s.root, s.total, chains - {k})
  {
    forall m | m in chains && m != k
      ensures IsChain(s'.fat, s.root, s.total, chains[m])
    {
      assert Apart(chains[m], chains[k]);
      ChainInRange(s.fat, s.root, s.total, chains[m]);
      ChainFrame(s.fat, s'.fat, s.root, s.total, chains[m]);
    }
    forall m, n | m in chains - {k} && n in chains - {k} && m != n
      ensures Apart((chains - {k})[m], (chains - {k})[n])
    {
      assert Apart(chains[m], chains[n]);
    }
  }

  lemma DeletedAgree(s: Fs, s': Fs, chains: map<nat, seq<nat>>, c: seq<nat>, d: nat, slots: seq<Entry>, j: nat, m: nat)
    requires ChainsOk(s.fat, s.root, s.total, chains) && s.total <= |s.disk|
    requires d in chains && m in chains && m != d && Deleted(s, s', c, chains[d], slots, j)
    ensures Agree(s.disk, s'.disk, chains[m])
  {
    assert Apart(chains[m], chains[d]);
    ChainInRange(s.fat, s.root, s.total, chains[m]);
    assert chains[d][j / SLOTS] in chains[d];
  }

  lemma DeletedDirs(s: Fs, s': Fs, chains: map<nat, seq<nat>>, dirs: map<nat, seq<Entry>>, k: nat, d: nat, j: nat)
    requires ChainsOk(s.fat, s.root, s.total, chains) && s.total <= |s.disk|
    requires DirsStored(s.disk, chains, dirs) && d in dirs && j < |dirs[d]| && k in chains && k !in dirs
    requires Deleted(s, s', chains[k], chains[d], dirs[d], j)
    ensures DirsStored(s'.disk, chains - {k}, dirs[d := dirs[d][j := dirs[d][j].(flag := FlagEmpty)]])
  {
    ChainInRange(s.fat, s.root, s.total, chains[d]);
    DirUpdate(s.disk, s'.disk, chains[d], dirs[d], j, dirs[d][j].(flag := FlagEmpty));
    forall m | m in dirs && m != d
      ensures DirIs(s'.disk, chains[m], dirs[m])
    {
      DeletedAgree(s, s', chains, chains[k], d, dirs[d], j, m);
      DirFrame(s.disk, s'.disk, chains[m], dirs[m]);
    }
  }

  lemma DeletedFiles(s: Fs, s': Fs, chains: map<nat, seq<nat>>, files: map<nat, seq<Byte>>, slots: seq<Entry>, k: nat, d: nat, j: nat)
    requires ChainsOk(s.fat, s.root, s.total, chains) && s.total <= |s.disk|
    requires FilesStored(s.disk, chains, files) && d in chains && d !in files && k in chains
    requires Deleted(s, s', chains[k], chains[d], slots, j)
    ensures FilesStored(s'.disk, chains - {k}, files - {k})
  {
    forall m | m in files && m != k
      ensures FileIs(s'.disk, chains[m], files[m])
    {
      DeletedAgree(s, s', chains, chains[k], d, slots, j, m);
      FileFrame(s.disk, s'.disk, chains[m], files[m]);
    }
  }

  lemma RemovedMatch(t: Tree, t': Tree, home: map<nat, Slot>, k: nat, x: Slot)
    requires HomesMatch(t, home) && k in home && home[k] == x && TreeRemoved(t, t', x) && At(t, x).start == k
    ensures HomesMatch(t', home - {k})
  {
    hide TreeRemoved;
    var home' := home - {k};
    forall m | m in home'
      ensures HomeOk(t', home', m)
    {
      RemovedHome(t, home, k, x.dir, x.index, t', m);
    }
  }

  lemma RemovedHoused(t: Tree, t': Tree, home: map<nat, Slot>, k: nat, x: Slot)
    requires EntriesHoused(t, home) && k in home && home[k] == x && TreeRemoved(t, t', x)
    ensures EntriesHoused(t', home - {k})
  {
    hide TreeRemoved;
    var home' := home - {k};
    forall y | IsLive(t', y)
      ensures At(t', y).start in home' && home'[At(t', y).start] == y
    {
      RemovedLive(t, t', x, y);
    }
  }

  lemma RemovedHomes(t: Tree, t': Tree, home: map<nat, Slot>, k: nat, x: Slot)
    requires HomesOk(t, home) && k in home && home[k] == x && k in t.files && k !in t.dirs
    requires TreeRemoved(t, t', x) && At(t, x).start == k
    ensures HomesOk(t', home - {k})
    ensures |home - {k}| == |home| - 1
  {
    hide HomesMatch, EntriesHoused;
    RemovedMatch(t, t', home, k, x);
    RemovedHoused(t, t', home, k, x);
    assert (home - {k}).Keys == home.Keys - {k};
  }

  lemma RemovedLive(t: Tree, t': Tree, gone: Slot, x: Slot)
    requires TreeRemoved(t, t', gone) && IsLive(t', x)
    ensures x != gone && IsLive(t, x) && At(t', x) == At(t, x)
  {
  }

  lemma RemovedHome(t: Tree, home: map<nat, Slot>, k: nat, d: nat, j: nat, t': Tree, m: nat)
    requires HomeOk(t, home, m) && HomeOk(t, home, k) && m != k && home[k] == Slot(d, j)
    requires TreeRemoved(t, t', Slot(d, j)) && At(t, Slot(d, j)).start == k
    ensures HomeOk(t', home - {k}, m)
  {
    assert home[m] != Slot(d, j);
    assert At(t', home[m]) == At(t, home[m]);
  }
}
