/**
  The on-disk structure of KyuzenFS: sectors, the allocation table, sector
  chains, and the layout invariant that ties them to the abstract tree.
 */
module KfsDisk {
  import opened Basics
  import opened KfsTree

  const FAT_FREE: nat := 0
  const FAT_EOF: nat := 0xFFFF_FFFF
  const SECTOR: nat := 512
  const SLOTS: nat := 16
  const LINKS: nat := 128

  /** A sector by what was last written to it. */
  datatype Sector =
    | HeaderSector(rootDir: nat, fileCount: nat)
    | FatSector(links: seq<nat>)
    | DirSector(slots: seq<Entry>)
    | DataSector(bytes: seq<Byte>)
    | ForeignSector

  /** The volume: geometry, in-memory allocation table, disk and header. */
  datatype Fs = Fs(total: nat, fat: seq<nat>, disk: seq<Sector>, root: nat, files: nat)

  function FatSectors(total: nat): nat {
    (total * 4 + 511) / 512
  }

  /** The disk has room for header, table and root, and its byte count fits 32 bits. */
  predicate GoodSize(total: nat) {
    total * 4 + 511 < 0x1_0000_0000 && 1 + FatSectors(total) < total
  }

  predicate Geometry(s: Fs) {
    && GoodSize(s.total)
    && |s.fat| == LINKS * FatSectors(s.total)
    && |s.disk| == s.total
    && s.root == 1 + FatSectors(s.total)
  }

  /** The table has an entry for every sector, in the fewest sectors of 128 entries that do. */
  lemma FatCovers(total: nat)
    ensures total <= LINKS * FatSectors(total) < total + 128
    ensures total * 4 + 511 < 0x1_0000_0000 ==> total < FAT_EOF
  {
  }

  // ------------------------------------------------------------------ chains

  /** `c` is a complete, cycle-free chain of table links within `[lo, hi)`. */
  ghost predicate IsChain(fat: seq<nat>, lo: nat, hi: nat, c: seq<nat>) {
    && |c| > 0 && hi <= |fat|
    && (forall i :: 0 <= i < |c| ==> lo <= c[i] < hi)
    && (forall i {:trigger fat[c[i]]} :: 0 <= i < |c| ==> fat[c[i]] == if i + 1 < |c| then c[i + 1] else FAT_EOF)
    && Distinct(c)
  }

  predicate Differ(c: seq<nat>, i: nat, j: nat)
    requires i < |c| && j < |c|
  {
    c[i] != c[j]
  }

  ghost predicate Distinct(c: seq<nat>) {
    forall i, j {:trigger Differ(c, i, j)} :: 0 <= i < j < |c| ==> Differ(c, i, j)
  }

  ghost predicate Apart(a: seq<nat>, b: seq<nat>) {
    forall x :: x in a ==> x !in b
  }

  /** Every chain starts at its key, is well formed, and no two share a sector. */
  ghost predicate ChainsOk(fat: seq<nat>, lo: nat, hi: nat, chains: map<nat, seq<nat>>) {
    && (forall k :: k in chains ==> IsChain(fat, lo, hi, chains[k]) && chains[k][0] == k)
    && (forall k, m {:trigger Apart(chains[k], chains[m])} :: k in chains && m in chains && k != m ==> Apart(chains[k], chains[m]))
  }

  /** Chain `c` holds the directory `slots`, sixteen to a sector. */
  ghost predicate DirIs(disk: seq<Sector>, c: seq<nat>, slots: seq<Entry>) {
    && |slots| == SLOTS * |c|
    && forall i {:trigger c[i]} :: 0 <= i < |c| ==>
         c[i] < |disk| && disk[c[i]] == DirSector(slots[SLOTS * i..SLOTS * i + SLOTS])
  }

  /** Chain `c` holds the file contents `bytes`, 512 to a sector. */
  ghost predicate FileIs(disk: seq<Sector>, c: seq<nat>, bytes: seq<Byte>) {
    && |bytes| == SECTOR * |c|
    && forall i {:trigger c[i]} :: 0 <= i < |c| ==>
         c[i] < |disk| && disk[c[i]] == DataSector(bytes[SECTOR * i..SECTOR * i + SECTOR])
  }

  /** Rewriting one slot of one sector rewrites one slot of the directory. */
  lemma DirUpdate(disk: seq<Sector>, disk': seq<Sector>, c: seq<nat>, slots: seq<Entry>, j: nat, e: Entry)
    requires DirIs(disk, c, slots) && |disk'| == |disk| && j < |slots| && Distinct(c)
    requires disk[c[j / SLOTS]].DirSector? && |disk[c[j / SLOTS]].slots| == SLOTS
    requires disk'[c[j / SLOTS]] == DirSector(disk[c[j / SLOTS]].slots[j % SLOTS := e])
    requires forall x :: x in c && x != c[j / SLOTS] ==> x < |disk| && disk'[x] == disk[x]
    ensures DirIs(disk', c, slots[j := e])
  {
    var slots' := slots[j := e];
    var p := j / SLOTS;
    forall i | 0 <= i < |c|
      ensures c[i] < |disk'| && disk'[c[i]] == DirSector(slots'[SLOTS * i..SLOTS * i + SLOTS])
    {
      if i == p {
        assert slots'[SLOTS * i..SLOTS * i + SLOTS] == slots[SLOTS * i..SLOTS * i + SLOTS][j % SLOTS := e];
      } else {
        assert if i < p then Differ(c, i, p) else Differ(c, p, i);
        assert c[i] in c;
        assert slots'[SLOTS * i..SLOTS * i + SLOTS] == slots[SLOTS * i..SLOTS * i + SLOTS];
      }
    }
  }

  /** A further sector adds its slots at the end. */
  lemma DirAppend(disk: seq<Sector>, disk': seq<Sector>, c: seq<nat>, slots: seq<Entry>, x: nat, more: seq<Entry>)
    requires DirIs(disk, c, slots) && |disk'| == |disk| && |more| == SLOTS
    requires x < |disk'| && disk'[x] == DirSector(more)
    requires forall y :: y in c ==> y < |disk| && disk'[y] == disk[y]
    ensures DirIs(disk', c + [x], slots + more)
  {
    var all := slots + more;
    forall i | 0 <= i < |c + [x]|
      ensures (c + [x])[i] < |disk'| && disk'[(c + [x])[i]] == DirSector(all[SLOTS * i..SLOTS * i + SLOTS])
    {
      if i < |c| {
        assert c[i] in c;
        assert all[SLOTS * i..SLOTS * i + SLOTS] == slots[SLOTS * i..SLOTS * i + SLOTS];
      } else {
        assert all[SLOTS * i..SLOTS * i + SLOTS] == more;
      }
    }
  }

  // ------------------------------------------------------------------ layout

  /** The abstract tree, which chain belongs to which object, and where its entry is. */
  datatype Layout = Layout(tree: Tree, chains: map<nat, seq<nat>>, home: map<nat, Slot>)

  /** The disk holds the tree: directory chains hold directory sectors, file chains data sectors. */
  ghost predicate Stored(disk: seq<Sector>, chains: map<nat, seq<nat>>, t: Tree) {
    && t.root in t.dirs && KeysMatch(t, chains)
    && DirsStored(disk, chains, t.dirs) && FilesStored(disk, chains, t.files)
  }

  ghost predicate KeysMatch(t: Tree, chains: map<nat, seq<nat>>) {
    && (forall k :: k in t.dirs ==> k !in t.files)
    && (forall k :: k in chains <==> k in t.dirs || k in t.files)
  }

  ghost predicate DirsStored(disk: seq<Sector>, chains: map<nat, seq<nat>>, dirs: map<nat, seq<Entry>>) {
    forall k {:trigger dirs[k]} {:trigger chains[k]} :: k in dirs ==> k in chains && DirIs(disk, chains[k], dirs[k])
  }

  ghost predicate FilesStored(disk: seq<Sector>, chains: map<nat, seq<nat>>, files: map<nat, seq<Byte>>) {
    forall k {:trigger files[k]} {:trigger chains[k]} :: k in files ==> k in chains && FileIs(disk, chains[k], files[k])
  }

  function SectorsFor(size: nat): nat {
    if size == 0 then 1 else (size + 511) / 512
  }

  /** The entry at the home slot of object `k` describes `k`. */
  ghost predicate HomeOk(t: Tree, home: map<nat, Slot>, k: nat) {
    && k in home && IsLive(t, home[k])
    && var e := At(t, home[k]);
       && e.start == k && |e.name| <= NAME_MAX
       && (e.flag == FlagFolder ==> k in t.dirs && e.size == 0)
       && (e.flag == FlagFile ==> k in t.files && |t.files[k]| == SECTOR * SectorsFor(e.size))
  }

  /** Live entries and non-root objects correspond one to one. */
  ghost predicate HomesOk(t: Tree, home: map<nat, Slot>) {
    ObjectsHoused(t, home) && HomesMatch(t, home) && EntriesHoused(t, home)
  }

  ghost predicate ObjectsHoused(t: Tree, home: map<nat, Slot>) {
    (forall k :: k in t.dirs || k in t.files <==> k in home || k == t.root) && t.root !in home
  }

  ghost predicate HomesMatch(t: Tree, home: map<nat, Slot>) {
    forall k {:trigger home[k]} {:trigger HomeOk(t, home, k)} :: k in home ==> HomeOk(t, home, k)
  }

  ghost predicate EntriesHoused(t: Tree, home: map<nat, Slot>) {
    forall x {:trigger IsLive(t, x)} :: IsLive(t, x) ==> At(t, x).start in home && home[At(t, x).start] == x
  }

  /** The volume invariant. */
  ghost predicate WellFormed(s: Fs, l: Layout) {
    && Geometry(s)
    && l.tree.root == s.root
    && ChainsOk(s.fat, s.root, s.total, l.chains)
    && Stored(s.disk, l.chains, l.tree)
    && HomesOk(l.tree, l.home)
    && s.files == |l.home|
  }

  /** A file has the fewest sectors of 512 bytes that hold it, and at least one. */
  lemma SizeFits(size: nat)
    ensures size <= SECTOR * SectorsFor(size) && SectorsFor(size) >= 1
    ensures size > 0 ==> SECTOR * SectorsFor(size) < size + 512
    ensures size == 0 ==> SectorsFor(size) == 1
  {
  }

  /** A well-formed volume denotes a proper tree. */
  lemma WellFormedTree(t: Tree, home: map<nat, Slot>)
    requires t.root in t.dirs && (forall k :: k in t.dirs ==> k !in t.files) && HomesOk(t, home)
    ensures TreeOk(t)
  {
    forall x | IsLive(t, x)
      ensures EntryOk(t, At(t, x))
    {
      var k := At(t, x).start;
      assert HomeOk(t, home, k);
      SizeFits(At(t, x).size);
    }
  }

  /** The header counts exactly the live entries of all directories. */
  lemma FilesCountsLiveEntries(s: Fs, l: Layout, live: set<Slot>)
    requires WellFormed(s, l)
    requires forall x :: x in live <==> IsLive(l.tree, x)
    ensures s.files == |live|
  {
    CountHoused(l.tree, l.home, live);
  }

  lemma CountHoused(t: Tree, home: map<nat, Slot>, live: set<Slot>)
    requires HomesMatch(t, home) && EntriesHoused(t, home)
    requires forall x :: x in live <==> IsLive(t, x)
    ensures |home| == |live|
  {
    InjectiveImage(home, live);
  }

  lemma {:induction false} InjectiveImage(m: map<nat, Slot>, image: set<Slot>)
    requires forall x :: x in image <==> exists k :: k in m && m[k] == x
    requires forall j, k :: j in m && k in m && m[j] == m[k] ==> j == k
    ensures |m| == |image|
    decreases |m|
  {
    if |m| == 0 {
      assert m.Keys == {};
      assert image == {};
    } else {
      var k :| k in m.Keys;
      var m' := m - {k};
      assert m'.Keys == m.Keys - {k};
      assert forall j :: j in m' ==> m'[j] == m[j];
      forall x
        ensures x in image - {m[k]} <==> exists j :: j in m' && m'[j] == x
      {
        if x in image - {m[k]} {
          var j :| j in m && m[j] == x;
          assert j in m' && m'[j] == x;
        }
      }
      InjectiveImage(m', image - {m[k]});
      assert m[k] in image;
    }
  }
}
