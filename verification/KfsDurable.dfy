/**
  What the disk holds of the in-memory allocation table, free space, and the
  effect of mounting the disk again.
 */
module KfsDurable {
  import opened KfsDisk
  import opened KfsEffects

  /** Sectors 1..n of the disk hold the table, 128 links each. */
  ghost predicate HasTable(disk: seq<Sector>, n: nat) {
    1 + n <= |disk| && forall i :: 1 <= i <= n ==> disk[i].FatSector? && |disk[i].links| == LINKS
  }

  /** The link of sector `x` as the disk holds it. */
  function DiskLink(disk: seq<Sector>, n: nat, x: nat): nat
    requires HasTable(disk, n) && x < LINKS * n
  {
    disk[1 + x / LINKS].links[x % LINKS]
  }

  /** The disk has the link of `x`, or `x` is a stale sector: free in memory, still marked used on disk. */
  predicate LinkSaved(fat: seq<nat>, disk: seq<Sector>, n: nat, stale: set<nat>, x: nat)
    requires HasTable(disk, n) && x < LINKS * n && |fat| == LINKS * n
  {
    || DiskLink(disk, n, x) == fat[x]
    || (x in stale && fat[x] == FAT_FREE && DiskLink(disk, n, x) == FAT_EOF)
  }

  /** Every link outside `dirty` is saved. */
  ghost predicate Saved(fat: seq<nat>, disk: seq<Sector>, n: nat, stale: set<nat>, dirty: set<nat>) {
    && HasTable(disk, n) && |fat| == LINKS * n
    && forall x {:trigger fat[x]} {:trigger DiskLink(disk, n, x)} :: 0 <= x < LINKS * n && x !in dirty ==> LinkSaved(fat, disk, n, stale, x)
  }

  /** The table sector holding the link of `x`. */
  function TableSector(fat: seq<nat>, x: nat): Sector
    requires LINKS * (x / LINKS) + LINKS <= |fat|
  {
    FatSector(fat[LINKS * (x / LINKS)..LINKS * (x / LINKS) + LINKS])
  }

  lemma SetDirties(fat: seq<nat>, disk: seq<Sector>, n: nat, stale: set<nat>, dirty: set<nat>, x: nat, v: nat)
    requires Saved(fat, disk, n, stale, dirty) && x < |fat|
    ensures Saved(fat[x := v], disk, n, stale, dirty + {x})
  {
    forall y | 0 <= y < LINKS * n && y !in dirty + {x}
      ensures LinkSaved(fat[x := v], disk, n, stale, y)
    {
      assert LinkSaved(fat, disk, n, stale, y);
    }
  }

  lemma SyncCleans(fat: seq<nat>, disk: seq<Sector>, n: nat, stale: set<nat>, dirty: set<nat>, x: nat)
    requires Saved(fat, disk, n, stale, dirty) && x < |fat|
    ensures LINKS * (x / LINKS) + LINKS <= |fat| && 1 + x / LINKS <= n
    ensures Saved(fat, disk[1 + x / LINKS := TableSector(fat, x)], n, stale, dirty - {x})
  {
    var disk' := disk[1 + x / LINKS := TableSector(fat, x)];
    forall y | 0 <= y < LINKS * n && y !in dirty - {x}
      ensures LinkSaved(fat, disk', n, stale, y)
    {
      if y / LINKS == x / LINKS {
        assert DiskLink(disk', n, y) == fat[LINKS * (x / LINKS) + y % LINKS];
      } else {
        assert y != x;
        assert LinkSaved(fat, disk, n, stale, y);
        assert DiskLink(disk', n, y) == DiskLink(disk, n, y);
      }
    }
  }

  lemma WriteKeepsSaved(fat: seq<nat>, disk: seq<Sector>, n: nat, stale: set<nat>, dirty: set<nat>, y: nat, v: Sector)
    requires Saved(fat, disk, n, stale, dirty) && y < |disk| && (y == 0 || y > n)
    ensures Saved(fat, disk[y := v], n, stale, dirty)
  {
    forall x | 0 <= x < LINKS * n && x !in dirty
      ensures LinkSaved(fat, disk[y := v], n, stale, x)
    {
      assert LinkSaved(fat, disk, n, stale, x);
      assert DiskLink(disk[y := v], n, x) == DiskLink(disk, n, x);
    }
  }

  // -------------------------------------------------------------- free space

  /** The sectors the allocator may hand out. */
  function FreeSet(s: Fs): set<nat> {
    set x: nat | s.root < x < s.total && x < |s.fat| && s.fat[x] == FAT_FREE
  }

  /** One more sector: what one round of the allocation loop does. */
  lemma AllocateOne(s: Fs, s1: Fs, s2: Fs, c: seq<nat>, content: seq<Sector>, x: nat, v: Sector)
    requires Allocated(s, s1, c, content) && x in FreeSet(s1) && s.root > 0
    requires SameShape(s1, s2) && s2.files == s1.files
    requires s2.fat == if c == [] then s1.fat[x := FAT_EOF] else s1.fat[x := FAT_EOF][c[|c| - 1] := x]
    requires s2.disk[x] == v && forall y :: s.root <= y < |s1.disk| && y != x ==> s2.disk[y] == s1.disk[y]
    ensures Allocated(s, s2, c + [x], content + [v])
    ensures FreeSet(s2) == FreeSet(s1) - {x}
  {
    var c' := c + [x];
    if c == [] {
      assert c' == [x];
      assert Distinct(c');
    } else {
      FreeIsApart(s1, [x], c);
      assert x in [x];
      ChainGrows(s1.fat, s2.fat, s.root, s.total, c, x) by {
        assert s2.fat == s1.fat[c[|c| - 1] := x][x := FAT_EOF];
      }
    }
    assert forall y :: y in c' <==> y in c || y == x;
    forall i | 0 <= i < |c'|
      ensures c'[i] < |s2.disk| && s2.disk[c'[i]] == (content + [v])[i]
    {
      if i < |c| { assert c[i] in c; }
    }
    FreeSetShrinks(s1, s2, c, x);
  }

  lemma FreeSetShrinks(s1: Fs, s2: Fs, c: seq<nat>, x: nat)
    requires x in FreeSet(s1) && s1.root > 0 && SameShape(s1, s2) && s1.total <= |s1.fat|
    requires c != [] ==> c[|c| - 1] < |s1.fat| && s1.fat[c[|c| - 1]] != FAT_FREE
    requires s2.fat == if c == [] then s1.fat[x := FAT_EOF] else s1.fat[x := FAT_EOF][c[|c| - 1] := x]
    ensures FreeSet(s2) == FreeSet(s1) - {x}
  {
  }

  // ------------------------------------------------------------------- mount

  ghost predicate HeaderSaved(s: Fs) {
    0 < |s.disk| && s.disk[0] == HeaderSector(s.root, s.files)
  }

  /** The volume as a fresh mount reads it from disk. */
  function Remounted(s: Fs): Fs
    requires HasTable(s.disk, FatSectors(s.total))
  {
    var n := FatSectors(s.total);
    s.(fat := seq(LINKS * n, x requires 0 <= x < LINKS * n => DiskLink(s.disk, n, x)))
  }

  /** Mounting again yields the same tree, whatever happened before; only stale sectors may be lost. */
  lemma RemountKeepsTree(s: Fs, l: Layout, stale: set<nat>)
    requires WellFormed(s, l) && Saved(s.fat, s.disk, FatSectors(s.total), stale, {})
    ensures WellFormed(Remounted(s), l)
    ensures stale == {} ==> Remounted(s) == s
    ensures FreeSet(Remounted(s)) <= FreeSet(s)
  {
    hide WellFormed, Saved, FatSectors, FreeSet, HasTable;
    WellFormedShape(s, l);
    SavedHasTable(s.fat, s.disk, FatSectors(s.total), stale);
    forall k | k in l.chains
      ensures Agree(s.fat, Remounted(s).fat, l.chains[k]) && Agree(s.disk, Remounted(s).disk, l.chains[k])
    {
      ChainReadBack(s, l, stale, k);
    }
    hide Remounted, Agree;
    RemountShape(s);
    FrameKeepsWellFormed(s, Remounted(s), l);
    LinksReadBack(s, stale);
  }

  lemma WellFormedShape(s: Fs, l: Layout)
    requires WellFormed(s, l)
    ensures Geometry(s) && s.root > 0 && ChainsOk(s.fat, s.root, s.total, l.chains)
  {
    hide ChainsOk, Stored, HomesOk;
  }

  lemma SavedHasTable(fat: seq<nat>, disk: seq<Sector>, n: nat, stale: set<nat>)
    requires Saved(fat, disk, n, stale, {})
    ensures HasTable(disk, n)
  {
  }

  lemma RemountShape(s: Fs)
    requires Geometry(s) && HasTable(s.disk, FatSectors(s.total))
    ensures SameShape(s, Remounted(s)) && Remounted(s).files == s.files
  {
  }

  lemma ChainReadBack(s: Fs, l: Layout, stale: set<nat>, k: nat)
    requires Geometry(s) && s.root > 0 && ChainsOk(s.fat, s.root, s.total, l.chains) && k in l.chains
    requires Saved(s.fat, s.disk, FatSectors(s.total), stale, {})
    ensures Agree(s.fat, Remounted(s).fat, l.chains[k]) && Agree(s.disk, Remounted(s).disk, l.chains[k])
  {
    hide Saved, IsChain, FatSectors, DiskLink, HasTable;
    SavedHasTable(s.fat, s.disk, FatSectors(s.total), stale);
    assert IsChain(s.fat, s.root, s.total, l.chains[k]);
    FatCovers(s.total);
    ChainIsSaved(s.fat, s.disk, FatSectors(s.total), stale, s.root, s.total, l.chains[k]);
    ChainInRange(s.fat, s.root, s.total, l.chains[k]);
  }

  /** A link read back is the one in memory, unless it is stale, and then the memory's is free. */
  lemma LinksReadBack(s: Fs, stale: set<nat>)
    requires Geometry(s) && Saved(s.fat, s.disk, FatSectors(s.total), stale, {})
    ensures stale == {} ==> Remounted(s) == s
    ensures FreeSet(Remounted(s)) <= FreeSet(s)
  {
    hide FatSectors, DiskLink;
    var r := Remounted(s);
    forall x | 0 <= x < |s.fat|
      ensures stale == {} ==> r.fat[x] == s.fat[x]
      ensures r.fat[x] == FAT_FREE ==> s.fat[x] == FAT_FREE
    {
      assert LinkSaved(s.fat, s.disk, FatSectors(s.total), stale, x);
    }
  }

  lemma ChainIsSaved(fat: seq<nat>, disk: seq<Sector>, n: nat, stale: set<nat>, lo: nat, hi: nat, c: seq<nat>)
    requires Saved(fat, disk, n, stale, {}) && IsChain(fat, lo, hi, c) && lo > 0
    ensures forall x :: x in c ==> x < LINKS * n && DiskLink(disk, n, x) == fat[x]
  {
    forall x | x in c
      ensures x < LINKS * n && DiskLink(disk, n, x) == fat[x]
    {
      var i :| 0 <= i < |c| && c[i] == x;
      assert fat[c[i]] != FAT_FREE;
      assert LinkSaved(fat, disk, n, stale, x);
    }
  }
}
