/** An entry that points at sector 0: no layout fits the disk any more. */
module KfsLoose {
  import opened Basics
  import opened KfsTree
  import opened KfsDisk
  import opened KfsEffects
  import opened KfsDurable
  import opened KfsPath
  import opened KfsOps

  lemma {:induction false} SameLink(fat: seq<nat>, lo: nat, hi: nat, a: seq<nat>, b: seq<nat>, i: nat)
    requires IsChain(fat, lo, hi, a) && IsChain(fat, lo, hi, b) && a[0] == b[0] && hi <= FAT_EOF && i < |a|
    ensures i < |b| && a[i] == b[i]
  {
    if i > 0 {
      SameLink(fat, lo, hi, a, b, i - 1);
      assert fat[a[i - 1]] == a[i];
      assert fat[b[i - 1]] == if i < |b| then b[i] else FAT_EOF;
    }
  }

  /** The table determines the chain from a start sector. */
  lemma ChainUnique(fat: seq<nat>, lo: nat, hi: nat, a: seq<nat>, b: seq<nat>)
    requires IsChain(fat, lo, hi, a) && IsChain(fat, lo, hi, b) && a[0] == b[0] && hi <= FAT_EOF
    ensures a == b
  {
    SameLink(fat, lo, hi, a, b, |a| - 1);
    SameLink(fat, lo, hi, b, a, |b| - 1);
    forall i | 0 <= i < |a| ensures a[i] == b[i] { SameLink(fat, lo, hi, a, b, i); }
  }

  /** The sectors of a chain determine the directory. */
  lemma DirUnique(disk: seq<Sector>, c: seq<nat>, a: seq<Entry>, b: seq<Entry>)
    requires DirIs(disk, c, a) && DirIs(disk, c, b)
    ensures a == b
  {
    forall k | 0 <= k < |a| ensures a[k] == b[k] {
      var i := k / SLOTS;
      assert disk[c[i]] == DirSector(a[SLOTS * i..SLOTS * i + SLOTS]);
      assert a[SLOTS * i..SLOTS * i + SLOTS] == b[SLOTS * i..SLOTS * i + SLOTS];
      assert a[SLOTS * i..SLOTS * i + SLOTS][k - SLOTS * i] == a[k];
    }
  }

  /** A directory that lies as it did on the disk is the same in every layout of it. */
  lemma SameDirectory(s: Fs, l: Layout, k: nat, c: seq<nat>, slots: seq<Entry>)
    requires WellFormed(s, l) && k in l.tree.dirs && IsChain(s.fat, s.root, s.total, c) && c[0] == k && DirIs(s.disk, c, slots)
    ensures l.tree.dirs[k] == slots
  {
    hide WellFormed, IsChain, DirIs, FatSectors;
    DirFacts(s, l, k);
    WellFormedShape(s, l);
    FatCovers(s.total);
    ChainUnique(s.fat, s.root, s.total, c, l.chains[k]);
    DirUnique(s.disk, c, slots, l.tree.dirs[k]);
  }

  /** Directory `k` of the layout lies on the disk as the layout says. */
  ghost predicate SeenAt(s: Fs, l: Layout, k: nat)
    requires k in l.tree.dirs
  {
    && k in l.chains && l.chains[k] != [] && l.chains[k][0] == k
    && IsChain(s.fat, s.root, s.total, l.chains[k]) && DirIs(s.disk, l.chains[k], l.tree.dirs[k])
  }

  /** The directory of the new entry and all others, on the new disk. */
  lemma InsertSeen(s: Fs, l: Layout, s': Fs, d: nat, e: Entry, j: nat, x: nat) returns (dc: seq<nat>, slots: seq<Entry>)
    requires WellFormed(s, l) && d in l.tree.dirs && d in l.chains && LooseAdded(s, l, s', d, e, j, x)
    ensures s'.root == s.root && s'.total == s.total && IsChain(s'.fat, s.root, s.total, dc) && dc[0] == d && DirIs(s'.disk, dc, slots)
    ensures j < |slots| && slots[j] == e
    ensures forall k {:trigger l.tree.dirs[k]} :: k in l.tree.dirs && k != d ==>
              SeenAt(s', l, k)
  {
    hide WellFormed, IsChain, DirIs, FatSectors, FirstEmpty, Replaced, Agree, FreeSet;
    WellFormedShape(s, l);
    var s1 :| InsertResult(s, s1, l.chains[d], l.tree.dirs[d], e, true, j, x) && s' == Counted(s1, s.files + 1);
    if x == 0 {
      ReuseReplaces(s, s1, l.chains, l.tree.dirs[d], d, e, j);
      dc, slots := l.chains[d], l.tree.dirs[d][j := e];
    } else {
      ExtendReplaces(s, s1, l.chains, l.tree.dirs[d], d, e, x);
      dc, slots := l.chains[d] + [x], l.tree.dirs[d] + ([e] + EmptySlots(SLOTS - 1));
    }
    ReplacedChain(s, s1, l.chains, d, dc);
    HeaderApart(s1, s.files + 1, dc, slots);
    forall k | k in l.tree.dirs && k != d
      ensures SeenAt(s', l, k)
    {
      DirFacts(s, l, k);
      ChainInRange(s.fat, s.root, s.total, l.chains[k]);
      OtherSeen(s, s1, l.chains, d, dc, k, l.tree.dirs[k]);
      HeaderApart(s1, s.files + 1, l.chains[k], l.tree.dirs[k]);
    }
  }

  lemma ReplacedChain(s: Fs, s1: Fs, chains: map<nat, seq<nat>>, d: nat, dc: seq<nat>)
    requires Replaced(s, s1, chains, d, dc)
    ensures IsChain(s1.fat, s.root, s.total, dc) && dc[0] == d
  {
  }

  lemma OtherSeen(s: Fs, s1: Fs, chains: map<nat, seq<nat>>, d: nat, dc: seq<nat>, k: nat, slots: seq<Entry>)
    requires Replaced(s, s1, chains, d, dc) && k in chains && k != d && IsChain(s.fat, s.root, s.total, chains[k])
    requires DirIs(s.disk, chains[k], slots)
    ensures IsChain(s1.fat, s.root, s.total, chains[k]) && DirIs(s1.disk, chains[k], slots)
  {
    ReplacedAgree(s, s1, chains, d, dc, chains[k]);
    hide IsChain, DirIs, Agree;
    ChainFrame(s.fat, s1.fat, s.root, s.total, chains[k]);
    ReplacedKeepsDir(s, s1, chains, d, dc, chains[k], slots);
  }

  /** Writing the header touches no directory. */
  lemma HeaderApart(s: Fs, n: nat, c: seq<nat>, slots: seq<Entry>)
    requires IsChain(s.fat, s.root, s.total, c) && s.root > 0 && DirIs(s.disk, c, slots)
    ensures DirIs(Counted(s, n).disk, c, slots) && Counted(s, n).fat == s.fat
  {
    ChainInRange(s.fat, s.root, s.total, c);
    hide IsChain;
    forall i | 0 <= i < |c| ensures c[i] < |s.disk| && Counted(s, n).disk[c[i]] == s.disk[c[i]] { assert c[i] in c; }
  }

  /** The way to the parent is the same in every layout of the new disk. */
  lemma {:induction false} SameWay(s: Fs, l: Layout, s': Fs, l2: Layout, parent: seq<string>, d: nat, n: nat)
    requires WellFormed(s, l) && l.tree.root in l.tree.dirs && WellFormed(s', l2) && l2.tree.root in l2.tree.dirs
    requires s'.root == s.root && s'.total == s.total && Walk(l.tree, parent) == Some(d) && n <= |parent|
    requires forall k {:trigger l.tree.dirs[k]} :: k in l.tree.dirs && k != d ==>
              SeenAt(s', l, k)
    ensures Walk(l.tree, parent[..n]).Some? && Walk(l2.tree, parent[..n]) == Walk(l.tree, parent[..n])
    decreases n
  {
    hide WellFormed, IsChain, DirIs, Find;
    RootFacts(s, l);
    RootFacts(s', l2);
    WalkedThrough(l.tree, parent, n);
    if n > 0 {
      var p, c := parent[..n - 1], parent[n - 1];
      SameWay(s, l, s', l2, parent, d, n - 1);
      assert parent[..n] == p + [c];
      var k := Walk(l.tree, p).value;
      if k == d { WalkInjective(l.tree, p, parent); }
      hide Walk;
      SameDirectory(s', l2, k, l.chains[k], l.tree.dirs[k]);
      WalkSnoc(l.tree, p, c);
      WalkSnoc(l2.tree, p, c);
      WellFormedHomes(s', l2);
      EntryFacts(l2.tree, l2.home, k, Find(l.tree.dirs[k], c));
    }
  }

  lemma WalkedThrough(t: Tree, parent: seq<string>, n: nat)
    requires t.root in t.dirs && Walk(t, parent).Some? && n <= |parent|
    ensures Walk(t, parent[..n]).Some?
  {
    hide Walk;
    if Walk(t, parent[..n]).None? {
      WalkStuck(t, parent[..n], parent[n..]);
      assert parent[..n] + parent[n..] == parent;
    }
  }

  /** An entry with start sector 0 fits no layout. */
  lemma NoLayout(s: Fs, l: Layout, d: nat, j: nat)
    requires WellFormed(s, l) && d in l.tree.dirs && j < |l.tree.dirs[d]| && Live(l.tree.dirs[d][j]) && l.tree.dirs[d][j].flag == FlagFile
    ensures l.tree.dirs[d][j].start != 0
  {
    hide WellFormed, IsChain, FileIs, HomesOk;
    WellFormedHomes(s, l);
    EntryFacts(l.tree, l.home, d, j);
    FileFacts(s, l, l.tree.dirs[d][j].start);
    RootFacts(s, l);
    ChainInRange(s.fat, s.root, s.total, l.chains[l.tree.dirs[d][j].start]);
    assert l.chains[l.tree.dirs[d][j].start][0] in l.chains[l.tree.dirs[d][j].start];
  }

  /** After a creation whose size wraps the volume is valid under no layout at all. */
  lemma LooseIsInvalid(s: Fs, l: Layout, stale: set<nat>, s': Fs, path: string, size: nat, l2: Layout, stale2: set<nat>)
    requires ValidFs(s, l, stale) && l.tree.root in l.tree.dirs && LooseResult(s, l, s', path, size, true)
    ensures !ValidFs(s', l2, stale2)
  {
    hide WellFormed, BaseOk, HeaderSaved, IsChain, DirIs, Walk, Find, FirstEmpty, Components, FinalName, ParentPart, FreeSet, LooseAdded;
    var parent := Components(ParentPart(path));
    var d := Walk(l.tree, parent).value;
    var e := LooseEntry(path, size);
    var j, x :| LooseAdded(s, l, s', d, e, j, x);
    var dc, slots := InsertSeen(s, l, s', d, e, j, x);
    if ValidFs(s', l2, stale2) {
      RootFacts(s', l2);
      SameWay(s, l, s', l2, parent, d, |parent|);
      assert parent[..|parent|] == parent;
      SameDirectory(s', l2, d, dc, slots);
      NoLayout(s', l2, d, j);
    }
  }

  /** Some layout fits the volume. */
  ghost predicate Mountable(s: Fs) {
    exists l, stale :: ValidFs(s, l, stale)
  }

  /**
    A creation keeps the volume valid if and only if it fails or the size and 511 add up within
    32 bits.
   */
  lemma CreationKeepsValidIff(s: Fs, l: Layout, stale: set<nat>, s': Fs, l': Layout, path: string, data: seq<Byte>, ok: bool)
    requires ValidFs(s, l, stale) && l.tree.root in l.tree.dirs
    requires |data| + 511 < 0x1_0000_0000 ==> CreateResult(s, l, s', l', stale, path, data, ok)
    requires |data| + 511 >= 0x1_0000_0000 ==> LooseResult(s, l, s', path, |data|, ok)
    ensures Mountable(s') <==> !ok || |data| + 511 < 0x1_0000_0000
  {
    hide ValidFs, PathsAdded, OneChainAdded, FreeSet, Creatable;
    if |data| + 511 < 0x1_0000_0000 {
      assert ValidFs(s', l', stale);
    } else if !ok {
      assert ValidFs(s', l, stale);
    } else {
      forall l2, stale2 ensures !ValidFs(s', l2, stale2) { LooseIsInvalid(s, l, stale, s', path, |data|, l2, stale2); }
    }
  }
}
