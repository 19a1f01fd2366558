/**
  Whole runs of KyuzenFS: any sequence of creations, folder creations,
  deletions and remounts, succeeding or failing, against a reference model
  that only knows paths.
 */
module KfsRuns {
  import opened Basics
  import opened KfsTree
  import opened KfsDisk
  import opened KfsDurable
  import opened KfsPath
  import opened KfsOps

  datatype Op =
    | Create(path: string, data: seq<Byte>)
    | Mkdir(path: string)
    | Delete(path: string)
    | Remount
    | Format

  datatype Vol = Vol(fs: Fs, layout: Layout, stale: set<nat>)

  ghost predicate ValidVol(v: Vol) {
    ValidFs(v.fs, v.layout, v.stale) && v.layout.tree.root in v.layout.tree.dirs
  }

  /** One operation with result `ok`, as the driver's methods specify it. */
  ghost predicate Step(v: Vol, op: Op, ok: bool, v': Vol) {
    && v.layout.tree.root in v.layout.tree.dirs
    && match op
       case Create(path, data) =>
         v'.stale == v.stale && CreateResult(v.fs, v.layout, v'.fs, v'.layout, v.stale, path, data, ok)
       case Mkdir(path) =>
         FolderResult(v.fs, v.layout, v'.fs, v'.layout, v.stale, v'.stale, path, ok)
       case Delete(path) =>
         v'.stale == v.stale && DeleteResult(v.fs, v.layout, v'.fs, v'.layout, v.stale, path, ok)
       case Remount =>
         v'.stale == {} && v'.layout == v.layout && MountOf(v.fs, v.stale, v'.fs)
       case Format =>
         v'.stale == {} && FormatResult(v.fs, v'.fs, v'.layout)
  }

  ghost predicate Run(vs: seq<Vol>, ops: seq<Op>, oks: seq<bool>) {
    && |vs| == |ops| + 1 && |oks| == |ops|
    && forall i {:trigger ops[i]} :: 0 <= i < |ops| ==> Step(vs[i], ops[i], oks[i], vs[i + 1])
  }

  lemma StepKeepsValid(v: Vol, op: Op, ok: bool, v': Vol)
    requires ValidVol(v) && Step(v, op, ok, v')
    ensures ValidVol(v')
  {
    hide WellFormed, BaseOk, CreateResult, FolderResult, DeleteResult, MountOf, FormatResult;
    match op {
      case Create(path, data) => CreatedValid(v, v', path, data, ok);
      case Mkdir(path) => FolderValid(v, v', path, ok);
      case Delete(path) => DeletedValid(v, v', path, ok);
      case Remount => RemountValid(v, v');
      case Format => FormatValid(v.fs, v'.fs, v'.layout);
    }
    ValidRoot(v'.fs, v'.layout, v'.stale);
  }

  lemma CreatedValid(v: Vol, v': Vol, path: string, data: seq<Byte>, ok: bool)
    requires v.layout.tree.root in v.layout.tree.dirs && v'.stale == v.stale
    requires CreateResult(v.fs, v.layout, v'.fs, v'.layout, v.stale, path, data, ok)
    ensures ValidFs(v'.fs, v'.layout, v'.stale)
  {
    hide ValidFs;
  }

  lemma FolderValid(v: Vol, v': Vol, path: string, ok: bool)
    requires v.layout.tree.root in v.layout.tree.dirs
    requires FolderResult(v.fs, v.layout, v'.fs, v'.layout, v.stale, v'.stale, path, ok)
    ensures ValidFs(v'.fs, v'.layout, v'.stale)
  {
    hide ValidFs;
  }

  lemma DeletedValid(v: Vol, v': Vol, path: string, ok: bool)
    requires v.layout.tree.root in v.layout.tree.dirs && v'.stale == v.stale
    requires DeleteResult(v.fs, v.layout, v'.fs, v'.layout, v.stale, path, ok)
    ensures ValidFs(v'.fs, v'.layout, v'.stale)
  {
    hide ValidFs;
  }

  lemma FormatValid(s: Fs, s': Fs, l': Layout)
    requires FormatResult(s, s', l')
    ensures ValidFs(s', l', {})
  {
    hide ValidFs;
  }

  lemma RemountValid(v: Vol, v': Vol)
    requires ValidFs(v.fs, v.layout, v.stale)
    requires v'.stale == {} && v'.layout == v.layout && MountOf(v.fs, v.stale, v'.fs)
    ensures ValidFs(v'.fs, v'.layout, v'.stale)
  {
    hide WellFormed;
    var n := FatSectors(v.fs.total);
    MountedIsValid(v.fs, v.layout, v.stale, v'.fs);
  }

  /** Every run, failing calls and remounts included, keeps the volume invariant. */
  lemma {:induction false} RunKeepsValid(vs: seq<Vol>, ops: seq<Op>, oks: seq<bool>, i: nat)
    requires Run(vs, ops, oks) && ValidVol(vs[0]) && i < |vs|
    ensures ValidVol(vs[i])
    decreases i
  {
    hide ValidVol, Step;
    if i > 0 {
      RunKeepsValid(vs, ops, oks, i - 1);
      assert Step(vs[i - 1], ops[i - 1], oks[i - 1], vs[i]);
      StepKeepsValid(vs[i - 1], ops[i - 1], oks[i - 1], vs[i]);
    }
  }

  /**
    What the invariant means for the table: the chains of the root and of every
    live entry are finite, in range, cycle free, end in the end mark, hold no
    free sector, and no two of them share a sector.
   */
  lemma ValidChains(v: Vol, x: Slot, y: Slot)
    requires ValidVol(v) && IsLive(v.layout.tree, x) && IsLive(v.layout.tree, y)
    ensures var c, s := v.layout.chains, v.fs;
            var a, b := At(v.layout.tree, x).start, At(v.layout.tree, y).start;
            && s.root in c && a in c && b in c && a != s.root && (x != y ==> a != b)
            && IsChain(s.fat, s.root, s.total, c[a]) && c[a][0] == a
            && IsChain(s.fat, s.root, s.total, c[s.root]) && c[s.root][0] == s.root
            && (forall z :: z in c[a] ==> s.fat[z] != 0) && s.fat[c[a][|c[a]| - 1]] == 0xFFFF_FFFF
            && Apart(c[a], c[s.root]) && (x != y ==> Apart(c[a], c[b]))
  {
    hide ValidVol, IsChain, Apart, HomesOk;
    ValidParts(v);
    var c, s := v.layout.chains, v.fs;
    var a, b := At(v.layout.tree, x).start, At(v.layout.tree, y).start;
    EntryFacts(v.layout.tree, v.layout.home, x.dir, x.index);
    EntryFacts(v.layout.tree, v.layout.home, y.dir, y.index);
    assert Apart(c[a], c[s.root]);
    assert a != b ==> Apart(c[a], c[b]);
    ChainHoldsNoFree(s.fat, s.root, s.total, c[a]);
  }

  lemma ChainHoldsNoFree(fat: seq<nat>, lo: nat, hi: nat, c: seq<nat>)
    requires IsChain(fat, lo, hi, c) && lo > 0
    ensures forall z :: z in c ==> z < |fat| && fat[z] != FAT_FREE
    ensures c[|c| - 1] < |fat| && fat[c[|c| - 1]] == 0xFFFF_FFFF
  {
    assert fat[c[|c| - 1]] == 0xFFFF_FFFF;
    forall z | z in c
      ensures z < |fat| && fat[z] != FAT_FREE
    {
      var i :| 0 <= i < |c| && c[i] == z;
      assert fat[c[i]] != FAT_FREE;
    }
  }

  lemma ValidParts(v: Vol)
    requires ValidVol(v)
    ensures v.layout.tree.root == v.fs.root && v.fs.root >= 2
    ensures ChainsOk(v.fs.fat, v.fs.root, v.fs.total, v.layout.chains) && HomesOk(v.layout.tree, v.layout.home)
    ensures forall k :: k in v.layout.chains <==> k in v.layout.home || k == v.fs.root
    ensures v.fs.root !in v.layout.home
  {
    hide ChainsOk, HomesMatch, EntriesHoused, DirsStored, FilesStored, BaseOk;
  }

  // ---------------------------------------------------------- reference model

  predicate ShortName(op: Op) {
    op.Remount? || op.Format? || |FinalName(op.path)| <= NAME_MAX
  }

  /** What `p` denotes after `op` ended with `ok`, given what it denoted before. */
  function Expected(op: Op, ok: bool, p: seq<string>, before: Option<Node>): Option<Node> {
    match op
    case Create(path, data) => if ok && p == Target(path) then Some(FileNode(data)) else before
    case Mkdir(path) => if ok && p == Target(path) then Some(FolderNode) else before
    case Delete(path) => if ok && p == Target(path) then None else before
    case Remount => before
    case Format => if p == [] then Some(FolderNode) else None
  }

  function ExpectedAfter(ops: seq<Op>, oks: seq<bool>, n: nat, p: seq<string>, before: Option<Node>): Option<Node>
    requires n <= |ops| && |oks| == |ops|
  {
    if n == 0 then before else Expected(ops[n - 1], oks[n - 1], p, ExpectedAfter(ops, oks, n - 1, p, before))
  }

  lemma StepRefines(v: Vol, op: Op, ok: bool, v': Vol, p: seq<string>)
    requires ValidVol(v) && Step(v, op, ok, v') && ShortName(op) && UniqueNames(v.layout.tree)
    requires v'.layout.tree.root in v'.layout.tree.dirs
    ensures View(v'.layout.tree, p) == Expected(op, ok, p, View(v.layout.tree, p))
    ensures UniqueNames(v'.layout.tree)
  {
    hide ValidVol, ValidFs, UniqueNames, View, Creatable, OneChainAdded, OutOfSync, RollsBack, MountOf, SlotFor;
    match op {
      case Create(path, data) =>
        if ok {
          CreatableIsFree(v.fs, v.layout, path, SectorsFor(|data|));
          AddedAt(v.layout.tree, v'.layout.tree, path, FileNode(data), p);
        }
      case Mkdir(path) =>
        if ok {
          CreatableIsFree(v.fs, v.layout, path, 1);
          AddedAt(v.layout.tree, v'.layout.tree, path, FolderNode, p);
        }
      case Delete(path) =>
      case Remount =>
      case Format => EmptyVolumeViews(v'.fs.root, p);
    }
  }

  lemma CreatableIsFree(s: Fs, l: Layout, path: string, n: nat)
    requires l.tree.root in l.tree.dirs && Creatable(s, l, path, n) && |FinalName(path)| <= NAME_MAX
    ensures StoredNameFree(l.tree, path)
  {
    hide FreeSet, FirstEmpty, Walk, Components;
  }

  lemma AddedAt(t: Tree, t': Tree, path: string, node: Node, p: seq<string>)
    requires t.root in t.dirs && PathsAdded(t, t', path, node) && StoredNameFree(t, path) && |FinalName(path)| <= NAME_MAX
    ensures View(t', p) == if p == Target(path) then Some(node) else View(t, p)
    ensures UniqueNames(t) ==> UniqueNames(t')
  {
    hide View, UniqueNames, Walk, Components, Find;
    assert StoredTarget(path) == Target(path);
  }

  /**
    The file system refines the path model: after any run of operations on names
    that fit an entry, every path denotes exactly what the reported results say.
   */
  lemma {:induction false} RunRefines(vs: seq<Vol>, ops: seq<Op>, oks: seq<bool>, n: nat, p: seq<string>)
    requires Run(vs, ops, oks) && ValidVol(vs[0]) && UniqueNames(vs[0].layout.tree) && n <= |ops|
    requires forall i :: 0 <= i < |ops| ==> ShortName(ops[i])
    ensures vs[0].layout.tree.root in vs[0].layout.tree.dirs && vs[n].layout.tree.root in vs[n].layout.tree.dirs
    ensures View(vs[n].layout.tree, p) == ExpectedAfter(ops, oks, n, p, View(vs[0].layout.tree, p))
    ensures UniqueNames(vs[n].layout.tree)
    decreases n
  {
    hide Step, View, UniqueNames, ValidFs;
    RunKeepsValid(vs, ops, oks, n);
    if n > 0 {
      RunRefines(vs, ops, oks, n - 1, p);
      RunKeepsValid(vs, ops, oks, n - 1);
      assert Step(vs[n - 1], ops[n - 1], oks[n - 1], vs[n]);
      StepRefines(vs[n - 1], ops[n - 1], oks[n - 1], vs[n], p);
    }
  }

  /** A formatted volume holds nothing but the root. */
  lemma EmptyVolumeViews(root: nat, p: seq<string>)
    ensures var t := EmptyLayout(root).tree;
            t.root in t.dirs && UniqueNames(t) && View(t, p) == if p == [] then Some(FolderNode) else None
    decreases |p|
  {
    var t := EmptyLayout(root).tree;
    if p != [] {
      var q := p[..|p| - 1];
      EmptyVolumeViews(root, q);
      if Walk(t, q).Some? {
        assert Find(t.dirs[root], p[|p| - 1]) == |t.dirs[root]|;
      }
    }
  }

  // ---------------------------------------------------- creation and deletion

  /** Creating and then deleting a file restores the table if and only if the directory did not have to grow. */
  lemma CreateThenDeleteRestores(s: Fs, l: Layout, s1: Fs, l1: Layout, s2: Fs, l2: Layout, stale: set<nat>,
                                 path: string, data: seq<Byte>, removed: bool)
    requires l.tree.root in l.tree.dirs && l1.tree.root in l1.tree.dirs
    requires CreateResult(s, l, s1, l1, stale, path, data, true)
    requires |FinalName(path)| <= NAME_MAX
    requires DeleteResult(s1, l1, s2, l2, stale, path, removed)
    ensures removed && (s2.fat == s.fat <==> HasEmptySlot(l.tree, path))
  {
    hide ValidFs, PathsAdded, PathsRemoved, Creatable, HasEmptySlot, Deletable, SlotFor;
    var k :| NewChain(s, l, s1, l1, path, k, SectorsFor(|data|));
    assert removed;
    if HasEmptySlot(l.tree, path) {
      hide FreeSet;
      forall y | 0 <= y < |s.fat|
        ensures s2.fat[y] == s.fat[y]
      {
      }
    } else {
      var x: nat :| TakesSector(s, s1, x) && x !in l1.chains[k];
      assert s.fat[x] == FAT_FREE && s2.fat[x] == FAT_EOF;
    }
  }
}
