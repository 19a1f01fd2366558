/** Any list of file system operations, executed by the driver. */
module KfsDriver {
  import opened Basics
  import opened KfsTree
  import opened KfsDisk
  import opened KfsDurable
  import opened KfsOps
  import opened KfsRuns
  import opened KfsVolume
  import KfsNames

  /** File sizes whose sector count the driver can compute in 32 bits. */
  predicate SizeOk(op: Op) {
    op.Create? ==> |op.data| + 511 < 0x1_0000_0000
  }

  ghost function Value(v: Volume): Vol
    reads v
  {
    Vol(v.st, v.layout, v.stale)
  }

  /** One operation; a remount throws the memory away and reads the disk again. */
  method Perform(v: Volume, op: Op) returns (ok: bool)
    requires v.Valid() && SizeOk(op)
    modifies v, v.fat
    ensures v.Valid()
    ensures Step(old(Value(v)), op, ok, Value(v))
  {
    hide ValidFs, CreateResult, FolderResult, DeleteResult, MountOf, EmptyLayout, FormatResult;
    ValidRoot(v.st, v.layout, v.stale);
    match op {
      case Create(path, data) => ok := v.CreateMountedFile(path, data);
      case Mkdir(path) => ok := v.CreateFolder(path);
      case Delete(path) => ok := v.DeleteFile(path);
      case Remount =>
        HeaderThere(v.st, v.layout, v.stale);
        v.Init(v.st, v.layout, v.stale);
        ok := true;
      case Format =>
        v.Format();
        ok := true;
    }
  }

  lemma HeaderThere(s: Fs, l: Layout, stale: set<nat>)
    requires ValidFs(s, l, stale)
    ensures s.disk != [] && s.disk[0].HeaderSector?
  {
    hide WellFormed, Saved;
  }

  lemma RunMore(vs: seq<Vol>, ops: seq<Op>, oks: seq<bool>, op: Op, ok: bool, v: Vol)
    requires Run(vs, ops, oks) && Step(vs[|ops|], op, ok, v)
    ensures Run(vs + [v], ops + [op], oks + [ok])
  {
    hide Step;
    forall i | 0 <= i < |ops + [op]| ensures Step((vs + [v])[i], (ops + [op])[i], (oks + [ok])[i], (vs + [v])[i + 1]) {
      if i < |ops| { assert ops[i] == (ops + [op])[i]; }
    }
  }

  /** Every path denotes what the reported results say. */
  ghost predicate Refines(t: Tree, t': Tree, ops: seq<Op>, oks: seq<bool>)
    requires |ops| == |oks|
  {
    && t.root in t.dirs && t'.root in t'.dirs && UniqueNames(t')
    && forall p {:trigger View(t', p)} :: View(t', p) == ExpectedAfter(ops, oks, |ops|, p, View(t, p))
  }

  /**
    Whatever is asked, in whatever order, succeeding or failing, with formats and remounts in between: the
    volume stays valid, each result is the one specified, and on names that fit an entry every
    path denotes exactly what the results say.
   */
  method Execute(v: Volume, ops: seq<Op>) returns (oks: seq<bool>, ghost vs: seq<Vol>)
    requires v.Valid()
    requires forall i {:trigger ops[i]} :: 0 <= i < |ops| ==> SizeOk(ops[i])
    modifies v, v.fat
    ensures v.Valid()
    ensures Run(vs, ops, oks) && vs[0] == old(Value(v)) && vs[|ops|] == Value(v)
    ensures (forall i {:trigger ops[i]} :: 0 <= i < |ops| ==> ShortName(ops[i])) && UniqueNames(old(v.layout.tree)) ==>
              Refines(old(v.layout.tree), v.layout.tree, ops, oks)
  {
    hide ValidFs, Step, View, UniqueNames, ExpectedAfter, ShortName, SizeOk;
    ValidRoot(v.st, v.layout, v.stale);
    oks, vs := [], [Value(v)];
    for k := 0 to |ops|
      invariant v.Valid()
      invariant Run(vs, ops[..k], oks) && vs[0] == old(Value(v)) && vs[k] == Value(v)
    {
      var ok := Perform(v, ops[k]);
      RunMore(vs, ops[..k], oks, ops[k], ok, Value(v));
      assert ops[..k] + [ops[k]] == ops[..k + 1];
      oks, vs := oks + [ok], vs + [Value(v)];
    }
    assert ops[..|ops|] == ops;
    ValidRoot(v.st, v.layout, v.stale);
    if (forall i {:trigger ops[i]} :: 0 <= i < |ops| ==> ShortName(ops[i])) && UniqueNames(old(v.layout.tree)) {
      forall p ensures View(v.layout.tree, p) == ExpectedAfter(ops, oks, |ops|, p, View(old(v.layout.tree), p)) {
        RunRefines(vs, ops, oks, |ops|, p);
      }
      RunRefines(vs, ops, oks, |ops|, []);
    }
  }

  /**
    On a fresh volume: create a file, create one with a name of 22 letters, delete the first,
    create the name of 23 letters. All four succeed, and the file of 22 letters is out of reach.
   */
  method HideAFile(v: Volume) returns (ghost before: Tree)
    requires v.Valid() && v.layout == EmptyLayout(v.root) && v.stale == {} && |FreeSet(v.st)| >= 8
    modifies v, v.fat
    ensures v.Valid() && before.root in before.dirs && v.layout.tree.root in v.layout.tree.dirs
    ensures View(before, [KfsNames.SHORT]) == Some(FileNode([7])) && View(v.layout.tree, [KfsNames.SHORT]) == Some(FileNode([]))
  {
    hide ValidFs, CreateResult, DeleteResult, EmptyLayout, View, FreeSet, KfsNames.Stage1, KfsNames.Stage2, KfsNames.Stage3;
    KfsNames.EmptyTree(v.root);
    ghost var s0 := v.st;
    var ok1 := v.CreateMountedFile("x", [1]);
    ghost var s1, l1 := v.st, v.layout;
    KfsNames.FirstFile(s0, s1, l1, ok1);
    ValidRoot(v.st, v.layout, v.stale);
    var ok2 := v.CreateMountedFile(KfsNames.SHORT, [7]);
    ghost var s2, l2 := v.st, v.layout;
    KfsNames.SecondFile(s1, l1, s2, l2, ok2);
    ValidRoot(v.st, v.layout, v.stale);
    var ok3 := v.DeleteFile("x");
    ghost var s3, l3 := v.st, v.layout;
    KfsNames.FirstGone(s2, l2, s3, l3, ok3);
    ValidRoot(v.st, v.layout, v.stale);
    before := v.layout.tree;
    var ok4 := v.CreateMountedFile(KfsNames.LONG, []);
    KfsNames.FileHidden(s3, l3, v.st, v.layout, ok4);
  }
}
