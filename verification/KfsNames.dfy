/** Names longer than a directory entry can hold: stored cut, never found, able to hide what is there. */
module KfsNames {
  import opened Basics
  import opened KfsTree
  import opened KfsDisk
  import opened KfsEffects
  import opened KfsDurable
  import opened KfsPath
  import opened KfsOps

  /** Two live entries of one directory under the name that `path` is stored as. */
  ghost predicate Twins(t: Tree, x: Slot, y: Slot, path: string) {
    && x != y && x.dir == y.dir && IsLive(t, x) && IsLive(t, y)
    && At(t, x).name == StoredName(FinalName(path)) == At(t, y).name
  }

  lemma SecondEntry(t: Tree, t1: Tree, t2: Tree, path: string, x: Slot, y: Slot)
    requires t.root in t.dirs && t1.root in t1.dirs && t2.root in t2.dirs
    requires EntryAdded(t, t1, path, x) && EntryAdded(t1, t2, path, y)
    ensures Twins(t2, x, y, path)
  {
    hide Walk, Components, FinalName, ParentPart;
    assert IsLive(t1, x) && IsLive(t2, x);
  }

  /**
    A name longer than an entry can hold is created but never found again: the same creation
    succeeds a second time exactly when there is room, and leaves two entries of one stored name.
   */
  lemma LongNamesDuplicate(s: Fs, l: Layout, s1: Fs, l1: Layout, s2: Fs, l2: Layout, stale: set<nat>,
                           path: string, data: seq<Byte>, again: seq<Byte>, ok: bool)
    requires l.tree.root in l.tree.dirs && l1.tree.root in l1.tree.dirs && |FinalName(path)| > NAME_MAX
    requires CreateResult(s, l, s1, l1, stale, path, data, true)
    requires CreateResult(s1, l1, s2, l2, stale, path, again, ok)
    ensures View(l1.tree, Target(path)) == None
    ensures ok <==> |FreeSet(s1)| >= SectorsFor(|again|) + Growth(l1.tree, path)
    ensures |FreeSet(s1)| == |FreeSet(s)| - SectorsFor(|data|) - Growth(l.tree, path)
    ensures ok ==> exists x, y :: Twins(l2.tree, x, y, path)
  {
    hide ValidFs, OneChainAdded, FreeSet, View, Walk, Components, FinalName, ParentPart, EntryAdded, Added, UniqueNames, FirstEmpty, Find, AfterCreate;
    ValidHomes(s1, l1, stale);
    LongNameViewsNothing(l1.tree, l1.home, Components(ParentPart(path)), FinalName(path));
    var x :| EntryAdded(l.tree, l1.tree, path, x);
    ParentIs(l.tree, l1.tree, path, x);
    LongNamesAreAbsent(l1.tree, l1.home, x.dir, FinalName(path));
    if ok {
      var y :| EntryAdded(l1.tree, l2.tree, path, y);
      SecondEntry(l.tree, l1.tree, l2.tree, path, x, y);
    }
  }

  lemma ParentIs(t: Tree, t': Tree, path: string, x: Slot)
    requires t.root in t.dirs && t'.root in t'.dirs && EntryAdded(t, t', path, x)
    ensures Walk(t', Components(ParentPart(path))) == Some(x.dir)
  {
  }

  const LONG := "aaaaaaaaaaaaaaaaaaaaaaa"

  lemma LongSplits()
    ensures |LONG| == 23 && FinalName(LONG) == LONG && Components(ParentPart(LONG)) == [] && Target(LONG) == [LONG]
    ensures StoredName(LONG) == LONG[..22]
  {
    NameStartIs(LONG, 0);
  }

  lemma EmptyRoot(root: nat)
    ensures var t := EmptyLayout(root).tree; t.root in t.dirs && HasEmptySlot(t, LONG) && ReachesAllocation(t, LONG)
  {
    LongSplits();
    hide FinalName, ParentPart, Components;
    assert Find(EmptySlots(SLOTS), LONG) == |EmptySlots(SLOTS)|;
    assert FirstEmpty(EmptySlots(SLOTS)) == 0;
  }

  /** On a fresh volume with three free sectors the 23-character name can be created twice. */
  lemma LongNameTwice(s: Fs, s1: Fs, l1: Layout, s2: Fs, l2: Layout, ok1: bool, ok2: bool)
    requires EmptyLayout(s.root).tree.root in EmptyLayout(s.root).tree.dirs && |FreeSet(s)| >= 3
    requires CreateResult(s, EmptyLayout(s.root), s1, l1, {}, LONG, [], ok1)
    requires l1.tree.root in l1.tree.dirs && CreateResult(s1, l1, s2, l2, {}, LONG, [], ok2)
    ensures ok1 && ok2 && View(l1.tree, [LONG]) == None
    ensures exists x, y :: Twins(l2.tree, x, y, LONG)
  {
    EmptyRoot(s.root);
    LongSplits();
    hide EmptyLayout, FinalName, ParentPart, Components, FreeSet, ValidFs, PathsAdded, OneChainAdded, View, Walk, Find, FirstEmpty;
    assert Creatable(s, EmptyLayout(s.root), LONG, 1);
    LongNamesDuplicate(s, EmptyLayout(s.root), s1, l1, s2, l2, {}, LONG, [], [], ok2);
  }

  // ------------------------------------------------------ what a cut name hides

  /** The directory at `p` exists and is empty: nothing is below it. */
  lemma EmptyBelow(t: Tree, p: seq<string>, q: seq<string>)
    requires t.root in t.dirs && Walk(t, p).Some? && p < q
    requires forall i :: 0 <= i < |t.dirs[Walk(t, p).value]| ==> !Live(t.dirs[Walk(t, p).value][i])
    ensures View(t, q) == None
  {
    var n := q[|p|];
    assert Find(t.dirs[Walk(t, p).value], n) == |t.dirs[Walk(t, p).value]|;
    hide Walk, View, Find;
    WalkSnoc(t, p, n);
    ViewSnoc(t, p, n);
    assert p + [n] == q[..|p| + 1];
    if q != p + [n] { NothingBelow(t, p + [n], q); }
  }

  /** What stands under the stored name is what would be created: the same contents, or an empty folder. */
  ghost predicate SameThere(t: Tree, path: string, node: Node)
    requires t.root in t.dirs
  {
    var d := Walk(t, Components(ParentPart(path)));
    && d.Some?
    && var slots := t.dirs[d.value];
       var i := Find(slots, StoredName(FinalName(path)));
       i < |slots| && NodeOf(t, slots[i]) == node && (node.FolderNode? ==> EmptyFolder(t, slots[i].start))
  }

  ghost predicate EmptyFolder(t: Tree, k: nat) {
    k in t.dirs && forall i :: 0 <= i < |t.dirs[k]| ==> !Live(t.dirs[k][i])
  }

  /** No path that denoted something denotes something else. */
  ghost predicate NothingLost(t: Tree, t': Tree)
    requires t.root in t.dirs && t'.root in t'.dirs
  {
    forall p {:trigger View(t', p)} :: View(t, p).Some? ==> View(t', p) == View(t, p)
  }

  /**
    A creation leaves the meaning of every existing path alone exactly when the stored name was
    free, or its entry stands before the slot used, or is what would be created.
   */
  lemma CreationLosesNothingIff(t: Tree, t': Tree, path: string, node: Node, d: nat)
    requires TreeOk(t) && t.root in t.dirs && PathsAdded(t, t', path, node) && Walk(t, Components(ParentPart(path))) == Some(d)
    ensures NothingLost(t, t') <==> StoredNameFree(t, path) || Hidden(t, path) || SameThere(t, path, node)
  {
    hide TreeOk, Walk, View, Find, FirstEmpty, Components, FinalName, ParentPart, NodeOf, Added, EntryAdded, UniqueNames;
    if Hidden(t, path) {
    } else if StoredNameFree(t, path) || SameThere(t, path, node) {
      forall p | View(t, p).Some? ensures View(t', p) == View(t, p) { KeptIfSame(t, path, node, d, p); }
    } else {
      var p := LostPath(t, path, node, d);
      assert View(t', p) == AfterCreate(t, path, node, p);
    }
  }

  /** What a live entry is can be read off what it denotes. */
  lemma KindOf(t: Tree, d: nat, i: nat)
    requires TreeOk(t) && d in t.dirs && i < |t.dirs[d]| && Live(t.dirs[d][i])
    ensures var e := t.dirs[d][i];
            if NodeOf(t, e).FolderNode? then e.flag == FlagFolder && e.start in t.dirs else e.flag == FlagFile
  {
    assert IsLive(t, Slot(d, i));
    assert EntryOk(t, At(t, Slot(d, i)));
  }

  lemma KeptIfSame(t: Tree, path: string, node: Node, d: nat, p: seq<string>)
    requires TreeOk(t) && t.root in t.dirs && Walk(t, Components(ParentPart(path))) == Some(d) && View(t, p).Some?
    requires StoredNameFree(t, path) || SameThere(t, path, node)
    ensures AfterCreate(t, path, node, p) == View(t, p)
  {
    hide TreeOk, Walk, View, Find, FirstEmpty, Components, FinalName, ParentPart, StoredName, NodeOf;
    var parent, n := Components(ParentPart(path)), StoredName(FinalName(path));
    var i := Find(t.dirs[d], n);
    if i < |t.dirs[d]| { KindOf(t, d, i); }
    WalkSnoc(t, parent, n);
    ViewSnoc(t, parent, n);
    if parent + [n] < p {
      if Walk(t, parent + [n]).None? { NothingBelow(t, parent + [n], p); } else { EmptyBelow(t, parent + [n], p); }
    }
  }

  /** A path that changes its meaning: the stored target, or what was below it. */
  lemma LostPath(t: Tree, path: string, node: Node, d: nat) returns (p: seq<string>)
    requires TreeOk(t) && t.root in t.dirs && Walk(t, Components(ParentPart(path))) == Some(d)
    requires !StoredNameFree(t, path) && !Hidden(t, path) && !SameThere(t, path, node)
    ensures View(t, p).Some? && AfterCreate(t, path, node, p) != View(t, p)
  {
    hide TreeOk, Walk, View, Find, FirstEmpty, Components, FinalName, ParentPart, StoredName, NodeOf;
    var parent, n := Components(ParentPart(path)), StoredName(FinalName(path));
    var i := Find(t.dirs[d], n);
    KindOf(t, d, i);
    ViewSnoc(t, parent, n);
    p := parent + [n];
    if NodeOf(t, t.dirs[d][i]) == node {
      WalkSnoc(t, parent, n);
      p := SomethingBelow(t, p, t.dirs[d][i].start);
    }
  }

  lemma SomethingBelow(t: Tree, p: seq<string>, k: nat) returns (q: seq<string>)
    requires t.root in t.dirs && k in t.dirs && Walk(t, p) == Some(k) && !EmptyFolder(t, k)
    ensures p < q && View(t, q).Some?
  {
    hide Walk, View, Find;
    var m :| 0 <= m < |t.dirs[k]| && Live(t.dirs[k][m]);
    FoundSomewhere(t.dirs[k], m);
    ViewSnoc(t, p, t.dirs[k][m].name);
    q := p + [t.dirs[k][m].name];
  }

  lemma FoundSomewhere(slots: seq<Entry>, m: nat)
    requires m < |slots| && Live(slots[m])
    ensures Find(slots, slots[m].name) < |slots|
  {
  }

  // ------------------------------------------ a run in which a cut name hides a file

  const SHORT := LONG[..22]

  lemma NamesSplit()
    ensures FinalName(SHORT) == SHORT && Components(ParentPart(SHORT)) == [] && StoredName(SHORT) == SHORT && Target(SHORT) == [SHORT]
    ensures FinalName("x") == "x" && Components(ParentPart("x")) == [] && StoredName("x") == "x" && Target("x") == ["x"]
    ensures "x" != SHORT && SHORT != ""
  {
    NameStartIs(SHORT, 0);
    NameStartIs("x", 0);
    assert |SHORT| == 22;
  }

  /** The live entries are those in the given slots of the root. */
  ghost predicate OnlyLive(t: Tree, slots: set<nat>) {
    forall y {:trigger IsLive(t, y)} :: IsLive(t, y) <==> y.dir == t.root && y.index in slots
  }

  lemma RootSlot(t: Tree, slots: set<nat>, i: nat)
    requires t.root in t.dirs && OnlyLive(t, slots)
    ensures i in slots ==> i < |t.dirs[t.root]| && Live(t.dirs[t.root][i])
    ensures i !in slots && i < |t.dirs[t.root]| ==> !Live(t.dirs[t.root][i])
  {
    assert IsLive(t, Slot(t.root, i)) <==> i in slots;
  }

  /** Where the next entry goes, and where the name of the only entry in slot `i` is found. */
  lemma NextSlot(t: Tree, slots: set<nat>, n: nat)
    requires t.root in t.dirs && OnlyLive(t, slots) && n !in slots && forall i: nat {:trigger i in slots} :: i < n ==> i in slots
    requires n <= |t.dirs[t.root]|
    ensures FirstEmpty(t.dirs[t.root]) == n
  {
    forall j | 0 <= j < n ensures Live(t.dirs[t.root][j]) {
      assert j in slots;
      RootSlot(t, slots, j);
    }
    RootSlot(t, slots, n);
    FirstEmptyIs(t.dirs[t.root], n);
  }

  lemma EmptyTree(root: nat)
    ensures var t := EmptyLayout(root).tree; t.root in t.dirs && t.root == root && OnlyLive(t, {}) && |t.dirs[root]| == SLOTS
  {
  }

  /** Creating in the root directory, under a name no entry has. */
  lemma RootCreation(s: Fs, l: Layout, path: string, n: nat, slots: set<nat>)
    requires l.tree.root in l.tree.dirs && OnlyLive(l.tree, slots) && Components(ParentPart(path)) == [] && FinalName(path) != ""
    requires forall i: nat {:trigger i in slots} :: i in slots ==> NameAt(l.tree, i) != FinalName(path)
    requires |FreeSet(s)| >= n + 1
    ensures Creatable(s, l, path, n)
  {
    hide FreeSet, Components, ParentPart, FinalName;
    EmptyPath(l.tree);
    var dir := l.tree.dirs[l.tree.root];
    forall j | 0 <= j < |dir| ensures !Named(dir[j], FinalName(path)) {
      RootSlot(l.tree, slots, j);
      assert j in slots ==> NameAt(l.tree, j) != FinalName(path);
    }
    FindIs(dir, FinalName(path), |dir|);
  }

  /** The name in slot `i` of the root. */
  ghost function NameAt(t: Tree, i: nat): string {
    if t.root in t.dirs && i < |t.dirs[t.root]| then t.dirs[t.root][i].name else ""
  }

  /** One more entry in the root. */
  lemma RootGains(t: Tree, t': Tree, path: string, slots: set<nat>, n: nat)
    requires t.root in t.dirs && t'.root in t'.dirs && t'.root == t.root && OnlyLive(t, slots) && Components(ParentPart(path)) == []
    requires exists x :: EntryAdded(t, t', path, x)
    requires FirstEmpty(t.dirs[t.root]) == n
    ensures OnlyLive(t', slots + {n}) && NameAt(t', n) == StoredName(FinalName(path))
    ensures forall i: nat {:trigger NameAt(t', i)} :: i in slots ==> NameAt(t', i) == NameAt(t, i)
  {
    EmptyPath(t);
    var x :| EntryAdded(t, t', path, x);
    hide Components, ParentPart, FinalName, FirstEmpty, Walk;
    assert x == Slot(t.root, n);
    assert IsLive(t', x) && At(t', x).name == StoredName(FinalName(path));
    forall i: nat | i in slots ensures NameAt(t', i) == NameAt(t, i) {
      assert IsLive(t, Slot(t.root, i)) && IsLive(t', Slot(t.root, i));
      assert At(t', Slot(t.root, i)) == At(t, Slot(t.root, i));
    }
  }

  /** After `x`: it stands in slot 0. */
  ghost predicate Stage1(s: Fs, l: Layout) {
    && l.tree.root in l.tree.dirs && OnlyLive(l.tree, {0}) && NameAt(l.tree, 0) == "x"
    && View(l.tree, ["x"]) == Some(FileNode([1])) && |FreeSet(s)| >= 6
  }

  /** And the file of 22 letters in slot 1. */
  ghost predicate Stage2(s: Fs, l: Layout) {
    && l.tree.root in l.tree.dirs && OnlyLive(l.tree, {0, 1}) && NameAt(l.tree, 0) == "x" && NameAt(l.tree, 1) == SHORT
    && View(l.tree, ["x"]) == Some(FileNode([1])) && View(l.tree, [SHORT]) == Some(FileNode([7])) && |FreeSet(s)| >= 4
  }

  /** `x` is gone. */
  ghost predicate Stage3(s: Fs, l: Layout) {
    && l.tree.root in l.tree.dirs && OnlyLive(l.tree, {1}) && NameAt(l.tree, 1) == SHORT
    && View(l.tree, [SHORT]) == Some(FileNode([7])) && |FreeSet(s)| >= 4
  }

  lemma FirstFile(s: Fs, s1: Fs, l1: Layout, ok: bool)
    requires EmptyLayout(s.root).tree.root in EmptyLayout(s.root).tree.dirs && |FreeSet(s)| >= 8
    requires CreateResult(s, EmptyLayout(s.root), s1, l1, {}, "x", [1], ok)
    ensures ok && Stage1(s1, l1)
  {
    hide EmptyLayout, FreeSet, FinalName, ParentPart, Components, View, ValidFs, OneChainAdded, FirstEmpty, OnlyLive, EntryAdded, Added, UniqueNames, NameAt, AfterCreate, HasEmptySlot;
    var l := EmptyLayout(s.root);
    NamesSplit();
    EmptyTree(s.root);
    RootCreation(s, l, "x", 1, {});
    NextSlot(l.tree, {}, 0);
    RootGains(l.tree, l1.tree, "x", {}, 0);
    assert {} + {0} == {0};
  }

  lemma SecondFile(s1: Fs, l1: Layout, s2: Fs, l2: Layout, ok: bool)
    requires Stage1(s1, l1) && CreateResult(s1, l1, s2, l2, {}, SHORT, [7], ok)
    ensures ok && Stage2(s2, l2)
  {
    hide FreeSet, FinalName, ParentPart, Components, View, ValidFs, OneChainAdded, FirstEmpty, OnlyLive, EntryAdded, Added, UniqueNames, NameAt, HasEmptySlot, Hidden;
    NamesSplit();
    RootCreation(s1, l1, SHORT, 1, {0});
    RootSlot(l1.tree, {0}, 0);
    NextSlot(l1.tree, {0}, 1);
    RootGains(l1.tree, l2.tree, SHORT, {0}, 1);
    assert {0} + {1} == {0, 1};
    assert View(l2.tree, ["x"]) == AfterCreate(l1.tree, SHORT, FileNode([7]), ["x"]);
  }

  lemma FoundInRoot(t: Tree, name: string, i: nat, slots: set<nat>)
    requires t.root in t.dirs && OnlyLive(t, slots) && i in slots && NameAt(t, i) == name
    requires forall j: nat {:trigger j in slots} :: j in slots && j < i ==> NameAt(t, j) != name
    ensures i < |t.dirs[t.root]| && Find(t.dirs[t.root], name) == i
  {
    hide OnlyLive;
    RootSlot(t, slots, i);
    forall j: nat | j < i ensures !Named(t.dirs[t.root][j], name) {
      RootSlot(t, slots, j);
      assert j in slots ==> NameAt(t, j) != name;
    }
    FindIs(t.dirs[t.root], name, i);
  }

  lemma FirstGone(s2: Fs, l2: Layout, s3: Fs, l3: Layout, ok: bool)
    requires Stage2(s2, l2) && DeleteResult(s2, l2, s3, l3, {}, "x", ok) && s3.total == s2.total && s3.root == s2.root
    ensures ok && Stage3(s3, l3)
  {
    NamesSplit();
    var t := l2.tree;
    FoundInRoot(t, "x", 0, {0, 1});
    EmptyPath(t);
    ViewSnoc(t, [], "x");
    assert [] + ["x"] == ["x"];
    XIsDeletable(t);
    hide FinalName, ParentPart, Components, View, ValidFs, Find, Walk, Sole, UniqueNames, Removed, NodeOf, Fallback;
    assert FreeSet(s2) <= FreeSet(s3);
    CountLe(FreeSet(s2), FreeSet(s3));
    hide FreeSet;
    XRemoved(t, l3.tree);
  }

  lemma CountLe(a: set<nat>, b: set<nat>)
    requires a <= b
    ensures |a| <= |b|
  {
    assert b == a + (b - a);
  }

  lemma XIsDeletable(t: Tree)
    requires t.root in t.dirs && FinalName("x") == "x" && Components(ParentPart("x")) == [] && Find(t.dirs[t.root], "x") == 0 < |t.dirs[t.root]|
    requires View(t, ["x"]) == Some(FileNode([1]))
    ensures Deletable(t, "x") && Walk(t, Components(ParentPart("x"))) == Some(t.root) && SlotFor(t, "x") == Slot(t.root, 0)
  {
    hide FinalName, ParentPart, Components;
    EmptyPath(t);
    ViewSnoc(t, [], "x");
    assert [] + ["x"] == ["x"];
  }

  lemma XRemoved(t: Tree, t': Tree)
    requires t.root in t.dirs && PathsRemoved(t, t', "x", Slot(t.root, 0)) && OnlyLive(t, {0, 1}) && NameAt(t, 1) == SHORT
    requires Target("x") == ["x"] && "x" != SHORT
    ensures OnlyLive(t', {1}) && NameAt(t', 1) == SHORT && View(t', [SHORT]) == View(t, [SHORT])
  {
    hide Target, View, Sole, Removed, UniqueNames, Fallback;
    assert View(t', [SHORT]) == ViewWithout(t, Slot(t.root, 0), ["x"], [SHORT]);
    assert IsLive(t', Slot(t.root, 1)) && At(t', Slot(t.root, 1)) == At(t, Slot(t.root, 1));
  }

  /** The 23-letter name goes into slot 0 and hides the file of 22 letters. */
  lemma FileHidden(s3: Fs, l3: Layout, s4: Fs, l4: Layout, ok: bool)
    requires Stage3(s3, l3) && CreateResult(s3, l3, s4, l4, {}, LONG, [], ok)
    ensures ok && l4.tree.root in l4.tree.dirs
    ensures View(l3.tree, [SHORT]) == Some(FileNode([7])) && View(l4.tree, [SHORT]) == Some(FileNode([]))
  {
    LongSplits();
    NamesSplit();
    hide FreeSet, FinalName, ParentPart, Components, View, ValidFs, OneChainAdded, FirstEmpty, Find, OnlyLive, EntryAdded, Added, UniqueNames, NameAt, HasEmptySlot, Walk;
    RootCreation(s3, l3, LONG, 1, {1});
    RootSlot(l3.tree, {1}, 1);
    NextSlot(l3.tree, {1}, 0);
    FoundInRoot(l3.tree, SHORT, 1, {1});
    EmptyPath(l3.tree);
    assert View(l4.tree, [SHORT]) == AfterCreate(l3.tree, LONG, FileNode([]), [SHORT]);
  }
}
