/**
  The abstract view of a KyuzenFS volume: directories are sequences of slots,
  paths are sequences of components, and `View` is what a path denotes.
  Nothing here mentions sectors or the allocation table.
 */
module KfsTree {
  import opened Basics

  const NAME_MAX: nat := 22

  datatype Flag = FlagEmpty | FlagFile | FlagFolder

  /** One 32-byte directory entry. */
  datatype Entry = Entry(name: string, flag: Flag, start: nat, size: nat)

  const EMPTY_ENTRY := Entry("", FlagEmpty, 0, 0)

  predicate Live(e: Entry) { e.flag != FlagEmpty }

  predicate Named(e: Entry, name: string) { Live(e) && e.name == name }

  /** Position of the first live entry called `name`, or the number of slots. */
  function Find(slots: seq<Entry>, name: string): (r: nat)
    ensures r <= |slots|
    ensures r < |slots| ==> Named(slots[r], name)
    ensures forall j :: 0 <= j < r ==> !Named(slots[j], name)
  {
    if slots == [] then 0
    else if Named(slots[0], name) then 0
    else 1 + Find(slots[1..], name)
  }

  /** Position of the first empty slot, or the number of slots. */
  function FirstEmpty(slots: seq<Entry>): (r: nat)
    ensures r <= |slots|
    ensures r < |slots| ==> !Live(slots[r])
    ensures forall j :: 0 <= j < r ==> Live(slots[j])
  {
    if slots == [] then 0
    else if !Live(slots[0]) then 0
    else 1 + FirstEmpty(slots[1..])
  }

  lemma FindIs(slots: seq<Entry>, name: string, r: nat)
    requires r <= |slots|
    requires r < |slots| ==> Named(slots[r], name)
    requires forall j :: 0 <= j < r ==> !Named(slots[j], name)
    ensures Find(slots, name) == r
  {
  }

  /** What a path denotes. */
  datatype Node = FileNode(data: seq<Byte>) | FolderNode

  /** Directories by start sector, raw file contents by start sector. */
  datatype Tree = Tree(root: nat, dirs: map<nat, seq<Entry>>, files: map<nat, seq<Byte>>)

  datatype Slot = Slot(dir: nat, index: nat)

  /** The live slots of all directories. */
  predicate IsLive(t: Tree, x: Slot) {
    x.dir in t.dirs && x.index < |t.dirs[x.dir]| && Live(t.dirs[x.dir][x.index])
  }

  function At(t: Tree, x: Slot): Entry
    requires IsLive(t, x)
  {
    t.dirs[x.dir][x.index]
  }

  predicate EntryOk(t: Tree, e: Entry) {
    && (e.flag == FlagFolder ==> e.start in t.dirs && e.start != t.root)
    && (e.flag == FlagFile ==> e.start in t.files && e.start !in t.dirs && e.size <= |t.files[e.start]|)
  }

  /** Every live entry points at an existing object, no two at the same one, none at the root. */
  ghost predicate TreeOk(t: Tree) {
    && t.root in t.dirs
    && (forall x :: IsLive(t, x) ==> EntryOk(t, At(t, x)))
    && (forall x, y :: IsLive(t, x) && IsLive(t, y) && At(t, x).start == At(t, y).start ==> x == y)
  }

  /** The directory reached by following `path` from the root, every component being a folder. */
  function Walk(t: Tree, path: seq<string>): (r: Option<nat>)
    requires t.root in t.dirs
    ensures r.Some? ==> r.value in t.dirs
  {
    if path == [] then Some(t.root)
    else
      var d := Walk(t, path[..|path| - 1]);
      if d.None? then None
      else
        var j := Find(t.dirs[d.value], path[|path| - 1]);
        if j == |t.dirs[d.value]| then None
        else
          var e := t.dirs[d.value][j];
          if e.flag == FlagFolder && e.start in t.dirs then Some(e.start) else None
  }

  function NodeOf(t: Tree, e: Entry): Node
  {
    if e.flag == FlagFile && e.start in t.files && e.size <= |t.files[e.start]|
    then FileNode(t.files[e.start][..e.size])
    else FolderNode
  }

  /** The entry a non-empty path names, if any. */
  function Lookup(t: Tree, parent: seq<string>, name: string): Option<Entry>
    requires t.root in t.dirs
  {
    var d := Walk(t, parent);
    if d.None? then None
    else
      var j := Find(t.dirs[d.value], name);
      if j == |t.dirs[d.value]| then None else Some(t.dirs[d.value][j])
  }

  function View(t: Tree, path: seq<string>): Option<Node>
    requires t.root in t.dirs
  {
    if path == [] then Some(FolderNode)
    else
      var e := Lookup(t, path[..|path| - 1], path[|path| - 1]);
      if e.None? then None else Some(NodeOf(t, e.value))
  }

  /** Two different paths never lead to the same directory. */
  lemma {:induction false} WalkInjective(t: Tree, p: seq<string>, q: seq<string>)
    requires TreeOk(t)
    requires Walk(t, p).Some? && Walk(t, p) == Walk(t, q)
    ensures p == q
    decreases |p| + |q|
  {
    if p != [] {
      var x := WalkHome(t, p);
      if q != [] {
        var y := WalkHome(t, q);
        assert x == y;
        WalkInjective(t, p[..|p| - 1], q[..|q| - 1]);
        assert p == p[..|p| - 1] + [p[|p| - 1]];
        assert q == q[..|q| - 1] + [q[|q| - 1]];
      }
    } else if q != [] {
      var y := WalkHome(t, q);
    }
  }

  /** The slot through which a non-empty path enters its last directory. */
  lemma WalkHome(t: Tree, p: seq<string>) returns (x: Slot)
    requires TreeOk(t) && p != [] && Walk(t, p).Some?
    ensures Walk(t, p[..|p| - 1]) == Some(x.dir)
    ensures IsLive(t, x) && At(t, x).name == p[|p| - 1]
    ensures At(t, x).start == Walk(t, p).value && At(t, x).start != t.root
  {
    var d := Walk(t, p[..|p| - 1]).value;
    x := Slot(d, Find(t.dirs[d], p[|p| - 1]));
    assert EntryOk(t, At(t, x));
  }

  lemma SnocInjective(q: seq<string>, n: string, r: seq<string>, m: string)
    ensures q + [n] == r + [m] <==> q == r && n == m
  {
    if q + [n] == r + [m] {
      assert q == (q + [n])[..|q|];
      assert r == (r + [m])[..|r|];
    }
  }

  // ---------------------------------------------------------------- insertion

  /** `slots'` is `slots` (possibly grown by empty slots) with `e` in a slot that was empty. */
  ghost predicate SlotsInserted(slots: seq<Entry>, slots': seq<Entry>, e: Entry, j: nat) {
    && |slots| <= |slots'| && j < |slots'|
    && slots'[j] == e
    && (j < |slots| ==> !Live(slots[j]))
    && (forall i :: 0 <= i < |slots| && i != j ==> slots'[i] == slots[i])
    && (forall i :: |slots| <= i < |slots'| && i != j ==> !Live(slots'[i]))
  }

  /** The effect on the tree of adding entry `e` to directory `d`. */
  ghost predicate TreeInserted(t: Tree, t': Tree, d: nat, e: Entry, j: nat) {
    && d in t.dirs && Live(e)
    && t'.root == t.root
    && e.start !in t.dirs && e.start !in t.files
    && d in t'.dirs && SlotsInserted(t.dirs[d], t'.dirs[d], e, j)
    && (forall k :: k in t.dirs && k != d ==> k in t'.dirs && t'.dirs[k] == t.dirs[k])
    && (forall k :: k in t.files ==> k in t'.files && t'.files[k] == t.files[k])
    && (e.flag == FlagFolder ==>
          && e.start in t'.dirs && t'.dirs.Keys == t.dirs.Keys + {e.start}
          && (forall i :: 0 <= i < |t'.dirs[e.start]| ==> !Live(t'.dirs[e.start][i]))
          && t'.files == t.files)
    && (e.flag == FlagFile ==>
          && t'.dirs.Keys == t.dirs.Keys
          && t'.files.Keys == t.files.Keys + {e.start} && e.size <= |t'.files[e.start]|)
  }

  /** Of two entries of one name the earlier slot is found. */
  lemma FindInserted(slots: seq<Entry>, slots': seq<Entry>, e: Entry, j: nat, name: string)
    requires SlotsInserted(slots, slots', e, j) && Live(e)
    ensures name == e.name ==> Find(slots', name) == if Find(slots, name) < j && Find(slots, name) < |slots| then Find(slots, name) else j
    ensures name != e.name && Find(slots, name) < |slots| ==> Find(slots', name) == Find(slots, name)
    ensures name != e.name && Find(slots, name) == |slots| ==> Find(slots', name) == |slots'|
  {
    var r := Find(slots, name);
    if name == e.name {
      FindIs(slots', name, if r < j && r < |slots| then r else j);
    } else if r < |slots| {
      assert j != r;
      FindIs(slots', name, r);
    } else {
      FindIs(slots', name, |slots'|);
    }
  }

  lemma WalkSnoc(t: Tree, p: seq<string>, n: string)
    requires t.root in t.dirs
    ensures Walk(t, p).None? ==> Walk(t, p + [n]).None?
    ensures Walk(t, p).Some? ==>
              var slots := t.dirs[Walk(t, p).value];
              var j := Find(slots, n);
              Walk(t, p + [n]) == if j < |slots| && slots[j].flag == FlagFolder && slots[j].start in t.dirs
                                  then Some(slots[j].start) else None
  {
    assert (p + [n])[..|p|] == p;
  }

  lemma {:induction false} WalkStuck(t: Tree, p: seq<string>, q: seq<string>)
    requires t.root in t.dirs && Walk(t, p).None?
    ensures Walk(t, p + q).None?
    decreases |q|
  {
    if q == [] {
      assert p + q == p;
    } else {
      WalkSnoc(t, p, q[0]);
      WalkStuck(t, p + [q[0]], q[1..]);
      assert p + [q[0]] + q[1..] == p + q;
    }
  }

  lemma ViewSnoc(t: Tree, p: seq<string>, n: string)
    requires t.root in t.dirs
    ensures Walk(t, p).None? ==> View(t, p + [n]).None?
    ensures Walk(t, p).Some? ==>
              var slots := t.dirs[Walk(t, p).value];
              var j := Find(slots, n);
              View(t, p + [n]) == if j < |slots| then Some(NodeOf(t, slots[j])) else None
  {
    assert (p + [n])[..|p|] == p;
  }

  lemma PrefixSnoc(a: seq<string>, q: seq<string>, n: string)
    ensures a <= q + [n] <==> a <= q || a == q + [n]
  {
    if a <= q + [n] && |a| <= |q| { assert a == (q + [n])[..|a|] == q[..|a|]; }
    if a <= q { assert a == q[..|a|] == (q + [n])[..|a|]; }
  }

  /** A new entry is found unless one of its name stands in an earlier slot. */
  predicate Shown(t: Tree, d: nat, e: Entry, j: nat)
    requires d in t.dirs
  {
    var i := Find(t.dirs[d], e.name);
    i >= j || i == |t.dirs[d]|
  }

  /** What a folder path leads to after an entry was added: only paths through the new entry change. */
  function WalkAfter(t: Tree, d: nat, e: Entry, j: nat, parent: seq<string>, p: seq<string>): Option<nat>
    requires t.root in t.dirs && d in t.dirs
  {
    if !(Shown(t, d, e, j) && parent + [e.name] <= p) then Walk(t, p)
    else if p == parent + [e.name] && e.flag == FlagFolder then Some(e.start)
    else None
  }

  lemma {:induction false} WalkInserted(t: Tree, t': Tree, d: nat, e: Entry, j: nat, parent: seq<string>, p: seq<string>)
    requires TreeOk(t) && TreeInserted(t, t', d, e, j) && Walk(t, parent) == Some(d)
    requires t'.root in t'.dirs
    ensures Walk(t', p) == WalkAfter(t, d, e, j, parent, p)
    decreases |p|
  {
    if p != [] {
      var q, n := p[..|p| - 1], p[|p| - 1];
      assert p == q + [n];
      WalkInserted(t, t', d, e, j, parent, q);
      WalkInsertedStep(t, t', d, e, j, parent, q, n);
    }
  }

  lemma WalkInsertedStep(t: Tree, t': Tree, d: nat, e: Entry, j: nat, parent: seq<string>, q: seq<string>, n: string)
    requires TreeOk(t) && TreeInserted(t, t', d, e, j) && Walk(t, parent) == Some(d)
    requires t.root in t.dirs && t'.root in t'.dirs && Walk(t', q) == WalkAfter(t, d, e, j, parent, q)
    ensures Walk(t', q + [n]) == WalkAfter(t, d, e, j, parent, q + [n])
  {
    hide Walk, Find, TreeOk, TreeInserted;
    var target := parent + [e.name];
    PrefixSnoc(target, q, n);
    SnocInjective(q, n, parent, e.name);
    WalkSnoc(t, q, n);
    WalkSnoc(t', q, n);
    if Shown(t, d, e, j) && target <= q {
      if q == target && e.flag == FlagFolder { NewFolderIsEmpty(t, t', d, e, j, n); }
    } else if Walk(t, q).Some? {
      StepInserted(t, t', d, e, j, parent, q, n);
    }
  }

  lemma NewFolderIsEmpty(t: Tree, t': Tree, d: nat, e: Entry, j: nat, n: string)
    requires TreeInserted(t, t', d, e, j) && e.flag == FlagFolder
    ensures e.start in t'.dirs && Find(t'.dirs[e.start], n) == |t'.dirs[e.start]|
  {
  }

  /** One step from an old directory: to the new entry if it is shown, else as before. */
  lemma StepInserted(t: Tree, t': Tree, d: nat, e: Entry, j: nat, parent: seq<string>, q: seq<string>, n: string)
    requires TreeOk(t) && TreeInserted(t, t', d, e, j) && Walk(t, parent) == Some(d) && Walk(t, q).Some?
    ensures var k := Walk(t, q).value;
            var i := Find(t.dirs[k], n);
            && k in t'.dirs && (k == d <==> q == parent)
            && var i' := Find(t'.dirs[k], n);
               if k == d && n == e.name && Shown(t, d, e, j)
               then i' < |t'.dirs[k]| && t'.dirs[k][i'] == e && (e.flag == FlagFolder ==> e.start in t'.dirs)
               else (i < |t.dirs[k]| <==> i' < |t'.dirs[k]|)
                    && (i < |t.dirs[k]| ==> t'.dirs[k][i'] == t.dirs[k][i] && KeepsMeaning(t, t', t.dirs[k][i]))
  {
    var k := Walk(t, q).value;
    if k == d { WalkInjective(t, parent, q); }
    hide Walk, Find;
    var i := Find(t.dirs[k], n);
    if k == d { FindInserted(t.dirs[d], t'.dirs[d], e, j, n); }
    KeptByInsert(t, t', d, e, j, k, i);
  }

  /** The entry leads to the same folder, or to the same contents, in both trees. */
  predicate KeepsMeaning(t: Tree, t': Tree, e: Entry) {
    NodeOf(t', e) == NodeOf(t, e) && (e.flag == FlagFolder ==> (e.start in t'.dirs <==> e.start in t.dirs))
  }

  /**
    What every path denotes after an entry was added: unless an earlier entry of its name hides
    it, its path denotes the new object and the paths below it nothing; all others are as before.
   */
  function ViewAfter(t: Tree, d: nat, e: Entry, j: nat, parent: seq<string>, node: Node, p: seq<string>): Option<Node>
    requires t.root in t.dirs && d in t.dirs
  {
    if !(Shown(t, d, e, j) && parent + [e.name] <= p) then View(t, p)
    else if p == parent + [e.name] then Some(node)
    else None
  }

  lemma ViewInserted(t: Tree, t': Tree, d: nat, e: Entry, j: nat, parent: seq<string>, p: seq<string>)
    requires TreeOk(t) && TreeInserted(t, t', d, e, j) && Walk(t, parent) == Some(d)
    requires t.root in t.dirs && t'.root in t'.dirs
    ensures View(t', p) == ViewAfter(t, d, e, j, parent, NodeOf(t', e), p)
  {
    hide Walk, Find, TreeOk, TreeInserted;
    if p != [] {
      var q, n := p[..|p| - 1], p[|p| - 1];
      assert p == q + [n];
      hide View;
      WalkInserted(t, t', d, e, j, parent, q);
      PrefixSnoc(parent + [e.name], q, n);
      SnocInjective(q, n, parent, e.name);
      ViewSnoc(t, q, n);
      ViewSnoc(t', q, n);
      if Shown(t, d, e, j) && parent + [e.name] <= q {
        if q == parent + [e.name] && e.flag == FlagFolder { NewFolderIsEmpty(t, t', d, e, j, n); }
      } else if Walk(t, q).Some? {
        StepInserted(t, t', d, e, j, parent, q, n);
      }
    }
  }

  /** Below a path that leads to no folder nothing exists. */
  lemma NothingBelow(t: Tree, p: seq<string>, q: seq<string>)
    requires t.root in t.dirs && Walk(t, p).None? && p < q
    ensures View(t, q) == None
  {
    hide Walk, View;
    var r := q[..|q| - 1];
    assert r == p + r[|p|..];
    WalkStuck(t, p, r[|p|..]);
    assert q == r + [q[|q| - 1]];
    ViewSnoc(t, r, q[|q| - 1]);
  }

  /** A live entry keeps its meaning when another one is added. */
  lemma KeptByInsert(t: Tree, t': Tree, d: nat, e: Entry, j: nat, k: nat, i: nat)
    requires TreeOk(t) && TreeInserted(t, t', d, e, j)
    requires k in t.dirs && i <= |t.dirs[k]| && (i < |t.dirs[k]| ==> Live(t.dirs[k][i]))
    ensures k in t'.dirs && (k != d ==> t'.dirs[k] == t.dirs[k]) && (e.flag == FlagFolder ==> e.start in t'.dirs)
    ensures i < |t.dirs[k]| ==> i < |t'.dirs[k]| && t'.dirs[k][i] == t.dirs[k][i]
    ensures i < |t.dirs[k]| ==> KeepsMeaning(t, t', t.dirs[k][i])
  {
    if i < |t.dirs[k]| {
      assert IsLive(t, Slot(k, i));
      assert EntryOk(t, At(t, Slot(k, i)));
    }
  }

  // ---------------------------------------------------------------- deletion

  /** The effect on the tree of clearing the file entry at slot `x`. */
  ghost predicate TreeRemoved(t: Tree, t': Tree, x: Slot) {
    && IsLive(t, x) && At(t, x).flag == FlagFile
    && t'.root == t.root && t'.dirs.Keys == t.dirs.Keys
    && |t'.dirs[x.dir]| == |t.dirs[x.dir]| && !Live(t'.dirs[x.dir][x.index])
    && (forall i :: 0 <= i < |t.dirs[x.dir]| && i != x.index ==> t'.dirs[x.dir][i] == t.dirs[x.dir][i])
    && (forall k :: k in t.dirs && k != x.dir ==> t'.dirs[k] == t.dirs[k])
    && t'.files.Keys == t.files.Keys - {At(t, x).start}
    && (forall k :: k in t'.files ==> t'.files[k] == t.files[k])
  }

  /** No directory holds two live entries of the same name. */
  ghost predicate UniqueNames(t: Tree) {
    forall x, y :: IsLive(t, x) && IsLive(t, y) && x.dir == y.dir && At(t, x).name == At(t, y).name ==> x == y
  }

  /** The entry at `x` is the only one of its name in its directory. */
  ghost predicate Sole(t: Tree, x: Slot) {
    IsLive(t, x) && forall y :: IsLive(t, y) && y.dir == x.dir && At(t, y).name == At(t, x).name ==> y == x
  }

  lemma RemoveKeepsTreeOk(t: Tree, t': Tree, x: Slot)
    requires TreeOk(t) && TreeRemoved(t, t', x)
    ensures TreeOk(t')
    ensures UniqueNames(t) ==> UniqueNames(t')
  {
    forall y | IsLive(t', y)
      ensures y != x && IsLive(t, y) && At(t', y) == At(t, y) && At(t, y).start != At(t, x).start
    {
      assert y != x;
      assert IsLive(t, y);
      assert EntryOk(t, At(t, y));
    }
  }

  lemma InsertKeepsUniqueNames(t: Tree, t': Tree, d: nat, e: Entry, j: nat)
    requires TreeInserted(t, t', d, e, j) && UniqueNames(t)
    requires Find(t.dirs[d], e.name) == |t.dirs[d]|
    ensures UniqueNames(t')
  {
    forall x | IsLive(t', x)
      ensures (x == Slot(d, j) && At(t', x) == e) || (IsLive(t, x) && At(t', x) == At(t, x))
      ensures x.dir == d && x.index != j ==> At(t', x).name != e.name
    {
      if x != Slot(d, j) {
        assert x.dir in t.dirs;
        assert IsLive(t, x);
      }
    }
  }

  lemma FindRemoved(t: Tree, t': Tree, x: Slot, name: string)
    requires TreeRemoved(t, t', x)
    ensures name != At(t, x).name ==> Find(t'.dirs[x.dir], name) == Find(t.dirs[x.dir], name)
    ensures name == At(t, x).name && Sole(t, x) ==> Find(t'.dirs[x.dir], name) == |t'.dirs[x.dir]|
  {
    var r := Find(t.dirs[x.dir], name);
    if name != At(t, x).name {
      FindIs(t'.dirs[x.dir], name, r);
    } else if Sole(t, x) {
      forall i | 0 <= i < |t'.dirs[x.dir]|
        ensures !Named(t'.dirs[x.dir][i], name)
      {
        if i != x.index && Named(t.dirs[x.dir][i], name) {
          assert IsLive(t, Slot(x.dir, i));
        }
      }
      FindIs(t'.dirs[x.dir], name, |t'.dirs[x.dir]|);
    }
  }

  /** One step from a directory meets the entry it met before, unless it is by the removed name. */
  lemma StepRemoved(t: Tree, t': Tree, x: Slot, k: nat, n: string)
    requires TreeOk(t) && TreeRemoved(t, t', x) && k in t.dirs && (k != x.dir || n != At(t, x).name)
    ensures k in t'.dirs && |t'.dirs[k]| == |t.dirs[k]| && Find(t'.dirs[k], n) == Find(t.dirs[k], n)
    ensures var i := Find(t.dirs[k], n);
            i < |t.dirs[k]| ==> t'.dirs[k][i] == t.dirs[k][i] && KeepsMeaning(t, t', t.dirs[k][i])
  {
    if k == x.dir { FindRemoved(t, t', x, n); }
    var i := Find(t.dirs[k], n);
    assert k == x.dir ==> i != x.index;
    KeptNode(t, t', x, k, i);
  }

  /** Removing a file leaves every folder path that does not lead through its name as it was. */
  lemma {:induction false} WalkRemoved(t: Tree, t': Tree, x: Slot, parent: seq<string>, p: seq<string>)
    requires TreeOk(t) && TreeRemoved(t, t', x) && Walk(t, parent) == Some(x.dir)
    requires t.root in t.dirs && t'.root in t'.dirs && !(parent + [At(t, x).name] <= p)
    ensures Walk(t', p) == Walk(t, p)
    decreases |p|
  {
    if p != [] {
      var q, n := p[..|p| - 1], p[|p| - 1];
      assert p == q + [n];
      PrefixSnoc(parent + [At(t, x).name], q, n);
      WalkRemoved(t, t', x, parent, q);
      if Walk(t, q).Some? { NotByName(t, x, parent, q, n); }
      hide Walk, Find, TreeOk, TreeRemoved;
      WalkSnoc(t, q, n);
      WalkSnoc(t', q, n);
      if Walk(t, q).Some? { StepRemoved(t, t', x, Walk(t, q).value, n); }
    }
  }

  lemma NotByName(t: Tree, x: Slot, parent: seq<string>, q: seq<string>, n: string)
    requires TreeOk(t) && IsLive(t, x) && Walk(t, parent) == Some(x.dir) && Walk(t, q).Some?
    requires q + [n] != parent + [At(t, x).name]
    ensures Walk(t, q).value != x.dir || n != At(t, x).name
  {
    if Walk(t, q).value == x.dir { WalkInjective(t, parent, q); }
  }

  /** Nor does any other path; with its only entry gone the name denotes nothing. */
  lemma ViewRemoved(t: Tree, t': Tree, x: Slot, parent: seq<string>, p: seq<string>)
    requires TreeOk(t) && IsLive(t, x) && TreeRemoved(t, t', x) && Walk(t, parent) == Some(x.dir)
    requires t.root in t.dirs && t'.root in t'.dirs
    ensures !(parent + [At(t, x).name] <= p) ==> View(t', p) == View(t, p)
    ensures Sole(t, x) && parent + [At(t, x).name] <= p ==> View(t', p) == None
  {
    hide Walk, Find, TreeOk, TreeRemoved, Sole;
    var target := parent + [At(t, x).name];
    if !(target <= p) {
      if p != [] { OtherViewKept(t, t', x, parent, p[..|p| - 1], p[|p| - 1]); }
      assert p != [] ==> p == p[..|p| - 1] + [p[|p| - 1]];
    } else if Sole(t, x) {
      SoleViewGone(t, t', x, parent, p);
    }
  }

  lemma OtherViewKept(t: Tree, t': Tree, x: Slot, parent: seq<string>, q: seq<string>, n: string)
    requires TreeOk(t) && IsLive(t, x) && TreeRemoved(t, t', x) && Walk(t, parent) == Some(x.dir)
    requires t.root in t.dirs && t'.root in t'.dirs && !(parent + [At(t, x).name] <= q + [n])
    ensures View(t', q + [n]) == View(t, q + [n])
  {
    hide Walk, Find, TreeOk, TreeRemoved, View;
    PrefixSnoc(parent + [At(t, x).name], q, n);
    WalkRemoved(t, t', x, parent, q);
    ViewSnoc(t, q, n);
    ViewSnoc(t', q, n);
    if Walk(t, q).Some? {
      NotByName(t, x, parent, q, n);
      StepRemoved(t, t', x, Walk(t, q).value, n);
    }
  }

  lemma SoleViewGone(t: Tree, t': Tree, x: Slot, parent: seq<string>, p: seq<string>)
    requires TreeOk(t) && Sole(t, x) && TreeRemoved(t, t', x) && Walk(t, parent) == Some(x.dir)
    requires t.root in t.dirs && t'.root in t'.dirs && parent + [At(t, x).name] <= p
    ensures View(t', p) == None
  {
    FindRemoved(t, t', x, At(t, x).name);
    hide Walk, Find, TreeOk, View, Sole;
    WalkRemoved(t, t', x, parent, parent);
    ViewSnoc(t', parent, At(t, x).name);
    WalkSnoc(t', parent, At(t, x).name);
    if p != parent + [At(t, x).name] { NothingBelow(t', parent + [At(t, x).name], p); }
  }

  /** An entry other than the removed one keeps its meaning. */
  lemma KeptNode(t: Tree, t': Tree, x: Slot, k: nat, i: nat)
    requires TreeOk(t) && TreeRemoved(t, t', x)
    requires k in t.dirs && i <= |t.dirs[k]| && (i < |t.dirs[k]| ==> Live(t.dirs[k][i]))
    requires k != x.dir || i != x.index
    ensures k in t'.dirs && |t'.dirs[k]| == |t.dirs[k]|
    ensures i < |t.dirs[k]| ==> t'.dirs[k][i] == t.dirs[k][i] && KeepsMeaning(t, t', t.dirs[k][i])
  {
    if i < |t.dirs[k]| {
      assert IsLive(t, Slot(k, i));
      assert At(t, Slot(k, i)).start != At(t, x).start;
      assert EntryOk(t, At(t, Slot(k, i)));
    }
  }

  /** The next live entry called `name` behind slot `i`, or the number of slots. */
  function NextNamed(slots: seq<Entry>, name: string, i: nat): (r: nat)
    requires i < |slots|
    ensures i < r <= |slots|
    ensures r < |slots| ==> Named(slots[r], name)
    ensures forall j :: i < j < r ==> !Named(slots[j], name)
  {
    i + 1 + Find(slots[i + 1..], name)
  }

  /** With the first entry of a name gone, the next one in slot order is found. */
  lemma FindNext(t: Tree, t': Tree, x: Slot)
    requires TreeRemoved(t, t', x) && Find(t.dirs[x.dir], At(t, x).name) == x.index
    ensures Find(t'.dirs[x.dir], At(t, x).name) == NextNamed(t.dirs[x.dir], At(t, x).name, x.index)
  {
    FindIs(t'.dirs[x.dir], At(t, x).name, NextNamed(t.dirs[x.dir], At(t, x).name, x.index));
  }

  /** The directory reached from `d` along `q`. */
  function WalkFrom(t: Tree, d: nat, q: seq<string>): (r: Option<nat>)
    requires d in t.dirs
    ensures r.Some? ==> r.value in t.dirs
  {
    if q == [] then Some(d)
    else
      var k := WalkFrom(t, d, q[..|q| - 1]);
      if k.None? then None
      else
        var j := Find(t.dirs[k.value], q[|q| - 1]);
        if j == |t.dirs[k.value]| then None
        else
          var e := t.dirs[k.value][j];
          if e.flag == FlagFolder && e.start in t.dirs then Some(e.start) else None
  }

  /** What the path `q` denotes, seen from the directory `d`. */
  function ViewFrom(t: Tree, d: nat, q: seq<string>): Option<Node>
    requires d in t.dirs
  {
    if q == [] then Some(FolderNode)
    else
      var k := WalkFrom(t, d, q[..|q| - 1]);
      if k.None? then None
      else
        var j := Find(t.dirs[k.value], q[|q| - 1]);
        if j == |t.dirs[k.value]| then None else Some(NodeOf(t, t.dirs[k.value][j]))
  }

  lemma FromSnoc(t: Tree, d: nat, q: seq<string>, n: string)
    requires d in t.dirs
    ensures WalkFrom(t, d, q).None? ==> WalkFrom(t, d, q + [n]).None? && ViewFrom(t, d, q + [n]).None?
    ensures WalkFrom(t, d, q).Some? ==>
              var slots := t.dirs[WalkFrom(t, d, q).value];
              var j := Find(slots, n);
              && (WalkFrom(t, d, q + [n]) == if j < |slots| && slots[j].flag == FlagFolder && slots[j].start in t.dirs
                                             then Some(slots[j].start) else None)
              && (ViewFrom(t, d, q + [n]) == if j < |slots| then Some(NodeOf(t, slots[j])) else None)
  {
    assert (q + [n])[..|q|] == q;
  }

  /** The entry a deleted name falls back to. */
  function Fallback(t: Tree, x: Slot): Option<Entry>
    requires IsLive(t, x)
  {
    var j := NextNamed(t.dirs[x.dir], At(t, x).name, x.index);
    if j < |t.dirs[x.dir]| then Some(t.dirs[x.dir][j]) else None
  }

  /** Which folder the paths through the deleted name lead to from then on. */
  ghost predicate Exposes(t: Tree, t': Tree, x: Slot, target: seq<string>, q: seq<string>)
    requires IsLive(t, x) && t'.root in t'.dirs
  {
    var e := Fallback(t, x);
    Walk(t', target + q) == if e.Some? && e.value.flag == FlagFolder && e.value.start in t.dirs then WalkFrom(t, e.value.start, q) else None
  }

  lemma ExposedHere(t: Tree, t': Tree, x: Slot, parent: seq<string>)
    requires TreeOk(t) && IsLive(t, x) && TreeRemoved(t, t', x) && Walk(t, parent) == Some(x.dir)
    requires t.root in t.dirs && t'.root in t'.dirs && Find(t.dirs[x.dir], At(t, x).name) == x.index
    ensures Exposes(t, t', x, parent + [At(t, x).name], [])
    ensures View(t', parent + [At(t, x).name]) == var e := Fallback(t, x); if e.None? then None else Some(NodeOf(t, e.value))
  {
    var j, slots := NextNamed(t.dirs[x.dir], At(t, x).name, x.index), t.dirs[x.dir];
    FindNext(t, t', x);
    if j < |slots| { KeptNode(t, t', x, x.dir, j); }
    hide Walk, View, Find, TreeOk, NextNamed;
    WalkRemoved(t, t', x, parent, parent);
    WalkSnoc(t', parent, At(t, x).name);
    ViewSnoc(t', parent, At(t, x).name);
    assert parent + [At(t, x).name] + [] == parent + [At(t, x).name];
  }

  /** The directory of the deleted entry is not among the exposed ones. */
  lemma NotItsOwn(t: Tree, t': Tree, x: Slot, parent: seq<string>, q: seq<string>)
    requires TreeOk(t) && IsLive(t, x) && TreeRemoved(t, t', x) && Walk(t, parent) == Some(x.dir)
    requires t.root in t.dirs && t'.root in t'.dirs
    ensures Walk(t', parent + [At(t, x).name] + q) != Some(x.dir)
  {
    RemoveKeepsTreeOk(t, t', x);
    hide Walk, TreeOk, TreeRemoved;
    WalkRemoved(t, t', x, parent, parent);
    if Walk(t', parent + [At(t, x).name] + q) == Some(x.dir) { WalkInjective(t', parent, parent + [At(t, x).name] + q); }
  }

  lemma {:induction false} ExposedBelow(t: Tree, t': Tree, x: Slot, parent: seq<string>, q: seq<string>)
    requires TreeOk(t) && IsLive(t, x) && TreeRemoved(t, t', x) && Walk(t, parent) == Some(x.dir)
    requires t.root in t.dirs && t'.root in t'.dirs && Find(t.dirs[x.dir], At(t, x).name) == x.index
    ensures Exposes(t, t', x, parent + [At(t, x).name], q)
    decreases |q|
  {
    hide Walk, View, Find, TreeOk, TreeRemoved, WalkFrom, Fallback;
    if q == [] {
      ExposedHere(t, t', x, parent);
    } else {
      var r, n := q[..|q| - 1], q[|q| - 1];
      assert q == r + [n];
      ExposedBelow(t, t', x, parent, r);
      ExposedStep(t, t', x, parent, r, n);
    }
  }

  /** One step below the name, in the old tree as in the new. */
  lemma ExposedStep(t: Tree, t': Tree, x: Slot, parent: seq<string>, r: seq<string>, n: string)
    requires TreeOk(t) && IsLive(t, x) && TreeRemoved(t, t', x) && Walk(t, parent) == Some(x.dir)
    requires t.root in t.dirs && t'.root in t'.dirs && Exposes(t, t', x, parent + [At(t, x).name], r)
    ensures Exposes(t, t', x, parent + [At(t, x).name], r + [n])
    ensures View(t', parent + [At(t, x).name] + (r + [n])) ==
            var e := Fallback(t, x);
            if e.Some? && e.value.flag == FlagFolder && e.value.start in t.dirs then ViewFrom(t, e.value.start, r + [n]) else None
  {
    hide Walk, View, Find, TreeOk, TreeRemoved, WalkFrom, ViewFrom, Fallback;
    var target, e := parent + [At(t, x).name], Fallback(t, x);
    assert target + (r + [n]) == target + r + [n];
    WalkSnoc(t', target + r, n);
    ViewSnoc(t', target + r, n);
    NotItsOwn(t, t', x, parent, r);
    if e.Some? && e.value.flag == FlagFolder && e.value.start in t.dirs {
      FromSnoc(t, e.value.start, r, n);
      if WalkFrom(t, e.value.start, r).Some? { StepRemoved(t, t', x, WalkFrom(t, e.value.start, r).value, n); }
    }
  }

  /**
    What every path denotes after the first entry of a name was cleared: outside the name what it
    did; at the name the next entry of that name, if there is one; below it what that entry, if it
    is a folder, has there.
   */
  function ViewWithout(t: Tree, x: Slot, target: seq<string>, p: seq<string>): Option<Node>
    requires t.root in t.dirs && IsLive(t, x)
  {
    var e := Fallback(t, x);
    if !(target <= p) then View(t, p)
    else if e.None? then None
    else if p == target then Some(NodeOf(t, e.value))
    else if e.value.flag == FlagFolder && e.value.start in t.dirs then ViewFrom(t, e.value.start, p[|target|..])
    else None
  }

  lemma ViewAfterRemoval(t: Tree, t': Tree, x: Slot, parent: seq<string>, p: seq<string>)
    requires TreeOk(t) && IsLive(t, x) && TreeRemoved(t, t', x) && Walk(t, parent) == Some(x.dir)
    requires t.root in t.dirs && t'.root in t'.dirs && Find(t.dirs[x.dir], At(t, x).name) == x.index
    ensures View(t', p) == ViewWithout(t, x, parent + [At(t, x).name], p)
  {
    hide Walk, View, Find, TreeOk, TreeRemoved, WalkFrom, ViewFrom, Fallback, Sole;
    var target := parent + [At(t, x).name];
    if !(target <= p) {
      ViewRemoved(t, t', x, parent, p);
    } else if p == target {
      ExposedHere(t, t', x, parent);
    } else {
      var q := p[|target|..];
      var r, n := q[..|q| - 1], q[|q| - 1];
      assert p == target + (r + [n]) && q == r + [n];
      ExposedBelow(t, t', x, parent, r);
      ExposedStep(t, t', x, parent, r, n);
    }
  }

  /** Deleting the first entry of a name leaves the name unbound exactly when it was the only one. */
  lemma RemovedIffSole(t: Tree, t': Tree, x: Slot)
    requires TreeRemoved(t, t', x)
    requires Find(t.dirs[x.dir], At(t, x).name) == x.index
    ensures Find(t'.dirs[x.dir], At(t, x).name) == |t'.dirs[x.dir]| <==> Sole(t, x)
  {
    FindRemoved(t, t', x, At(t, x).name);
    if !Sole(t, x) {
      var y :| IsLive(t, y) && y.dir == x.dir && At(t, y).name == At(t, x).name && y != x;
      assert Named(t'.dirs[x.dir][y.index], At(t, x).name);
    }
  }
}
