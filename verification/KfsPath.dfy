/**
  Path strings of KyuzenFS: components separated by any number of slashes, and
  the split into a parent directory and a final name.
 */
module KfsPath {

  const PARENT_MAX: nat := 127

  /** Length of the run of non-slash characters at the front. */
  function NameLen(s: string): (n: nat)
    ensures n <= |s|
    ensures forall i :: 0 <= i < n ==> s[i] != '/'
    ensures n < |s| ==> s[n] == '/'
  {
    if s == "" || s[0] == '/' then 0 else 1 + NameLen(s[1..])
  }

  /** The non-empty components of a path. */
  function Components(s: string): (r: seq<string>)
    decreases |s|
  {
    if s == "" then []
    else if s[0] == '/' then Components(s[1..])
    else [s[..NameLen(s)]] + Components(s[NameLen(s)..])
  }

  lemma NameLenIs(s: string, n: nat)
    requires n <= |s| && (n < |s| ==> s[n] == '/')
    requires forall i :: 0 <= i < n ==> s[i] != '/'
    ensures NameLen(s) == n
  {
  }

  /** A slash separates the components before it from those after it. */
  lemma {:induction false} ComponentsOfJoin(a: string, b: string)
    ensures Components(a + "/" + b) == Components(a) + Components(b)
    decreases |a|
  {
    var s := a + "/" + b;
    if a == "" {
      assert s[1..] == b;
    } else if a[0] == '/' {
      assert s[1..] == a[1..] + "/" + b;
      ComponentsOfJoin(a[1..], b);
    } else {
      var n := NameLen(a);
      NameLenIs(s, n);
      assert s[..n] == a[..n];
      assert s[n..] == a[n..] + "/" + b;
      ComponentsOfJoin(a[n..], b);
    }
  }

  lemma ComponentsOfName(s: string)
    requires s != "" && '/' !in s
    ensures Components(s) == [s]
  {
    NameLenIs(s, |s|);
    assert s[..|s|] == s;
  }

  /** Leading slashes do not matter. */
  lemma ComponentsSkip(s: string, i: nat)
    requires i <= |s| && forall k :: 0 <= k < i ==> s[k] == '/'
    ensures Components(s) == Components(s[i..])
  {
    if i > 0 {
      assert s[1..][i - 1..] == s[i..];
      ComponentsSkip(s[1..], i - 1);
    }
  }

  /** Where the final name starts: just behind the last slash. */
  function NameStart(path: string): (n: nat)
    ensures n <= |path|
    ensures '/' !in path[n..]
    ensures n > 0 ==> path[n - 1] == '/'
  {
    if path == "" then 0
    else if path[|path| - 1] == '/' then |path|
    else
      var n := NameStart(path[..|path| - 1]);
      assert path[n..] == path[..|path| - 1][n..] + [path[|path| - 1]];
      n
  }

  lemma {:induction false} NameStartIs(path: string, n: nat)
    requires n <= |path| && '/' !in path[n..] && (n > 0 ==> path[n - 1] == '/')
    ensures NameStart(path) == n
  {
  }

  function FinalName(path: string): string {
    path[NameStart(path)..]
  }

  /** Length of the parent part: everything before the last slash. */
  function ParentLen(path: string): (n: nat)
    ensures n <= |path|
  {
    if NameStart(path) > 0 then NameStart(path) - 1 else 0
  }

  /** The parent part as it fits the 128-byte buffer. */
  function ParentPart(path: string): string {
    path[..if ParentLen(path) > PARENT_MAX then PARENT_MAX else ParentLen(path)]
  }

  /** The location a path operation acts on. */
  function Target(path: string): seq<string> {
    Components(ParentPart(path)) + [FinalName(path)]
  }

  /** Without the buffer limit the target would be the path's own components. */
  lemma SplitAgreesWithComponents(path: string)
    requires FinalName(path) != ""
    ensures Components(path) == Components(path[..ParentLen(path)]) + [FinalName(path)]
  {
    var n := NameStart(path);
    if n > 0 {
      assert path == path[..n - 1] + "/" + path[n..];
      ComponentsOfJoin(path[..n - 1], path[n..]);
    }
    ComponentsOfName(path[n..]);
    assert n == 0 ==> path[n..] == path && Components(path[..0]) == [];
  }

  function NonSlashes(s: string): nat {
    if s == "" then 0 else (if s[0] == '/' then 0 else 1) + NonSlashes(s[1..])
  }

  function TotalLen(c: seq<string>): nat {
    if c == [] then 0 else |c[0]| + TotalLen(c[1..])
  }

  lemma {:induction false} NonSlashesOfConcat(a: string, b: string)
    ensures NonSlashes(a + b) == NonSlashes(a) + NonSlashes(b)
    decreases |a|
  {
    if a == "" {
      assert a + b == b;
    } else {
      assert (a + b)[1..] == a[1..] + b;
      NonSlashesOfConcat(a[1..], b);
    }
  }

  lemma {:induction false} NonSlashesOfName(s: string)
    requires forall i :: 0 <= i < |s| ==> s[i] != '/'
    ensures NonSlashes(s) == |s|
    decreases |s|
  {
    if s != "" { NonSlashesOfName(s[1..]); }
  }

  /** Components keep every non-slash character and nothing else. */
  lemma {:induction false} ComponentsKeepCharacters(s: string)
    ensures TotalLen(Components(s)) == NonSlashes(s)
    decreases |s|
  {
    if s != "" {
      if s[0] == '/' {
        ComponentsKeepCharacters(s[1..]);
      } else {
        var n := NameLen(s);
        ComponentsKeepCharacters(s[n..]);
        NonSlashesOfName(s[..n]);
        NonSlashesOfConcat(s[..n], s[n..]);
        assert s == s[..n] + s[n..];
        assert Components(s)[1..] == Components(s[n..]);
      }
    }
  }

  lemma {:induction false} NoNonSlashes(s: string)
    ensures NonSlashes(s) == 0 <==> forall i :: 0 <= i < |s| ==> s[i] == '/'
    decreases |s|
  {
    if s != "" {
      NoNonSlashes(s[1..]);
      if forall i :: 0 <= i < |s| ==> s[i] == '/' {
        assert forall i :: 0 <= i < |s[1..]| ==> s[1..][i] == s[i + 1];
      } else if s[0] == '/' {
        var i :| 0 <= i < |s| && s[i] != '/';
        assert s[1..][i - 1] == s[i];
      }
    }
  }

  lemma {:induction false} ComponentsOfTrailingSlashes(a: string, b: string)
    requires forall i :: 0 <= i < |b| ==> b[i] == '/'
    ensures Components(a + b) == Components(a)
    decreases |b|
  {
    if b == "" {
      assert a + b == a;
    } else {
      var n := |b| - 1;
      assert a + b == (a + b[..n]) + "/" + "";
      ComponentsOfJoin(a + b[..n], "");
      ComponentsOfTrailingSlashes(a, b[..n]);
    }
  }

  lemma ComponentsUnchangedIff(kept: string, rest: string)
    ensures Components(kept + rest) == Components(kept) <==> forall i :: 0 <= i < |rest| ==> rest[i] == '/'
  {
    if forall i :: 0 <= i < |rest| ==> rest[i] == '/' {
      ComponentsOfTrailingSlashes(kept, rest);
    } else {
      NoNonSlashes(rest);
      ComponentsKeepCharacters(kept + rest);
      ComponentsKeepCharacters(kept);
      NonSlashesOfConcat(kept, rest);
    }
  }

  lemma SnocEqual(a: seq<string>, b: seq<string>, n: string)
    ensures a + [n] == b + [n] <==> a == b
  {
    assert a == (a + [n])[..|a|];
    assert b == (b + [n])[..|b|];
  }

  /**
    The operations act on the location the path spells exactly when the part of
    the parent that does not fit the buffer consists of slashes only.
   */
  lemma TargetIsThePath(path: string)
    requires FinalName(path) != ""
    ensures Target(path) == Components(path) <==>
              forall i :: 127 <= i < ParentLen(path) ==> path[i] == '/'
  {
    hide Components, NameStart;
    SplitAgreesWithComponents(path);
    var whole, kept := path[..ParentLen(path)], ParentPart(path);
    var rest := whole[|kept|..];
    assert whole == kept + rest;
    ComponentsUnchangedIff(kept, rest);
    SnocEqual(Components(kept), Components(whole), FinalName(path));
    assert forall i :: 0 <= i < |rest| ==> rest[i] == path[|kept| + i];
    assert forall i :: |kept| <= i < ParentLen(path) ==> path[i] == rest[i - |kept|];
  }

  /** A parent longer than the buffer is cut: the operation acts somewhere else. */
  lemma LongParentIsCut()
    ensures var path := seq(128, _ => 'a') + "/b"; FinalName(path) == "b" && Target(path) != Components(path)
  {
    var path := seq(128, _ => 'a') + "/b";
    NameStartIs(path, 129);
    assert path[129..] == "b";
    TargetIsThePath(path);
    assert path[127] == 'a';
  }
}
