/** Seven-pass interlacing (section 2.6 of RFC 2083): the passes scattered into the final picture. */
module Adam7 {
  import opened Grid
  import BitReverse

  type Pass = p: nat | p < 7

  function XOrig(p: Pass): nat { if p == 1 then 4 else if p == 3 then 2 else if p == 5 then 1 else 0 }
  function YOrig(p: Pass): nat { if p == 2 then 4 else if p == 4 then 2 else if p == 6 then 1 else 0 }
  function XStep(p: Pass): nat { if p < 2 then 8 else if p < 4 then 4 else if p < 6 then 2 else 1 }
  function YStep(p: Pass): nat { if p < 3 then 8 else if p < 5 then 4 else 2 }

  /** Where position (i, j) of pass `p` goes. */
  function OutX(p: Pass, i: nat): nat { i * XStep(p) + XOrig(p) }
  function OutY(p: Pass, j: nat): nat { j * YStep(p) + YOrig(p) }

  /** Columns and rows of pass `p` in a picture of the given size. */
  function Columns(w: nat, p: Pass): nat { (w - XOrig(p) + XStep(p) - 1) / XStep(p) }
  function Rows(h: nat, p: Pass): nat { (h - YOrig(p) + YStep(p) - 1) / YStep(p) }

  /** The computed sizes count exactly the pass positions that fall into the picture. */
  lemma SizesAreExact(w: nat, h: nat, p: Pass, i: nat, j: nat)
    ensures i < Columns(w, p) <==> OutX(p, i) < w
    ensures j < Rows(h, p) <==> OutY(p, j) < h
  {
  }

  /** The pass that carries pixel (x, y), read off the 8 by 8 pattern. */
  function PassOf(x: nat, y: nat): Pass {
    if y % 2 == 1 then 6
    else if x % 2 == 1 then 5
    else if y % 4 == 2 then 4
    else if x % 4 == 2 then 3
    else if y % 8 == 4 then 2
    else if x % 8 == 4 then 1
    else 0
  }

  /** The pattern of section 2.6 of RFC 2083, repeated over the picture, which counts the passes from 1. */
  const PATTERN: seq<seq<nat>> :=
    [[1, 6, 4, 6, 2, 6, 4, 6],
     [7, 7, 7, 7, 7, 7, 7, 7],
     [5, 6, 5, 6, 5, 6, 5, 6],
     [7, 7, 7, 7, 7, 7, 7, 7],
     [3, 6, 4, 6, 3, 6, 4, 6],
     [7, 7, 7, 7, 7, 7, 7, 7],
     [5, 6, 5, 6, 5, 6, 5, 6],
     [7, 7, 7, 7, 7, 7, 7, 7]]

  lemma PassIsPattern(x: nat, y: nat)
    ensures PATTERN[y % 8][x % 8] == PassOf(x, y) + 1
  {
    Remainders(x);
    Remainders(y);
    var a, b := x % 8, y % 8;
    assert PassOf(x, y) == PassOf(a, b);
    PatternCell(a, b);
  }

  lemma PatternCell(a: nat, b: nat)
    requires a < 8 && b < 8
    ensures PATTERN[b][a] == PassOf(a, b) + 1
  {
    if b == 0 || b == 4 {
      assert a == 0 || a == 1 || a == 2 || a == 3 || a == 4 || a == 5 || a == 6 || a == 7;
    } else if b == 2 || b == 6 {
      assert a == 0 || a == 1 || a == 2 || a == 3 || a == 4 || a == 5 || a == 6 || a == 7;
    } else {
      assert b == 1 || b == 3 || b == 5 || b == 7;
    }
  }

  /** Every pixel is written by exactly one position of exactly one pass. */
  lemma Partition(w: nat, h: nat, x: nat, y: nat, p: Pass, i: nat, j: nat)
    requires x < w && y < h
    ensures i < Columns(w, p) && j < Rows(h, p) && x == OutX(p, i) && y == OutY(p, j) <==>
            p == PassOf(x, y) && i == x / XStep(p) && j == y / YStep(p)
  {
    hide Columns, Rows, OutX, OutY, PassOf, XStep, YStep;
    SizesAreExact(w, h, p, i, j);
    if p == 0 { Pattern0(x, y, i, j); }
    else if p == 1 { Pattern1(x, y, i, j); }
    else if p == 2 { Pattern2(x, y, i, j); }
    else if p == 3 { Pattern3(x, y, i, j); }
    else if p == 4 { Pattern4(x, y, i, j); }
    else if p == 5 { Pattern5(x, y, i, j); }
    else { Pattern6(x, y, i, j); }
  }

  /** Remainders of 8 decide remainders of 4 and 2. */
  lemma Remainders(x: nat)
    ensures x % 4 == x % 8 % 4 && x % 2 == x % 8 % 2
  {
    var q, r := x / 8, x % 8;
    assert x == 2 * q * 4 + r && x == 4 * q * 2 + r;
    BitReverse.DivAdd(2 * q, r, 4);
    BitReverse.DivAdd(4 * q, r, 2);
  }

  lemma Multiple(x: nat, i: nat, s: nat, o: nat)
    requires s == 8 || s == 4 || s == 2
    requires o < s
    ensures x == i * s + o <==> x % s == o && i == x / s
  {
    if s == 8 { assert x == i * 8 + o <==> x % 8 == o && i == x / 8; }
    else if s == 4 { assert x == i * 4 + o <==> x % 4 == o && i == x / 4; }
    else { assert x == i * 2 + o <==> x % 2 == o && i == x / 2; }
  }

  lemma Pattern0(x: nat, y: nat, i: nat, j: nat)
    ensures x == OutX(0, i) && y == OutY(0, j) <==> PassOf(x, y) == 0 && i == x / XStep(0) && j == y / YStep(0)
  {
    Multiple(x, i, 8, 0);
    Multiple(y, j, 8, 0);
    PassByRemainder(x, y);
  }

  lemma Pattern1(x: nat, y: nat, i: nat, j: nat)
    ensures x == OutX(1, i) && y == OutY(1, j) <==> PassOf(x, y) == 1 && i == x / XStep(1) && j == y / YStep(1)
  {
    Multiple(x, i, 8, 4);
    Multiple(y, j, 8, 0);
    PassByRemainder(x, y);
  }

  lemma Pattern2(x: nat, y: nat, i: nat, j: nat)
    ensures x == OutX(2, i) && y == OutY(2, j) <==> PassOf(x, y) == 2 && i == x / XStep(2) && j == y / YStep(2)
  {
    Multiple(x, i, 4, 0);
    Multiple(y, j, 8, 4);
    PassByRemainder(x, y);
  }

  lemma Pattern3(x: nat, y: nat, i: nat, j: nat)
    ensures x == OutX(3, i) && y == OutY(3, j) <==> PassOf(x, y) == 3 && i == x / XStep(3) && j == y / YStep(3)
  {
    Multiple(x, i, 4, 2);
    Multiple(y, j, 4, 0);
    PassByRemainder(x, y);
  }

  lemma Pattern4(x: nat, y: nat, i: nat, j: nat)
    ensures x == OutX(4, i) && y == OutY(4, j) <==> PassOf(x, y) == 4 && i == x / XStep(4) && j == y / YStep(4)
  {
    Multiple(x, i, 2, 0);
    Multiple(y, j, 4, 2);
    PassByRemainder(x, y);
  }

  lemma Pattern5(x: nat, y: nat, i: nat, j: nat)
    ensures x == OutX(5, i) && y == OutY(5, j) <==> PassOf(x, y) == 5 && i == x / XStep(5) && j == y / YStep(5)
  {
    Multiple(x, i, 2, 1);
    Multiple(y, j, 2, 0);
    PassByRemainder(x, y);
  }

  lemma Pattern6(x: nat, y: nat, i: nat, j: nat)
    ensures x == OutX(6, i) && y == OutY(6, j) <==> PassOf(x, y) == 6 && i == x / XStep(6) && j == y / YStep(6)
  {
    Multiple(y, j, 2, 1);
  }

  /** Each pass in terms of the remainders its steps look at. */
  lemma PassByRemainder(x: nat, y: nat)
    ensures PassOf(x, y) == 0 <==> x % 8 == 0 && y % 8 == 0
    ensures PassOf(x, y) == 1 <==> x % 8 == 4 && y % 8 == 0
    ensures PassOf(x, y) == 2 <==> x % 4 == 0 && y % 8 == 4
    ensures PassOf(x, y) == 3 <==> x % 4 == 2 && y % 4 == 0
    ensures PassOf(x, y) == 4 <==> x % 2 == 0 && y % 4 == 2
    ensures PassOf(x, y) == 5 <==> x % 2 == 1 && y % 2 == 0
    ensures PassOf(x, y) == 6 <==> y % 2 == 1
  {
    Remainders(x);
    Remainders(y);
  }

  // ---------------------------------------------------------------- scattering

  /** The pixels of the seven reduced pictures, row by row. */
  type Passes = seq<seq<int>>

  ghost predicate PassesOk(passes: Passes, w: nat, h: nat) {
    |passes| == 7 && forall p: Pass {:trigger passes[p]} :: |passes[p]| == Columns(w, p) * Rows(h, p)
  }

  /** The pixel of the final picture at (x, y). */
  function Pixel(passes: Passes, w: nat, x: nat, y: nat): int {
    var p := PassOf(x, y);
    var k := At(Columns(w, p), x / XStep(p), y / YStep(p));
    if p < |passes| && k < |passes[p]| then passes[p][k] else 0
  }

  /** Pixels of the passes before `p`, and of the first `n` positions of pass `p`, are in place. */
  ghost predicate Placed(pic: seq<int>, passes: Passes, w: nat, h: nat, p: nat, n: nat) {
    && |pic| == w * h
    && forall x: nat, y: nat {:trigger At(w, x, y)} ::
         x < w && y < h && (PassOf(x, y) < p || (PassOf(x, y) == p && Position(w, x, y) < n)) ==>
           At(w, x, y) < |pic| && pic[At(w, x, y)] == Pixel(passes, w, x, y)
  }

  /** The index of (x, y) within its pass. */
  function Position(w: nat, x: nat, y: nat): nat {
    var p := PassOf(x, y);
    At(Columns(w, p), x / XStep(p), y / YStep(p))
  }

  lemma PlacedNext(pic: seq<int>, passes: Passes, w: nat, h: nat, p: Pass, i: nat, j: nat)
    requires PassesOk(passes, w, h) && i < Columns(w, p) && j < Rows(h, p)
    requires Placed(pic, passes, w, h, p, At(Columns(w, p), i, j))
    ensures At(Columns(w, p), i, j) < |passes[p]|
    ensures var x, y := OutX(p, i), OutY(p, j);
            && At(w, x, y) < |pic|
            && Placed(pic[At(w, x, y) := passes[p][At(Columns(w, p), i, j)]], passes, w, h, p, At(Columns(w, p), i, j) + 1)
  {
    PlaceFacts(passes, w, h, p, i, j);
    hide PassesOk, Columns, Rows, OutX, OutY, Position, Pixel, PassOf, At, Placed;
    var x, y, n := OutX(p, i), OutY(p, j), At(Columns(w, p), i, j);
    forall x': nat, y': nat | x' < w && y' < h && PassOf(x', y') == p && Position(w, x', y') == n ensures x' == x && y' == y {
      SamePosition(w, h, p, i, j, x', y');
    }
    PlacedSize(pic, passes, w, h, p, n);
    PlaceOne(pic, passes, w, h, p, n, x, y);
  }

  lemma PlacedSize(pic: seq<int>, passes: Passes, w: nat, h: nat, p: nat, n: nat)
    requires Placed(pic, passes, w, h, p, n)
    ensures |pic| == w * h
  {
  }

  lemma PlaceFacts(passes: Passes, w: nat, h: nat, p: Pass, i: nat, j: nat)
    requires PassesOk(passes, w, h) && i < Columns(w, p) && j < Rows(h, p)
    ensures var x, y, n := OutX(p, i), OutY(p, j), At(Columns(w, p), i, j);
            && x < w && y < h && At(w, x, y) < w * h && PassOf(x, y) == p && Position(w, x, y) == n
            && n < |passes[p]| && Pixel(passes, w, x, y) == passes[p][n]
  {
    var x, y := OutX(p, i), OutY(p, j);
    SizesAreExact(w, h, p, i, j);
    Partition(w, h, x, y, p, i, j);
    assert |passes[p]| == Columns(w, p) * Rows(h, p);
    hide PassesOk, Columns, Rows, OutX, OutY, PassOf;
    AtInRange(w, h, x, y);
    AtInRange(Columns(w, p), Rows(h, p), i, j);
    hide At;
  }

  /** Storing the pixel at position `n` of pass `p` extends what is in place by exactly it. */
  lemma PlaceOne(pic: seq<int>, passes: Passes, w: nat, h: nat, p: Pass, n: nat, x: nat, y: nat)
    requires Placed(pic, passes, w, h, p, n) && x < w && y < h && At(w, x, y) < |pic|
    requires PassOf(x, y) == p && Position(w, x, y) == n
    requires forall x': nat, y': nat {:trigger Position(w, x', y')} ::
               x' < w && y' < h && PassOf(x', y') == p && Position(w, x', y') == n ==> x' == x && y' == y
    ensures Placed(pic[At(w, x, y) := Pixel(passes, w, x, y)], passes, w, h, p, n + 1)
  {
    var now := pic[At(w, x, y) := Pixel(passes, w, x, y)];
    hide Position, Pixel, PassOf;
    forall x': nat, y': nat | x' < w && y' < h && (PassOf(x', y') < p || (PassOf(x', y') == p && Position(w, x', y') < n + 1))
      ensures At(w, x', y') < |now| && now[At(w, x', y')] == Pixel(passes, w, x', y')
    {
      AtInjective(w, x, y, x', y');
      hide At;
    }
  }

  /** Two pixels of a pass at the same position are the same pixel. */
  lemma SamePosition(w: nat, h: nat, p: Pass, i: nat, j: nat, x': nat, y': nat)
    requires i < Columns(w, p) && x' < w && y' < h && PassOf(x', y') == p
    requires Position(w, x', y') == At(Columns(w, p), i, j)
    ensures x' == OutX(p, i) && y' == OutY(p, j)
  {
    var i', j' := x' / XStep(p), y' / YStep(p);
    Partition(w, h, x', y', p, i', j');
    AtInjective(Columns(w, p), i, j, i', j');
  }

  /** Scatters the seven passes; every pixel of the picture ends up with its own value. */
  method Deinterlace(passes: Passes, w: nat, h: nat) returns (final: array<int>)
    requires PassesOk(passes, w, h)
    ensures final.Length == w * h
    ensures forall x: nat, y: nat {:trigger At(w, x, y)} :: x < w && y < h ==>
              At(w, x, y) < final.Length && final[At(w, x, y)] == Pixel(passes, w, x, y)
  {
    final := new int[w * h];
    assert Placed(final[..], passes, w, h, 0, 0);
    for p := 0 to 7
      invariant Placed(final[..], passes, w, h, p, 0)
    {
      ScatterPass(passes, w, h, p, final);
    }
    forall x: nat, y: nat | x < w && y < h ensures At(w, x, y) < final.Length && final[At(w, x, y)] == Pixel(passes, w, x, y) {
      assert final[..][At(w, x, y)] == Pixel(passes, w, x, y);
    }
  }

  method ScatterPass(passes: Passes, w: nat, h: nat, p: Pass, final: array<int>)
    requires PassesOk(passes, w, h) && Placed(final[..], passes, w, h, p, 0)
    modifies final
    ensures Placed(final[..], passes, w, h, p + 1, 0)
  {
    var x, y := Columns(w, p), Rows(h, p);
    assert |passes| == 7;
    hide Placed, PassesOk, Columns, Rows;
    for j := 0 to y
      invariant Placed(final[..], passes, w, h, p, At(x, 0, j))
    {
      for i := 0 to x
        invariant Placed(final[..], passes, w, h, p, At(x, i, j))
      {
        PlacedNext(final[..], passes, w, h, p, i, j);
        ghost var pic := final[..];
        var outY, outX := OutY(p, j), OutX(p, i);
        final[At(w, outX, outY)] := passes[p][At(x, i, j)];
        assert final[..] == pic[At(w, outX, outY) := passes[p][At(x, i, j)]];
      }
      assert At(x, x, j) == At(x, 0, j + 1);
    }
    PassDone(final[..], passes, w, h, p);
  }

  lemma PassDone(pic: seq<int>, passes: Passes, w: nat, h: nat, p: Pass)
    requires Placed(pic, passes, w, h, p, At(Columns(w, p), 0, Rows(h, p)))
    ensures Placed(pic, passes, w, h, p + 1, 0)
  {
    hide At, Position, PassOf, Pixel, Columns, Rows;
    forall x: nat, y: nat | x < w && y < h && PassOf(x, y) < p + 1
      ensures At(w, x, y) < |pic| && pic[At(w, x, y)] == Pixel(passes, w, x, y)
    {
      if PassOf(x, y) == p { PositionInPass(w, h, x, y); }
    }
  }

  lemma PositionInPass(w: nat, h: nat, x: nat, y: nat)
    requires x < w && y < h
    ensures var p := PassOf(x, y); Position(w, x, y) < At(Columns(w, p), 0, Rows(h, p))
  {
    var p := PassOf(x, y);
    Partition(w, h, x, y, p, x / XStep(p), y / YStep(p));
    hide Columns, Rows, PassOf;
    AtInRange(Columns(w, p), Rows(h, p), x / XStep(p), y / YStep(p));
  }
}
