/** Rectangles with 32-bit fields: clipping, intersection, bounding boxes. */
module Rects {
  import opened Basics

  const U32: nat := 0x1_0000_0000

  type Coord = c: int | -0x8000_0000 <= c < 0x8000_0000
  type Extent = e: int | 0 <= e < 0x1_0000_0000

  datatype Rect = Rect(x: Coord, y: Coord, width: Extent, height: Extent) {
    function Right(): int { x + width }
    function Bottom(): int { y + height }
    predicate Empty() { width == 0 || height == 0 }

    predicate Has(px: int, py: int) {
      x <= px < Right() && y <= py < Bottom()
    }
  }

  function Max(a: int, b: int): int { if a > b then a else b }
  function Min(a: int, b: int): int { if a < b then a else b }

  /** A stored extent keeps 32 bits. */
  function Cut(e: int): Extent { e % 0x1_0000_0000 }

  /** `a` lies inside `b`. */
  predicate Inside(a: Rect, b: Rect) {
    b.x <= a.x && a.Right() <= b.Right() && b.y <= a.y && a.Bottom() <= b.Bottom()
  }

  /** The part of `area` inside a buffer of the given size, if there is one. */
  function ClipToBuffer(width: Extent, height: Extent, area: Rect): (r: Option<Rect>)
    ensures r.Some? ==> forall px, py :: r.value.Has(px, py) <==> area.Has(px, py) && 0 <= px < width && 0 <= py < height
    ensures r.Some? ==> !r.value.Empty() && 0 <= r.value.x && r.value.Right() <= width && 0 <= r.value.y && r.value.Bottom() <= height
    ensures r.None? ==> forall px, py :: !(area.Has(px, py) && 0 <= px < width && 0 <= py < height)
  {
    var x0, y0 := Max(area.x, 0), Max(area.y, 0);
    var x1, y1 := Min(area.Right(), width), Min(area.Bottom(), height);
    if x1 <= x0 || y1 <= y0 then None
    else Some(Rect(x0, y0, Cut(x1 - x0), Cut(y1 - y0)))
  }

  /** The common part of two rectangles, if there is one. */
  function Intersect(a: Rect, b: Rect): (r: Option<Rect>)
    ensures r.Some? ==> forall px, py :: r.value.Has(px, py) <==> a.Has(px, py) && b.Has(px, py)
    ensures r.None? <==> forall px, py :: !(a.Has(px, py) && b.Has(px, py))
  {
    var x0, y0 := Max(a.x, b.x), Max(a.y, b.y);
    var x1, y1 := Min(a.Right(), b.Right()), Min(a.Bottom(), b.Bottom());
    if x1 <= x0 || y1 <= y0 then None
    else
      assert a.Has(x0, y0) && b.Has(x0, y0);
      Some(Rect(x0, y0, Cut(x1 - x0), Cut(y1 - y0)))
  }

  function Union(a: Rect, b: Rect): Rect {
    var x0, y0 := Min(a.x, b.x), Min(a.y, b.y);
    var x1, y1 := Max(a.Right(), b.Right()), Max(a.Bottom(), b.Bottom());
    Rect(x0, y0, Cut(x1 - x0), Cut(y1 - y0))
  }

  /** The spans of the bounding box fit 32 bits. */
  predicate SpansFit(a: Rect, b: Rect) {
    && Max(a.Right(), b.Right()) - Min(a.x, b.x) < 0x1_0000_0000
    && Max(a.Bottom(), b.Bottom()) - Min(a.y, b.y) < 0x1_0000_0000
  }

  /** The union covers both rectangles exactly when its spans fit: otherwise the stored extent wraps. */
  lemma UnionCoversIff(a: Rect, b: Rect)
    ensures SpansFit(a, b) <==> Inside(a, Union(a, b)) && Inside(b, Union(a, b))
  {
    var w := Max(a.Right(), b.Right()) - Min(a.x, b.x);
    var h := Max(a.Bottom(), b.Bottom()) - Min(a.y, b.y);
    CutIff(w);
    CutIff(h);
  }

  /** The stored extent differs from the span by whole wraps of 32 bits, by none exactly if the span fits. */
  lemma CutIff(e: int)
    requires 0 <= e
    ensures Cut(e) <= e && (Cut(e) == e <==> e < 0x1_0000_0000)
    ensures (e - Cut(e)) % 0x1_0000_0000 == 0
  {
  }

  /** A fitting union is the least rectangle around both. */
  lemma UnionIsLeast(a: Rect, b: Rect, c: Rect)
    requires SpansFit(a, b) && Inside(a, c) && Inside(b, c)
    ensures Inside(Union(a, b), c)
  {
  }

  /** Two marks at opposite ends of the coordinate range: their union loses the right one. */
  lemma UnionCanLosePixels()
    ensures var a, b := Rect(-0x8000_0000, 0, 1, 1), Rect(0x7FFF_FFFF, 0, 1, 1);
            b.Has(0x7FFF_FFFF, 0) && !Union(a, b).Has(0x7FFF_FFFF, 0)
  {
  }

  // ------------------------------------------------------------ dirty regions

  const MAX_DIRTY: nat := 64

  /** Any two marks fit one bounding box. */
  ghost predicate AllFit(marks: seq<Rect>) {
    forall i, j {:trigger marks[i], marks[j]} :: 0 <= i < |marks| && 0 <= j < |marks| ==> SpansFit(marks[i], marks[j])
  }

  /** Every side of `box` is a side of some mark. */
  ghost predicate Tight(box: Rect, marks: seq<Rect>) {
    && (exists m :: m in marks && m.x == box.x)
    && (exists m :: m in marks && m.y == box.y)
    && (exists m :: m in marks && m.Right() == box.Right())
    && (exists m :: m in marks && m.Bottom() == box.Bottom())
  }

  lemma TightFit(a: Rect, b: Rect, marks: seq<Rect>)
    requires Tight(a, marks) && Tight(b, marks) && AllFit(marks)
    ensures SpansFit(a, b) && Tight(Union(a, b), marks)
    ensures Inside(a, Union(a, b)) && Inside(b, Union(a, b))
  {
    forall p, q | p in marks && q in marks ensures SpansFit(p, q) { FitPair(marks, p, q); }
    hide Tight, AllFit, Inside, Union;
    SpanX(a, b, marks);
    SpanY(a, b, marks);
    UnionCoversIff(a, b);
    UnionTight(a, b, marks);
  }

  lemma FitPair(marks: seq<Rect>, p: Rect, q: Rect)
    requires AllFit(marks) && p in marks && q in marks
    ensures SpansFit(p, q)
  {
    hide SpansFit;
    var i :| 0 <= i < |marks| && marks[i] == p;
    var j :| 0 <= j < |marks| && marks[j] == q;
    assert SpansFit(marks[i], marks[j]);
  }

  lemma SpanX(a: Rect, b: Rect, marks: seq<Rect>)
    requires Tight(a, marks) && Tight(b, marks)
    requires forall p, q :: p in marks && q in marks ==> SpansFit(p, q)
    ensures Max(a.Right(), b.Right()) - Min(a.x, b.x) < 0x1_0000_0000
  {
    var l := if a.x < b.x then a else b;
    var r := if a.Right() > b.Right() then a else b;
    var p :| p in marks && p.x == l.x;
    var q :| q in marks && q.Right() == r.Right();
    assert SpansFit(p, q);
  }

  lemma SpanY(a: Rect, b: Rect, marks: seq<Rect>)
    requires Tight(a, marks) && Tight(b, marks)
    requires forall p, q :: p in marks && q in marks ==> SpansFit(p, q)
    ensures Max(a.Bottom(), b.Bottom()) - Min(a.y, b.y) < 0x1_0000_0000
  {
    var l := if a.y < b.y then a else b;
    var r := if a.Bottom() > b.Bottom() then a else b;
    var p :| p in marks && p.y == l.y;
    var q :| q in marks && q.Bottom() == r.Bottom();
    assert SpansFit(p, q);
  }

  lemma UnionTight(a: Rect, b: Rect, marks: seq<Rect>)
    requires Tight(a, marks) && Tight(b, marks) && SpansFit(a, b)
    ensures Tight(Union(a, b), marks)
  {
    var u := Union(a, b);
    var l := if a.x < b.x then a else b;
    var r := if a.Right() > b.Right() then a else b;
    var t := if a.y < b.y then a else b;
    var d := if a.Bottom() > b.Bottom() then a else b;
    assert u.x == l.x && u.Right() == r.Right() && u.y == t.y && u.Bottom() == d.Bottom();
  }

  lemma InsideTransitive(a: Rect, b: Rect, c: Rect)
    requires Inside(a, b) && Inside(b, c)
    ensures Inside(a, c)
  {
  }

  lemma TightMore(g: Rect, marks: seq<Rect>, r: Rect)
    requires Tight(g, marks)
    ensures Tight(g, marks + [r]) && Tight(r, marks + [r])
  {
    assert r in marks + [r];
  }

  lemma FitLess(marks: seq<Rect>, r: Rect)
    requires AllFit(marks + [r])
    ensures AllFit(marks)
  {
    hide SpansFit;
    forall i, j | 0 <= i < |marks| && 0 <= j < |marks| ensures SpansFit(marks[i], marks[j]) {
      assert (marks + [r])[i] == marks[i] && (marks + [r])[j] == marks[j];
    }
  }

  /** The box of a full list: one union after another, in the order of the marks. */
  function Box(marks: seq<Rect>): Rect
    requires marks != []
  {
    if |marks| == 1 then marks[0] else Union(Box(marks[..|marks| - 1]), marks[|marks| - 1])
  }

  lemma BoxSnoc(marks: seq<Rect>, r: Rect)
    requires marks != []
    ensures Box(marks + [r]) == Union(Box(marks), r)
  {
    assert (marks + [r])[..|marks|] == marks;
  }

  ghost predicate AllInside(marks: seq<Rect>, box: Rect) {
    forall m :: m in marks ==> Inside(m, box)
  }

  /** Fitting marks all lie inside their box, which they span. */
  lemma {:induction false} BoxIsAround(marks: seq<Rect>)
    requires marks != [] && AllFit(marks)
    ensures Tight(Box(marks), marks) && AllInside(marks, Box(marks))
    decreases |marks|
  {
    hide Inside, Tight, AllFit, Union, Box;
    if |marks| == 1 {
      BoxOfOne(marks);
    } else {
      var rest, r := marks[..|marks| - 1], marks[|marks| - 1];
      assert marks == rest + [r];
      FitLess(rest, r);
      BoxIsAround(rest);
      TightMore(Box(rest), rest, r);
      TightFit(Box(rest), r, marks);
      BoxSnoc(rest, r);
      forall m | m in marks ensures Inside(m, Box(marks)) {
        if m in rest { InsideTransitive(m, Box(rest), Box(marks)); }
      }
    }
  }

  lemma BoxOfOne(marks: seq<Rect>)
    requires |marks| == 1
    ensures Box(marks) == marks[0] && Tight(marks[0], marks) && AllInside(marks, marks[0])
  {
    assert marks[0] in marks;
  }

  /** Marks inside one storable rectangle fit. */
  lemma InOneBoxFits(marks: seq<Rect>, box: Rect)
    requires AllInside(marks, box)
    ensures AllFit(marks)
  {
    forall i, j | 0 <= i < |marks| && 0 <= j < |marks| ensures SpansFit(marks[i], marks[j]) {
      assert Inside(marks[i], box) && Inside(marks[j], box);
    }
  }

  /** What the list holds after those marks: the marks, or one box once they are more than it has room for. */
  function Listed(marks: seq<Rect>): seq<Rect> {
    if |marks| <= MAX_DIRTY then marks else [Box(marks)]
  }

  ghost predicate Covered(r: Rect, regions: seq<Rect>) {
    exists g :: g in regions && Inside(r, g)
  }

  /** Every mark is covered exactly when the list never collapsed or all marks fit one 32-bit box. */
  lemma ListCoversIff(marks: seq<Rect>)
    ensures (forall m :: m in marks ==> Covered(m, Listed(marks))) <==> |marks| <= 64 || AllFit(marks)
  {
    hide AllFit, Box, Tight;
    if |marks| <= MAX_DIRTY {
      forall m | m in marks ensures Covered(m, Listed(marks)) { assert Inside(m, m); }
    } else {
      if AllFit(marks) {
        BoxIsAround(marks);
        forall m | m in marks ensures Covered(m, Listed(marks)) { assert Box(marks) in Listed(marks); }
      }
      if forall m :: m in marks ==> Covered(m, Listed(marks)) {
        forall m | m in marks ensures Inside(m, Box(marks)) { assert Covered(m, Listed(marks)); }
        InOneBoxFits(marks, Box(marks));
      }
    }
  }

  ghost predicate PixelListed(regions: seq<Rect>, px: int, py: int) {
    exists g :: g in regions && g.Has(px, py)
  }

  /** No marked pixel is missing from the list. */
  ghost predicate AllPixelsListed(marks: seq<Rect>, regions: seq<Rect>) {
    forall m, px, py {:trigger m.Has(px, py)} :: m in marks && m.Has(px, py) ==> PixelListed(regions, px, py)
  }

  /** For rectangles that have pixels the same condition decides whether one is lost. */
  lemma PixelsListedIff(marks: seq<Rect>)
    requires forall m :: m in marks ==> !m.Empty()
    ensures AllPixelsListed(marks, Listed(marks)) <==> |marks| <= 64 || AllFit(marks)
  {
    hide AllFit, Box, Inside, AllPixelsListed, Covered;
    ListCoversIff(marks);
    if |marks| <= MAX_DIRTY || AllFit(marks) {
      CoveredPixels(marks, Listed(marks));
    } else if AllPixelsListed(marks, Listed(marks)) {
      forall m | m in marks ensures Inside(m, Box(marks)) { CornersInside(m, Box(marks), marks); }
      InOneBoxFits(marks, Box(marks));
    }
  }

  lemma CoveredPixels(marks: seq<Rect>, regions: seq<Rect>)
    requires forall m :: m in marks ==> Covered(m, regions)
    ensures AllPixelsListed(marks, regions)
  {
    forall m, px, py | m in marks && m.Has(px, py) ensures PixelListed(regions, px, py) {
      assert Covered(m, regions);
      var g :| g in regions && Inside(m, g);
      assert g.Has(px, py);
    }
  }

  lemma CornersInside(m: Rect, box: Rect, marks: seq<Rect>)
    requires m in marks && !m.Empty() && AllPixelsListed(marks, [box])
    ensures Inside(m, box)
  {
    assert m.Has(m.x, m.y) && m.Has(m.Right() - 1, m.Bottom() - 1);
    assert PixelListed([box], m.x, m.y) && PixelListed([box], m.Right() - 1, m.Bottom() - 1);
  }

  class DirtyRegionList {
    const regions: array<Rect>
    var count: nat
    var collapsed: bool
    /** The non-empty rectangles marked since the last clear. */
    ghost var marks: seq<Rect>

    constructor ()
      ensures Valid() && fresh(regions) && marks == []
    {
      regions := new Rect[MAX_DIRTY](_ => Rect(0, 0, 0, 0));
      count, collapsed, marks := 0, false, [];
    }

    ghost predicate Valid()
      reads this, regions
    {
      && regions.Length == MAX_DIRTY && count <= MAX_DIRTY
      && regions[..count] == Listed(marks) && (collapsed <==> |marks| > MAX_DIRTY)
    }

    method Clear()
      requires Valid()
      modifies this`count, this`collapsed, this`marks
      ensures Valid() && marks == [] && count == 0
    {
      count, collapsed, marks := 0, false, [];
    }

    /** The box around the listed regions and `r`. */
    method BoundingBox(r: Rect) returns (box: Rect)
      requires Valid() && count > 0
      ensures box == Box(regions[..count] + [r])
    {
      hide Union, Box;
      box := regions[0];
      var i := 1;
      BoxOfOne(regions[..1]);
      while i < count
        invariant 1 <= i <= count && box == Box(regions[..i])
      {
        BoxSnoc(regions[..i], regions[i]);
        assert regions[..i] + [regions[i]] == regions[..i + 1];
        box := Union(box, regions[i]);
        i := i + 1;
      }
      BoxSnoc(regions[..count], r);
      box := Union(box, r);
    }

    /** Lists the rectangle; a full list collapses to one bounding box, which then only grows. */
    method Mark(r: Rect)
      requires Valid()
      modifies this, regions
      ensures Valid()
      ensures marks == if r.Empty() then old(marks) else old(marks) + [r]
      ensures |marks| <= 64 ==> regions[..count] == marks
    {
      hide Union, Box;
      if r.width == 0 || r.height == 0 { return; }
      if collapsed {
        assert regions[..1][0] == regions[0];
        BoxSnoc(marks, r);
        Replace(r, Union(regions[0], r));
      } else if count >= MAX_DIRTY {
        var box := BoundingBox(r);
        Replace(r, box);
      } else {
        ghost var listed := regions[..count];
        regions[count] := r;
        count, marks := count + 1, marks + [r];
        assert regions[..count] == listed + [r];
      }
    }

    /** The list becomes one box. */
    method Replace(r: Rect, box: Rect)
      requires regions.Length == MAX_DIRTY && |marks| >= MAX_DIRTY && box == Box(marks + [r])
      modifies this, regions
      ensures Valid() && marks == old(marks) + [r]
    {
      hide Box;
      regions[0] := box;
      count, collapsed, marks := 1, true, marks + [r];
      assert regions[..count] == [box];
    }
  }

  lemma UnionSelf(a: Rect)
    ensures Union(a, a) == a
  {
  }

  const LEFTMOST := Rect(-0x8000_0000, 0, 1, 1)
  const RIGHTMOST := Rect(0x7FFF_FFFF, 0, 1, 1)

  lemma {:induction false} BoxOfEqual(marks: seq<Rect>, a: Rect)
    requires marks != [] && forall i {:trigger marks[i]} :: 0 <= i < |marks| ==> marks[i] == a
    ensures Box(marks) == a
    decreases |marks|
  {
    UnionSelf(a);
    hide Union;
    if |marks| > 1 { BoxOfEqual(marks[..|marks| - 1], a); }
  }

  lemma LastIsLost(marks: seq<Rect>)
    requires |marks| == 64 && forall i {:trigger marks[i]} :: 0 <= i < |marks| ==> marks[i] == LEFTMOST
    ensures !PixelListed(Listed(marks + [RIGHTMOST]), 0x7FFF_FFFF, 0)
  {
    BoxOfEqual(marks, LEFTMOST);
    BoxSnoc(marks, RIGHTMOST);
    hide Box;
    UnionCanLosePixels();
  }

  /** Sixty-four marks at one end of the coordinate range and one at the other: the last pixel is not listed. */
  method LoseOnePixel() returns (list: DirtyRegionList)
    ensures list.Valid() && |list.marks| == 65 && fresh(list) && fresh(list.regions)
    ensures list.marks[64].Has(0x7FFF_FFFF, 0) && !PixelListed(list.regions[..list.count], 0x7FFF_FFFF, 0)
  {
    hide Listed, PixelListed;
    list := new DirtyRegionList();
    for k := 0 to 64
      invariant list.Valid() && fresh(list) && fresh(list.regions) && |list.marks| == k
      invariant forall i {:trigger list.marks[i]} :: 0 <= i < k ==> list.marks[i] == LEFTMOST
    {
      list.Mark(LEFTMOST);
    }
    LastIsLost(list.marks);
    list.Mark(RIGHTMOST);
  }
}
