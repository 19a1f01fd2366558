/** Pixel buffers: clipped fills and the clip-once row copy of a scrolled viewport. */
module Display {
  import opened Basics
  import opened Rects
  import opened Grid

  newtype Color = c: int | 0 <= c < 0x1_0000_0000

  /** What a rectangle of a picture should show at each pixel. */
  type Picture = (nat, nat) -> Color

  /**
    `now` is `was` with the `w` by `h` rectangle at (x, y) showing `pic`; every other
    pixel, padding included, is unchanged.
   */
  ghost predicate Drawn(was: seq<Color>, now: seq<Color>, stride: nat, x: nat, y: nat, w: nat, h: nat, pic: Picture) {
    && |now| == |was|
    && forall px: nat, py: nat {:trigger At(stride, px, py)} :: px < stride && At(stride, px, py) < |was| ==>
         now[At(stride, px, py)] == if x <= px < x + w && y <= py < y + h then pic(px, py) else was[At(stride, px, py)]
  }

  lemma DrawnNothing(was: seq<Color>, stride: nat, x: nat, y: nat, w: nat, h: nat, pic: Picture)
    requires w == 0 || h == 0
    ensures Drawn(was, was, stride, x, y, w, h, pic)
  {
  }

  /** One pixel more of a row. */
  lemma DrawPixel(was: seq<Color>, now: seq<Color>, stride: nat, x: nat, y: nat, n: nat, pic: Picture)
    requires Drawn(was, now, stride, x, y, n, 1, pic) && x + n < stride && At(stride, x + n, y) < |was|
    ensures Drawn(was, now[At(stride, x + n, y) := pic(x + n, y)], stride, x, y, n + 1, 1, pic)
  {
    var k := At(stride, x + n, y);
    var then_ := now[k := pic(x + n, y)];
    forall px: nat, py: nat | px < stride && At(stride, px, py) < |was|
      ensures then_[At(stride, px, py)] == if x <= px < x + n + 1 && y <= py < y + 1 then pic(px, py) else was[At(stride, px, py)]
    {
      AtInjective(stride, px, py, x + n, y);
      hide At;
    }
  }

  /** One row more of a rectangle. */
  lemma DrawRow(was: seq<Color>, now: seq<Color>, then_: seq<Color>, stride: nat, x: nat, y: nat, w: nat, h: nat, pic: Picture)
    requires Drawn(was, now, stride, x, y, w, h, pic) && Drawn(now, then_, stride, x, y + h, w, 1, pic)
    ensures Drawn(was, then_, stride, x, y, w, h + 1, pic)
  {
    hide At;
  }

  class DisplayBuffer {
    const width: Extent
    const height: Extent
    const stride: Extent
    const pixels: array<Color>
    var dirty: DirtyRegionList?

    constructor (width: Extent, height: Extent, stride: Extent, pixels: array<Color>)
      ensures this.width == width && this.height == height && this.stride == stride && this.pixels == pixels && dirty == null
    {
      this.width, this.height, this.stride, this.pixels, dirty := width, height, stride, pixels, null;
    }

    /** Rows are at least as long as the picture is wide and all of them are there. */
    ghost predicate Valid()
      reads this
    {
      width <= stride && stride * height <= pixels.Length
    }

    /** `memcpy`, or a run of stores, along one row. */
    method PutRow(x: nat, y: nat, w: nat, ghost pic: Picture, line: seq<Color>)
      requires Valid() && x + w <= width && y < height && |line| == w
      requires forall k {:trigger line[k]} :: 0 <= k < w ==> line[k] == pic(x + k, y)
      modifies pixels
      ensures Drawn(old(pixels[..]), pixels[..], stride, x, y, w, 1, pic)
    {
      ghost var was := pixels[..];
      DrawnNothing(was, stride, x, y, 0, 1, pic);
      hide Drawn;
      var k := 0;
      while k < w
        invariant 0 <= k <= w && Drawn(was, pixels[..], stride, x, y, k, 1, pic)
      {
        AtInRange(stride, height, x + k, y);
        DrawPixel(was, pixels[..], stride, x, y, k, pic);
        ghost var now := pixels[..];
        pixels[At(stride, x + k, y)] := line[k];
        assert pixels[..] == now[At(stride, x + k, y) := pic(x + k, y)];
        k := k + 1;
      }
    }

    /** Fills the part of `area` inside the buffer and marks it dirty. */
    method FillRect(area: Rect, color: Color)
      requires Valid()
      requires dirty != null ==> dirty.Valid() && dirty.regions as object != pixels as object
      modifies pixels, if dirty == null then {} else {dirty, dirty.regions}
      ensures var clip := ClipToBuffer(width, height, area);
              if clip.None? then pixels[..] == old(pixels[..])
              else Painted(old(pixels[..]), pixels[..], stride, clip.value.x, clip.value.y, clip.value.width, clip.value.height, color)
      ensures RowsInReach(ClipToBuffer(width, height, area), stride) ==>
                Filled(old(pixels[..]), pixels[..], stride, width, height, area, color)
      ensures dirty != null ==> dirty.Valid() && dirty.marks == MarksAfter(old(dirty.marks), ClipToBuffer(width, height, area))
    {
      hide Filled, ClipToBuffer, Painted, RowsInReach;
      var clip := ClipToBuffer(width, height, area);
      ghost var was := pixels[..];
      if clip.None? {
        FilledNothing(was, stride, width, height, area, color);
        return;
      }
      ClipIsInside(width, height, area);
      FillClipped(clip.value, color);
      if RowsInReach(clip, stride) {
        PaintedIsFilled(was, pixels[..], stride, width, height, area, color, clip.value);
      }
      if dirty != null { dirty.Mark(clip.value); }
    }

    method FillClipped(a: Rect, color: Color)
      requires Valid() && 0 <= a.x && a.Right() <= width && 0 <= a.y && a.Bottom() <= height
      modifies pixels
      ensures Painted(old(pixels[..]), pixels[..], stride, a.x, a.y, a.width, a.height, color)
    {
      ghost var was := pixels[..];
      assert Painted(was, pixels[..], stride, a.x, a.y, a.width, 0, color);
      hide Painted, RowPainted, RowStart;
      var row := 0;
      while row < a.height
        invariant 0 <= row <= a.height && Painted(was, pixels[..], stride, a.x, a.y, a.width, row, color)
      {
        ghost var now := pixels[..];
        FillRow(a.x, a.y + row, a.width, color);
        PaintRow(was, now, pixels[..], stride, a.x, a.y, a.width, row, color);
        row := row + 1;
      }
    }

    /** One row of a fill; the offset of the row is computed in 32 bits. */
    method FillRow(x: nat, y: nat, w: nat, color: Color)
      requires Valid() && x + w <= width && y < height
      modifies pixels
      ensures RowPainted(old(pixels[..]), pixels[..], RowStart(stride, y) + x, w, color)
    {
      ghost var was := pixels[..];
      var line := y * stride % U32 + x;
      RowInBuffer(stride, height, x, y, w);
      var col := 0;
      while col < w
        invariant 0 <= col <= w && RowPainted(was, pixels[..], line, col, color)
      {
        pixels[line + col] := color;
        col := col + 1;
      }
    }
  }

  /** Offset of a row as the 32-bit product gives it. */
  function RowStart(stride: nat, y: nat): nat { y * stride % U32 }

  lemma RowInBuffer(stride: nat, height: nat, x: nat, y: nat, w: nat)
    requires x + w <= stride && y < height
    ensures RowStart(stride, y) <= y * stride && RowStart(stride, y) + x + w <= stride * height
  {
    ModIsLess(y * stride);
    RowGap(stride, y, height);
  }

  lemma ModIsLess(n: nat)
    ensures n % U32 <= n && (n % U32 == n <==> n < U32)
  {
  }

  /** `w` pixels from `start` on have the colour, all others are as before. */
  ghost predicate RowPainted(was: seq<Color>, now: seq<Color>, start: nat, w: nat, color: Color) {
    |now| == |was| && forall i {:trigger now[i]} :: 0 <= i < |was| ==> now[i] == if start <= i < start + w then color else was[i]
  }

  predicate InRow(stride: nat, x: nat, y: nat, w: nat, i: nat) {
    RowStart(stride, y) + x <= i < RowStart(stride, y) + x + w
  }

  /** Position `i` is written for one of the rows. */
  ghost predicate Hit(stride: nat, x: nat, y: nat, w: nat, h: nat, i: nat) {
    exists r: nat :: y <= r < y + h && InRow(stride, x, r, w, i)
  }

  /** Exactly the positions the rows' offsets lead to have the colour. */
  ghost predicate Painted(was: seq<Color>, now: seq<Color>, stride: nat, x: nat, y: nat, w: nat, h: nat, color: Color) {
    |now| == |was| && forall i: nat {:trigger now[i]} :: i < |was| ==> now[i] == if Hit(stride, x, y, w, h, i) then color else was[i]
  }

  lemma HitMore(stride: nat, x: nat, y: nat, w: nat, h: nat, i: nat)
    ensures Hit(stride, x, y, w, h + 1, i) <==> Hit(stride, x, y, w, h, i) || InRow(stride, x, y + h, w, i)
  {
    hide InRow;
  }

  lemma PaintRow(was: seq<Color>, now: seq<Color>, then_: seq<Color>, stride: nat, x: nat, y: nat, w: nat, h: nat, color: Color)
    requires Painted(was, now, stride, x, y, w, h, color) && RowPainted(now, then_, RowStart(stride, y + h) + x, w, color)
    ensures Painted(was, then_, stride, x, y, w, h + 1, color)
  {
    hide Hit, RowStart;
    forall i: nat | i < |was| ensures then_[i] == if Hit(stride, x, y, w, h + 1, i) then color else was[i] {
      HitMore(stride, x, y, w, h, i);
      assert then_[i] == if InRow(stride, x, y + h, w, i) then color else now[i];
    }
  }

  /** The offset of every row of the clipped area fits 32 bits. */
  ghost predicate RowsInReach(clip: Option<Rect>, stride: nat) {
    clip.Some? ==> (clip.value.Bottom() - 1) * stride < 0x1_0000_0000
  }

  /** An offset within a row of the rectangle belongs to one pixel only. */
  lemma RowOf(stride: nat, px: nat, py: nat, x: nat, w: nat, r: nat)
    requires px < stride && x + w <= stride
    ensures r * stride + x <= At(stride, px, py) < r * stride + x + w <==> py == r && x <= px < x + w
  {
    if py < r { RowGap(stride, py, r); }
    if r < py { RowGap(stride, r, py); }
  }

  lemma RowFits(stride: nat, last: nat, r: nat)
    requires r <= last && last * stride < U32
    ensures RowStart(stride, r) == r * stride
  {
    if r < last { RowGap(stride, r, last); }
    ModIsLess(r * stride);
  }

  lemma HitIsInside(stride: nat, x: nat, y: nat, w: nat, h: nat, px: nat, py: nat)
    requires px < stride && x + w <= stride && h > 0 && (y + h - 1) * stride < U32
    ensures Hit(stride, x, y, w, h, At(stride, px, py)) <==> x <= px < x + w && y <= py < y + h
  {
    hide RowStart, At;
    var i, last := At(stride, px, py), y + h - 1;
    if Hit(stride, x, y, w, h, i) {
      var r: nat :| y <= r < y + h && InRow(stride, x, r, w, i);
      RowFits(stride, last, r);
      RowOf(stride, px, py, x, w, r);
    }
    if x <= px < x + w && y <= py < y + h {
      RowFits(stride, last, py);
      RowOf(stride, px, py, x, w, py);
      assert InRow(stride, x, py, w, i);
    }
  }

  lemma PaintedIsFilled(was: seq<Color>, now: seq<Color>, stride: nat, width: Extent, height: Extent, area: Rect, color: Color, a: Rect)
    requires ClipToBuffer(width, height, area) == Some(a) && RowsInReach(Some(a), stride) && width <= stride
    requires Painted(was, now, stride, a.x, a.y, a.width, a.height, color)
    ensures Filled(was, now, stride, width, height, area, color)
  {
    ClipIsInside(width, height, area);
    hide At, Hit, ClipToBuffer;
    forall px: nat, py: nat | px < stride && At(stride, px, py) < |was|
      ensures now[At(stride, px, py)] == if px < width && py < height && area.Has(px, py) then color else was[At(stride, px, py)]
    {
      HitIsInside(stride, a.x, a.y, a.width, a.height, px, py);
      assert a.Has(px, py) <==> area.Has(px, py) && 0 <= px < width && 0 <= py < height;
    }
  }

  lemma ClipIsInside(width: Extent, height: Extent, area: Rect)
    requires ClipToBuffer(width, height, area).Some?
    ensures var a := ClipToBuffer(width, height, area).value;
            && !a.Empty() && 0 <= a.x && a.Right() <= width && 0 <= a.y && a.Bottom() <= height
            && forall px, py {:trigger a.Has(px, py)} :: a.Has(px, py) <==> area.Has(px, py) && 0 <= px < width && 0 <= py < height
  {
  }

  /** No row's offset leads behind the last pixel of the last row; if that row's offset wraps, the pixel is missed. */
  lemma LastPixelMissed(stride: nat, x: nat, y: nat, w: nat, h: nat)
    requires w > 0 && h > 0 && (y + h - 1) * stride >= U32
    ensures !Hit(stride, x, y, w, h, At(stride, x + w - 1, y + h - 1))
  {
    var i := At(stride, x + w - 1, y + h - 1);
    assert i == (y + h - 1) * stride + x + w - 1;
    forall r: nat | y <= r < y + h ensures !InRow(stride, x, r, w, i) { }
  }

  /** A fill that has something to change fills its area exactly when every row's offset fits 32 bits. */
  lemma FilledIff(was: seq<Color>, now: seq<Color>, stride: nat, width: Extent, height: Extent, area: Rect, color: Color, a: Rect)
    requires ClipToBuffer(width, height, area) == Some(a) && width <= stride && stride * height <= |was|
    requires Painted(was, now, stride, a.x, a.y, a.width, a.height, color)
    requires At(stride, a.Right() - 1, a.Bottom() - 1) < |was| && was[At(stride, a.Right() - 1, a.Bottom() - 1)] != color
    ensures Filled(was, now, stride, width, height, area, color) <==> RowsInReach(Some(a), stride)
  {
    ClipIsInside(width, height, area);
    hide At, Hit, ClipToBuffer;
    if RowsInReach(Some(a), stride) {
      PaintedIsFilled(was, now, stride, width, height, area, color, a);
    } else {
      LastPixelMissed(stride, a.x, a.y, a.width, a.height);
      assert a.Has(a.Right() - 1, a.Bottom() - 1);
    }
  }

  /** With 65536 pixels to a row, row 65536 is painted over row 0. */
  lemma WrappedRow(x: nat, w: nat, i: nat)
    ensures InRow(65536, x, 65536, w, i) <==> InRow(65536, x, 0, w, i)
  {
  }

  function MarksAfter(marks: seq<Rect>, clip: Option<Rect>): seq<Rect> {
    if clip.Some? then marks + [clip.value] else marks
  }

  /** Per-pixel meaning of a fill: pixels of the buffer inside `area` take the colour, no other changes. */
  ghost predicate Filled(was: seq<Color>, now: seq<Color>, stride: nat, width: nat, height: nat, area: Rect, color: Color) {
    && |now| == |was|
    && forall px: nat, py: nat {:trigger At(stride, px, py)} :: px < stride && At(stride, px, py) < |was| ==>
         now[At(stride, px, py)] == if px < width && py < height && area.Has(px, py) then color else was[At(stride, px, py)]
  }

  lemma FilledNothing(was: seq<Color>, stride: nat, width: Extent, height: Extent, area: Rect, color: Color)
    requires ClipToBuffer(width, height, area).None?
    ensures Filled(was, was, stride, width, height, area, color)
  {
  }

  // ---------------------------------------------------------------- viewports

  /** Where on the target a scrolled part of a source is shown. */
  datatype Viewport = Viewport(bounds: Rect, scrollX: Coord, scrollY: Coord)

  /** Target pixel (px, py) shows a source pixel: it is on the target, in the bounds, and the source has it. */
  predicate Visible(vp: Viewport, sw: nat, sh: nat, tw: nat, th: nat, px: nat, py: nat) {
    && px < tw && py < th && vp.bounds.Has(px, py)
    && 0 <= vp.scrollX + (px - vp.bounds.x) < sw && 0 <= vp.scrollY + (py - vp.bounds.y) < sh
  }

  /** The source pixel shown at target pixel (px, py). */
  function Shown(vp: Viewport, src: seq<Color>, sstride: nat, px: nat, py: nat): Color {
    var sx, sy := vp.scrollX + (px - vp.bounds.x), vp.scrollY + (py - vp.bounds.y);
    if sx >= 0 && sy >= 0 && At(sstride, sx, sy) < |src| then src[At(sstride, sx, sy)] else 0
  }

  function PicOf(vp: Viewport, src: seq<Color>, sstride: nat): Picture {
    (px: nat, py: nat) => Shown(vp, src, sstride, px, py)
  }

  /** Per-pixel meaning of a render. */
  ghost predicate Rendered(was: seq<Color>, now: seq<Color>, stride: nat, tw: nat, th: nat,
                           vp: Viewport, src: seq<Color>, sstride: nat, sw: nat, sh: nat)
  {
    && |now| == |was|
    && forall px: nat, py: nat {:trigger At(stride, px, py)} :: px < stride && At(stride, px, py) < |was| ==>
         now[At(stride, px, py)] ==
         if Visible(vp, sw, sh, tw, th, px, py) then Shown(vp, src, sstride, px, py) else was[At(stride, px, py)]
  }

  /** The clipped range of one axis: `n` positions from 0, shifted by `scroll` in the source and by `origin` on the target. */
  function Low(scroll: Coord, origin: Coord): int { Max(Max(0, 0 - scroll), 0 - origin) }

  function High(n: Extent, scroll: Coord, origin: Coord, size: Extent, room: Extent): int {
    Min(Min(n, size - scroll), room - origin)
  }

  lemma RangeIsVisible(n: Extent, scroll: Coord, origin: Coord, size: Extent, room: Extent, k: int)
    ensures Low(scroll, origin) <= k < High(n, scroll, origin, size, room) <==>
            0 <= k < n && 0 <= scroll + k < size && 0 <= origin + k < room
  {
  }

  /** Copies the visible part of the source row by row. */
  method Render(vp: Viewport, src: DisplayBuffer?, target: DisplayBuffer)
    requires target.Valid() && (src != null ==> src.Valid() && src.pixels != target.pixels)
    modifies target.pixels
    ensures src == null ==> target.pixels[..] == old(target.pixels[..])
    ensures src != null ==> Rendered(old(target.pixels[..]), target.pixels[..], target.stride, target.width, target.height,
                                     vp, src.pixels[..], src.stride, src.width, src.height)
  {
    if src == null { return; }
    var c0 := Low(vp.scrollX, vp.bounds.x);
    var c1 := High(vp.bounds.width, vp.scrollX, vp.bounds.x, src.width, target.width);
    var r0 := Low(vp.scrollY, vp.bounds.y);
    var r1 := High(vp.bounds.height, vp.scrollY, vp.bounds.y, src.height, target.height);
    ghost var was, s := target.pixels[..], src.pixels[..];
    if c1 <= c0 || r1 <= r0 {
      RenderedNothing(was, target.stride, target.width, target.height, vp, s, src.stride, src.width, src.height);
      return;
    }
    RangeIsVisible(vp.bounds.width, vp.scrollX, vp.bounds.x, src.width, target.width, c0);
    RangeIsVisible(vp.bounds.width, vp.scrollX, vp.bounds.x, src.width, target.width, c1 - 1);
    RangeIsVisible(vp.bounds.height, vp.scrollY, vp.bounds.y, src.height, target.height, r0);
    RangeIsVisible(vp.bounds.height, vp.scrollY, vp.bounds.y, src.height, target.height, r1 - 1);
    hide Drawn, Rendered;
    CopyRows(vp, src, target, c0, c1 - c0, r0, r1 - r0);
    DrawnIsRendered(was, target.pixels[..], target.stride, target.width, target.height, vp, s, src.stride, src.width, src.height);
  }

  method CopyRows(vp: Viewport, src: DisplayBuffer, target: DisplayBuffer, c0: int, w: nat, r0: int, h: nat)
    requires target.Valid() && src.Valid() && src.pixels != target.pixels
    requires 0 <= vp.scrollX + c0 && vp.scrollX + c0 + w <= src.width && 0 <= vp.scrollY + r0 && vp.scrollY + r0 + h <= src.height
    requires 0 <= vp.bounds.x + c0 && vp.bounds.x + c0 + w <= target.width
    requires 0 <= vp.bounds.y + r0 && vp.bounds.y + r0 + h <= target.height
    modifies target.pixels
    ensures Drawn(old(target.pixels[..]), target.pixels[..], target.stride, vp.bounds.x + c0, vp.bounds.y + r0, w, h,
                  PicOf(vp, src.pixels[..], src.stride))
  {
    ghost var was, s := target.pixels[..], src.pixels[..];
    ghost var pic := PicOf(vp, s, src.stride);
    DrawnNothing(was, target.stride, vp.bounds.x + c0, vp.bounds.y + r0, w, 0, pic);
    hide Drawn, PicOf;
    var row := r0;
    while row < r0 + h
      invariant r0 <= row <= r0 + h && src.pixels[..] == s
      invariant Drawn(was, target.pixels[..], target.stride, vp.bounds.x + c0, vp.bounds.y + r0, w, row - r0, pic)
    {
      ghost var now := target.pixels[..];
      CopyRow(vp, src, target, c0, w, row);
      DrawRow(was, now, target.pixels[..], target.stride, vp.bounds.x + c0, vp.bounds.y + r0, w, row - r0, pic);
      row := row + 1;
    }
  }

  method CopyRow(vp: Viewport, src: DisplayBuffer, target: DisplayBuffer, c0: int, w: nat, row: int)
    requires target.Valid() && src.Valid() && src.pixels != target.pixels
    requires 0 <= vp.scrollX + c0 && vp.scrollX + c0 + w <= src.width && 0 <= vp.scrollY + row < src.height
    requires 0 <= vp.bounds.x + c0 && vp.bounds.x + c0 + w <= target.width && 0 <= vp.bounds.y + row < target.height
    modifies target.pixels
    ensures Drawn(old(target.pixels[..]), target.pixels[..], target.stride, vp.bounds.x + c0, vp.bounds.y + row, w, 1,
                  PicOf(vp, src.pixels[..], src.stride))
  {
    ghost var pic := PicOf(vp, src.pixels[..], src.stride);
    var sx, sy := vp.scrollX + c0, vp.scrollY + row;
    var x, y := vp.bounds.x + c0, vp.bounds.y + row;
    RowInside(src.stride, src.height, src.width, sx, sy, w);
    var line := src.pixels[At(src.stride, sx, sy)..At(src.stride, sx, sy) + w];
    forall k | 0 <= k < w ensures line[k] == pic(x + k, y) {
      assert At(src.stride, sx + k, sy) == At(src.stride, sx, sy) + k;
    }
    target.PutRow(x, y, w, pic, line);
  }

  lemma RowInside(stride: nat, rows: nat, width: nat, x: nat, y: nat, w: nat)
    requires x + w <= width <= stride && y < rows
    ensures At(stride, x, y) + w <= stride * rows
  {
    RowGap(stride, y, rows);
  }

  lemma RenderedNothing(was: seq<Color>, stride: nat, tw: Extent, th: Extent, vp: Viewport, src: seq<Color>, sstride: nat, sw: Extent, sh: Extent)
    requires High(vp.bounds.width, vp.scrollX, vp.bounds.x, sw, tw) <= Low(vp.scrollX, vp.bounds.x)
          || High(vp.bounds.height, vp.scrollY, vp.bounds.y, sh, th) <= Low(vp.scrollY, vp.bounds.y)
    ensures Rendered(was, was, stride, tw, th, vp, src, sstride, sw, sh)
  {
    hide At;
    forall px: nat, py: nat ensures !Visible(vp, sw, sh, tw, th, px, py) {
      RangeIsVisible(vp.bounds.width, vp.scrollX, vp.bounds.x, sw, tw, px - vp.bounds.x);
      RangeIsVisible(vp.bounds.height, vp.scrollY, vp.bounds.y, sh, th, py - vp.bounds.y);
    }
  }

  lemma DrawnIsRendered(was: seq<Color>, now: seq<Color>, stride: nat, tw: Extent, th: Extent, vp: Viewport, src: seq<Color>, sstride: nat, sw: Extent, sh: Extent)
    requires var c0, c1 := Low(vp.scrollX, vp.bounds.x), High(vp.bounds.width, vp.scrollX, vp.bounds.x, sw, tw);
             var r0, r1 := Low(vp.scrollY, vp.bounds.y), High(vp.bounds.height, vp.scrollY, vp.bounds.y, sh, th);
             && c0 < c1 && r0 < r1 && 0 <= vp.bounds.x + c0 && 0 <= vp.bounds.y + r0
             && Drawn(was, now, stride, vp.bounds.x + c0, vp.bounds.y + r0, c1 - c0, r1 - r0, PicOf(vp, src, sstride))
    ensures Rendered(was, now, stride, tw, th, vp, src, sstride, sw, sh)
  {
    hide At, Shown;
    forall px: nat, py: nat | px < stride && At(stride, px, py) < |was|
      ensures now[At(stride, px, py)] ==
              if Visible(vp, sw, sh, tw, th, px, py) then Shown(vp, src, sstride, px, py) else was[At(stride, px, py)]
    {
      RangeIsVisible(vp.bounds.width, vp.scrollX, vp.bounds.x, sw, tw, px - vp.bounds.x);
      RangeIsVisible(vp.bounds.height, vp.scrollY, vp.bounds.y, sh, th, py - vp.bounds.y);
    }
  }
}
