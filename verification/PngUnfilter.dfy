/**
  Reversal of the PNG scanline filters (section 6 of RFC 2083), done with two
  alternating row buffers and a special treatment of the first row.
 */
module PngUnfilter {
  import opened Basics

  // ------------------------------------------------------------ specification

  const NONE: int := 0
  const SUB: int := 1
  const UP: int := 2
  const AVG: int := 3
  const PAETH: int := 4
  const AVG_FIRST: int := 5

  predicate IsByte(x: int) { 0 <= x < 256 }

  predicate Bytes(s: seq<int>) {
    forall i :: 0 <= i < |s| ==> IsByte(s[i])
  }

  function Abs(x: int): int { if x < 0 then -x else x }

  /** The predictor as RFC 2083 defines it: the neighbour closest to a + b - c, ties in order a, b, c. */
  function PaethPredictor(a: int, b: int, c: int): int {
    var p := a + b - c;
    var pa, pb, pc := Abs(p - a), Abs(p - b), Abs(p - c);
    if pa <= pb && pa <= pc then a else if pb <= pc then b else c
  }

  /** What a filter type predicts from left, above and upper left. */
  function Predict(filter: int, a: int, b: int, c: int): int {
    if filter == SUB then a
    else if filter == UP then b
    else if filter == AVG then (a + b) / 2
    else if filter == PAETH then PaethPredictor(a, b, c)
    else 0
  }

  /** The first `n` reconstructed bytes of a row; bytes left of the row are zero. */
  function Recon(filter: int, raw: seq<int>, prior: seq<int>, bpp: nat, n: nat): (r: seq<int>)
    requires n <= |raw| && |raw| == |prior| && bpp > 0
    ensures |r| == n && Bytes(r)
  {
    if n == 0 then []
    else
      var r := Recon(filter, raw, prior, bpp, n - 1);
      var k := n - 1;
      var a := if k >= bpp then r[k - bpp] else 0;
      var c := if k >= bpp then prior[k - bpp] else 0;
      r + [(raw[k] + Predict(filter, a, prior[k], c)) % 256]
  }

  /** The reconstructed rows; nothing when a filter byte is out of range. */
  function Image(raw: seq<int>, prior: seq<int>, bpp: nat, rows: nat): Option<seq<seq<int>>>
    requires bpp > 0 && |raw| >= (|prior| + 1) * rows
    decreases rows
  {
    if rows == 0 then Some([])
    else
      RowFits(|raw|, |prior|, rows);
      if raw[0] > 4 then None
      else
        var row := Recon(raw[0], raw[1..|prior| + 1], prior, bpp, |prior|);
        var rest := Image(raw[|prior| + 1..], row, bpp, rows - 1);
        if rest.None? then None else Some([row] + rest.value)
  }

  lemma RowFits(len: nat, width: nat, rows: nat)
    requires rows > 0 && len >= (width + 1) * rows
    ensures len >= width + 1 && len - (width + 1) >= (width + 1) * (rows - 1)
  {
    assert (width + 1) * rows == (width + 1) * (rows - 1) + (width + 1);
    assert (width + 1) * (rows - 1) >= 0;
  }

  // ------------------------------------------------------------------ encoder

  /** One byte as sections 6.2 to 6.6 of RFC 2083 have the encoder filter it, by filter type number. */
  function FilteredByte(filter: int, x: int, left: int, above: int, upLeft: int): int {
    match filter
    case 1 => (x - left) % 256
    case 2 => (x - above) % 256
    case 3 => (x - (left + above) / 2) % 256
    case 4 => (x - PaethPredictor(left, above, upLeft)) % 256
    case _ => x % 256
  }

  /** A row as the encoder filters it; bytes left of the row are zero. */
  function Filter(filter: int, row: seq<int>, prior: seq<int>, bpp: nat): (r: seq<int>)
    requires |row| == |prior| && bpp > 0
    ensures |r| == |row|
  {
    seq(|row|, k requires 0 <= k < |row| =>
      if k >= bpp then FilteredByte(filter, row[k], row[k - bpp], prior[k], prior[k - bpp])
      else FilteredByte(filter, row[k], 0, prior[k], 0))
  }

  lemma Unfilters(filter: int, raw: int, x: int, left: int, above: int, upLeft: int)
    requires 0 <= filter <= 4 && IsByte(x) && IsByte(raw)
    ensures raw == FilteredByte(filter, x, left, above, upLeft) <==> x == (raw + Predict(filter, left, above, upLeft)) % 256
  {
    var p := Predict(filter, left, above, upLeft);
    assert FilteredByte(filter, x, left, above, upLeft) == (x - p) % 256;
    hide Predict, FilteredByte;
    if raw == (x - p) % 256 {
      assert raw + p == x - 256 * ((x - p) / 256);
    }
    if x == (raw + p) % 256 {
      assert x - p == raw - 256 * ((raw + p) / 256);
    }
  }

  /** Reconstruction undoes the encoder's filter, and only that: the rows agree if and only if the filtered bytes do. */
  lemma {:induction false} ReconInvertsFilter(filter: int, raw: seq<int>, row: seq<int>, prior: seq<int>, bpp: nat)
    requires 0 <= filter <= 4 && bpp > 0 && Bytes(raw) && Bytes(row) && |raw| == |row| == |prior|
    ensures raw == Filter(filter, row, prior, bpp) <==> Recon(filter, raw, prior, bpp, |raw|) == row
  {
    hide Recon, Filter, Bytes;
    if raw == Filter(filter, row, prior, bpp) {
      UndoneUpTo(filter, raw, row, prior, bpp, |raw|);
      assert row[..|raw|] == row;
    }
    if Recon(filter, raw, prior, bpp, |raw|) == row {
      forall k | 0 <= k < |raw| ensures raw[k] == Filter(filter, row, prior, bpp)[k] {
        RefilteredAt(filter, raw, row, prior, bpp, k);
      }
    }
  }

  /** The byte one pixel to the left of byte `k`; zero left of the row. */
  function LeftOrZero(row: seq<int>, bpp: nat, k: nat): int
    requires k < |row|
  {
    if 0 < bpp <= k then row[k - bpp] else 0
  }

  lemma FilterAt(filter: int, row: seq<int>, prior: seq<int>, bpp: nat, k: nat)
    requires bpp > 0 && |row| == |prior| && k < |row|
    ensures Filter(filter, row, prior, bpp)[k]
            == FilteredByte(filter, row[k], LeftOrZero(row, bpp, k), prior[k], LeftOrZero(prior, bpp, k))
  {
    hide FilteredByte;
  }

  lemma RefilteredAt(filter: int, raw: seq<int>, row: seq<int>, prior: seq<int>, bpp: nat, k: nat)
    requires 0 <= filter <= 4 && bpp > 0 && Bytes(raw) && Bytes(row) && |raw| == |row| == |prior| && k < |raw|
    requires Recon(filter, raw, prior, bpp, |raw|) == row
    ensures raw[k] == Filter(filter, row, prior, bpp)[k]
  {
    hide Recon, Filter, FilteredByte, Predict;
    ReconAt(filter, raw, prior, bpp, |raw|, k);
    FilterAt(filter, row, prior, bpp, k);
    Unfilters(filter, raw[k], row[k], LeftOrZero(row, bpp, k), prior[k], LeftOrZero(prior, bpp, k));
  }

  lemma {:induction false} UndoneUpTo(filter: int, raw: seq<int>, row: seq<int>, prior: seq<int>, bpp: nat, n: nat)
    requires 0 <= filter <= 4 && bpp > 0 && Bytes(raw) && Bytes(row) && |raw| == |row| == |prior| && n <= |raw|
    requires raw == Filter(filter, row, prior, bpp)
    ensures Recon(filter, raw, prior, bpp, n) == row[..n]
    decreases n
  {
    hide Filter, FilteredByte, Predict;
    if n > 0 {
      var k := n - 1;
      UndoneUpTo(filter, raw, row, prior, bpp, k);
      FilterAt(filter, row, prior, bpp, k);
      Unfilters(filter, raw[k], row[k], LeftOrZero(row, bpp, k), prior[k], LeftOrZero(prior, bpp, k));
      assert row[..n] == row[..k] + [row[k]];
    }
  }

  /** Byte `k` of a reconstructed row, from the row itself and the one above. */
  lemma {:induction false} ReconAt(filter: int, raw: seq<int>, prior: seq<int>, bpp: nat, n: nat, k: nat)
    requires bpp > 0 && |raw| == |prior| && k < n <= |raw|
    ensures var r := Recon(filter, raw, prior, bpp, n);
            var a, c := if k >= bpp then r[k - bpp] else 0, if k >= bpp then prior[k - bpp] else 0;
            r[k] == (raw[k] + Predict(filter, a, prior[k], c)) % 256
    decreases n
  {
    hide Predict;
    if k < n - 1 { ReconAt(filter, raw, prior, bpp, n - 1, k); }
  }

  /** The filter type numbers and what each one predicts, as section 6.1 of RFC 2083 numbers them. */
  lemma FilterTypes(raw: seq<int>, prior: seq<int>, bpp: nat, k: nat, n: nat)
    requires bpp > 0 && |raw| == |prior| && k < n <= |raw|
    ensures Recon(0, raw, prior, bpp, n)[k] == raw[k] % 256
    ensures var r := Recon(1, raw, prior, bpp, n);
            r[k] == (raw[k] + if k >= bpp then r[k - bpp] else 0) % 256
    ensures Recon(2, raw, prior, bpp, n)[k] == (raw[k] + prior[k]) % 256
    ensures var r := Recon(3, raw, prior, bpp, n);
            r[k] == (raw[k] + ((if k >= bpp then r[k - bpp] else 0) + prior[k]) / 2) % 256
    ensures var r := Recon(4, raw, prior, bpp, n);
            r[k] == (raw[k] + if k >= bpp then PaethPredictor(r[k - bpp], prior[k], prior[k - bpp])
                              else PaethPredictor(0, prior[k], 0)) % 256
  {
    hide Recon, PaethPredictor;
    ReconAt(0, raw, prior, bpp, n, k);
    ReconAt(1, raw, prior, bpp, n, k);
    ReconAt(2, raw, prior, bpp, n, k);
    ReconAt(3, raw, prior, bpp, n, k);
    ReconAt(4, raw, prior, bpp, n, k);
  }

  /** The picture as the encoder sends it: each row's filter type, then the row filtered against the one before. */
  function Encoded(rows: seq<seq<int>>, filters: seq<int>, prior: seq<int>, bpp: nat): seq<int>
    requires bpp > 0 && |filters| == |rows| && forall i :: 0 <= i < |rows| ==> |rows[i]| == |prior|
  {
    if rows == [] then []
    else [filters[0]] + Filter(filters[0], rows[0], prior, bpp) + Encoded(rows[1..], filters[1..], rows[0], bpp)
  }

  /** The filter type bytes in front of the rows of `width` bytes. */
  function FilterBytes(raw: seq<int>, width: nat, rows: nat): (f: seq<int>)
    requires |raw| >= (width + 1) * rows
    ensures |f| == rows
    decreases rows
  {
    if rows == 0 then []
    else
      RowFits(|raw|, width, rows);
      [raw[0]] + FilterBytes(raw[width + 1..], width, rows - 1)
  }

  ghost predicate FilterTypesOk(f: seq<int>) {
    forall i :: 0 <= i < |f| ==> 0 <= f[i] <= 4
  }

  /** `rows` is a picture of that width whose encoding with the filter types found in `raw` is what `raw` starts with. */
  ghost predicate Decodes(raw: seq<int>, prior: seq<int>, bpp: nat, rows: seq<seq<int>>)
    requires bpp > 0 && |raw| >= (|prior| + 1) * |rows|
  {
    && (forall i :: 0 <= i < |rows| ==> |rows[i]| == |prior| && Bytes(rows[i]))
    && Encoded(rows, FilterBytes(raw, |prior|, |rows|), prior, bpp) <= raw
  }

  /** The decoder accepts exactly the scanlines with filter types 0 to 4, and gives a picture that encodes to them. */
  lemma {:induction false} ImageDecodes(raw: seq<int>, prior: seq<int>, bpp: nat, n: nat)
    requires bpp > 0 && Bytes(raw) && |raw| >= (|prior| + 1) * n
    ensures Image(raw, prior, bpp, n).Some? <==> FilterTypesOk(FilterBytes(raw, |prior|, n))
    ensures Image(raw, prior, bpp, n).Some? ==>
              var rows := Image(raw, prior, bpp, n).value;
              |rows| == n && Decodes(raw, prior, bpp, rows)
    decreases n
  {
    hide Recon, Filter, Decodes, FilterTypesOk, Bytes;
    if n == 0 {
      NothingDecodes(raw, prior, bpp);
    } else {
      RowFits(|raw|, |prior|, n);
      var w := |prior| + 1;
      FirstFilterType(FilterBytes(raw, |prior|, n));
      assert FilterBytes(raw, |prior|, n)[1..] == FilterBytes(raw[w..], |prior|, n - 1);
      RowsAreBytes(raw, w);
      if raw[0] <= 4 {
        var row := Recon(raw[0], raw[1..w], prior, bpp, |prior|);
        ImageDecodes(raw[w..], row, bpp, n - 1);
        var rest := Image(raw[w..], row, bpp, n - 1);
        if rest.Some? { RowDecodes(raw, prior, bpp, row, rest.value); }
      }
    }
  }

  lemma NothingDecodes(raw: seq<int>, prior: seq<int>, bpp: nat)
    requires bpp > 0
    ensures Decodes(raw, prior, bpp, []) && FilterTypesOk(FilterBytes(raw, |prior|, 0))
  {
  }

  lemma RowsAreBytes(raw: seq<int>, w: nat)
    requires Bytes(raw) && 0 < w <= |raw|
    ensures IsByte(raw[0]) && Bytes(raw[1..w]) && Bytes(raw[w..])
  {
  }

  /** One more row in front of a picture that decodes. */
  lemma RowDecodes(raw: seq<int>, prior: seq<int>, bpp: nat, row: seq<int>, rest: seq<seq<int>>)
    requires bpp > 0 && Bytes(raw) && |raw| >= (|prior| + 1) * (|rest| + 1) && |raw| >= |prior| + 1 && 0 <= raw[0] <= 4
    requires row == Recon(raw[0], raw[1..|prior| + 1], prior, bpp, |prior|)
    requires |raw| - (|prior| + 1) >= (|prior| + 1) * |rest| && Decodes(raw[|prior| + 1..], row, bpp, rest)
    ensures Decodes(raw, prior, bpp, [row] + rest)
  {
    hide Recon, Filter, FilteredByte;
    var w, rows := |prior| + 1, [row] + rest;
    var line := raw[1..w];
    ReconInvertsFilter(raw[0], line, row, prior, bpp);
    var f := FilterBytes(raw, |prior|, |rows|);
    assert f[1..] == FilterBytes(raw[w..], |prior|, |rest|) && f[0] == raw[0];
    assert rows[1..] == rest;
    assert Encoded(rows, f, prior, bpp) == [raw[0]] + line + Encoded(rest, f[1..], row, bpp);
    assert raw == [raw[0]] + line + raw[w..];
  }

  lemma FirstFilterType(f: seq<int>)
    requires f != []
    ensures FilterTypesOk(f) <==> 0 <= f[0] <= 4 && FilterTypesOk(f[1..])
  {
    assert f == [f[0]] + f[1..];
  }

  /** Round trip: whatever the encoder sends, with any filter type for each row, decodes to the picture. */
  lemma {:induction false} EncodedDecodes(rows: seq<seq<int>>, filters: seq<int>, prior: seq<int>, bpp: nat)
    requires bpp > 0 && |filters| == |rows| && FilterTypesOk(filters) && Bytes(prior)
    requires forall i :: 0 <= i < |rows| ==> |rows[i]| == |prior| && Bytes(rows[i])
    ensures var raw := Encoded(rows, filters, prior, bpp);
            |raw| >= (|prior| + 1) * |rows| && Image(raw, prior, bpp, |rows|) == Some(rows)
    decreases |rows|
  {
    hide Recon, Filter;
    if rows != [] {
      var w := |prior| + 1;
      var rest := Encoded(rows[1..], filters[1..], rows[0], bpp);
      EncodedDecodes(rows[1..], filters[1..], rows[0], bpp);
      var raw := Encoded(rows, filters, prior, bpp);
      var line := Filter(filters[0], rows[0], prior, bpp);
      FilterIsBytes(filters[0], rows[0], prior, bpp);
      ReconInvertsFilter(filters[0], line, rows[0], prior, bpp);
      assert raw[1..w] == line && raw[w..] == rest && raw[0] == filters[0];
      assert rows == [rows[0]] + rows[1..];
      RowAdds(|raw|, |prior|, |rows|);
    }
  }

  lemma RowAdds(len: nat, width: nat, rows: nat)
    requires rows > 0 && len >= width + 1
    ensures len - (width + 1) >= (width + 1) * (rows - 1) ==> len >= (width + 1) * rows
  {
  }

  lemma FilterIsBytes(filter: int, row: seq<int>, prior: seq<int>, bpp: nat)
    requires |row| == |prior| && bpp > 0
    ensures Bytes(Filter(filter, row, prior, bpp))
  {
    hide PaethPredictor;
  }

  // ---------------------------------------------------------- implementation

  /** The branch-free arrangement of the predictor. */
  function Paeth(a: int, b: int, c: int): int {
    var thresh := c * 3 - (a + b);
    var lo := if a < b then a else b;
    var hi := if a < b then b else a;
    var t0 := if hi <= thresh then lo else c;
    if thresh <= lo then hi else t0
  }

  lemma PaethAgrees(a: int, b: int, c: int)
    ensures Paeth(a, b, c) == PaethPredictor(a, b, c)
  {
  }

  lemma PaethEdges(x: int)
    requires x >= 0
    ensures PaethPredictor(x, 0, 0) == x && PaethPredictor(0, x, 0) == x
  {
  }

  /** Which filter the first row is treated with. */
  function FirstRowFilter(filter: int): int {
    if filter == UP then NONE else if filter == AVG then AVG_FIRST else if filter == PAETH then SUB else filter
  }

  function Zeros(n: nat): (z: seq<int>)
    ensures |z| == n && forall i :: 0 <= i < n ==> z[i] == 0
  {
    seq(n, _ => 0)
  }

  /** One byte as the filter cases compute it, from the bytes already in the row. */
  function NextByte(filter: int, raw: int, left: Option<int>, above: int, upLeft: int): int {
    var sum :=
      if filter == SUB then (if left.Some? then raw + left.value else raw)
      else if filter == UP then raw + above
      else if filter == AVG then (if left.Some? then raw + (above + left.value) / 2 else raw + above / 2)
      else if filter == PAETH then (if left.Some? then raw + Paeth(left.value, above, upLeft) else raw + above)
      else if filter == AVG_FIRST then (if left.Some? then raw + left.value / 2 else raw)
      else raw;
    sum % 256
  }

  /** Each case computes the reconstruction the specification asks for. */
  lemma NextByteIsRecon(filter: int, raw: seq<int>, prior: seq<int>, bpp: nat, k: nat)
    requires k < |raw| && |raw| == |prior| && bpp > 0 && 0 <= filter <= 4 && Bytes(raw) && Bytes(prior)
    ensures var r := Recon(filter, raw, prior, bpp, k);
            var left := if k >= bpp then Some(r[k - bpp]) else None;
            var upLeft := if k >= bpp then prior[k - bpp] else 0;
            Recon(filter, raw, prior, bpp, k + 1) == r + [NextByte(filter, raw[k], left, prior[k], upLeft)]
  {
    var r := Recon(filter, raw, prior, bpp, k);
    PaethEdges(prior[k]);
    if k >= bpp { PaethAgrees(r[k - bpp], prior[k], prior[k - bpp]); }
  }

  /** On the first row, above which everything is zero, the replacement filter computes the same. */
  lemma FirstRowIsRecon(filter: int, raw: seq<int>, bpp: nat, k: nat)
    requires k < |raw| && bpp > 0 && 0 <= filter <= 4 && Bytes(raw)
    ensures var z := Zeros(|raw|);
            var r := Recon(filter, raw, z, bpp, k);
            var left := if k >= bpp then Some(r[k - bpp]) else None;
            forall above, upLeft ::
              Recon(filter, raw, z, bpp, k + 1) == r + [NextByte(FirstRowFilter(filter), raw[k], left, above, upLeft)]
  {
    var r := Recon(filter, raw, Zeros(|raw|), bpp, k);
    if k >= bpp { PaethEdges(r[k - bpp]); }
    PaethEdges(0);
  }

  // ---------------------------------------------------------------- row loop

  /** The part of the buffer from `off` on that has been filled with `k` bytes. */
  ghost predicate RowDone(buf: seq<int>, off: nat, k: nat, row: seq<int>) {
    off + k <= |buf| && |row| == k && buf[off..off + k] == row
  }

  /** The bytes of `buf` outside the row at `off` are those of `before`. */
  ghost predicate RestKept(buf: seq<int>, before: seq<int>, off: nat, width: nat) {
    |buf| == |before| && forall i :: 0 <= i < |buf| && !(off <= i < off + width) ==> buf[i] == before[i]
  }

  lemma RowGrows(buf: seq<int>, off: nat, k: nat, row: seq<int>, v: int)
    requires RowDone(buf, off, k, row) && off + k < |buf|
    ensures RowDone(buf[off + k := v], off, k + 1, row + [v])
  {
    var b := buf[off + k := v];
    assert b[off..off + k + 1] == b[off..off + k] + [v];
    assert b[off..off + k] == buf[off..off + k];
  }

  lemma LeftOf(buf: seq<int>, off: nat, k: nat, row: seq<int>, i: nat)
    requires RowDone(buf, off, k, row) && i < k
    ensures buf[off + i] == row[i]
  {
    assert buf[off..off + k][i] == buf[off + i];
  }

  /** What the row above is for the specification: zeros for the first row, the other buffer half otherwise. */
  ghost function Above(first: bool, buf: seq<int>, prior: nat, width: nat): seq<int>
    requires prior + width <= |buf|
  {
    if first then Zeros(width) else buf[prior..prior + width]
  }

  /**
    Unfilters one row into `buf[cur..]`, reading the previous one at `buf[prior..]`.
    On the first row the previous one is never looked at.
   */
  method UnfilterRow(buf: array<int>, cur: nat, prior: nat, raw: seq<int>, bpp: nat, filterByte: int, first: bool)
    requires bpp > 0 && 0 <= filterByte <= 4 && Bytes(raw)
    requires cur + |raw| <= buf.Length && prior + |raw| <= buf.Length
    requires cur + |raw| <= prior || prior + |raw| <= cur
    requires !first ==> Bytes(buf[prior..prior + |raw|])
    modifies buf
    ensures buf[cur..cur + |raw|] == Recon(filterByte, raw, Above(first, old(buf[..]), prior, |raw|), bpp, |raw|)
    ensures RestKept(buf[..], old(buf[..]), cur, |raw|)
  {
    hide Recon, NextByte, RowDone, Above;
    ghost var before := buf[..];
    ghost var above := Above(first, before, prior, |raw|);
    AboveIs(first, before, prior, |raw|);
    var filter := if first then FirstRowFilter(filterByte) else filterByte;
    NothingDone(filterByte, raw, above, bpp, before, cur);
    var k := 0;
    while k < |raw|
      invariant 0 <= k <= |raw| && RestKept(buf[..], before, cur, |raw|)
      invariant RowDone(buf[..], cur, k, Recon(filterByte, raw, above, bpp, k))
    {
      ghost var now := buf[..];
      ghost var r := Recon(filterByte, raw, above, bpp, k);
      var left, upLeft := None, 0;
      if k >= bpp { left, upLeft := Some(buf[cur + k - bpp]), buf[prior + k - bpp]; }
      RowByte(first, filterByte, raw, before, now, cur, prior, bpp, k, left, upLeft);
      var v := NextByte(filter, raw[k], left, buf[prior + k], upLeft);
      RowGrows(now, cur, k, r, v);
      buf[cur + k] := v;
      assert buf[..] == now[cur + k := v];
      k := k + 1;
    }
    DoneIs(buf[..], cur, |raw|, Recon(filterByte, raw, above, bpp, |raw|));
    assert buf[..][cur..cur + |raw|] == buf[cur..cur + |raw|];
  }

  lemma AboveIs(first: bool, buf: seq<int>, prior: nat, width: nat)
    requires prior + width <= |buf|
    ensures |Above(first, buf, prior, width)| == width
  {
  }

  lemma DoneIs(buf: seq<int>, off: nat, k: nat, row: seq<int>)
    requires RowDone(buf, off, k, row)
    ensures off + k <= |buf| && buf[off..off + k] == row
  {
  }

  /** The byte the loop computes is the next one of the specification. */
  lemma RowByte(first: bool, filterByte: int, raw: seq<int>, before: seq<int>, now: seq<int>, cur: nat, prior: nat, bpp: nat, k: nat,
                left: Option<int>, upLeft: int)
    requires bpp > 0 && 0 <= filterByte <= 4 && Bytes(raw) && k < |raw| && cur + |raw| <= |before| && prior + |raw| <= |before|
    requires cur + |raw| <= prior || prior + |raw| <= cur
    requires RestKept(now, before, cur, |raw|) && (!first ==> Bytes(before[prior..prior + |raw|]))
    requires |Above(first, before, prior, |raw|)| == |raw|
    requires RowDone(now, cur, k, Recon(filterByte, raw, Above(first, before, prior, |raw|), bpp, k))
    requires if k >= bpp then left == Some(now[cur + k - bpp]) && upLeft == now[prior + k - bpp] else left == None && upLeft == 0
    ensures var above := Above(first, before, prior, |raw|);
            Recon(filterByte, raw, above, bpp, k + 1) == Recon(filterByte, raw, above, bpp, k)
              + [NextByte(if first then FirstRowFilter(filterByte) else filterByte, raw[k], left, now[prior + k], upLeft)]
  {
    hide Recon, NextByte;
    var above := Above(first, before, prior, |raw|);
    var r := Recon(filterByte, raw, above, bpp, k);
    if k >= bpp {
      LeftOf(now, cur, k, r, k - bpp);
      assert now[prior + k - bpp] == before[prior + k - bpp];
    }
    assert now[prior + k] == before[prior + k];
    if first {
      FirstRowIsRecon(filterByte, raw, bpp, k);
    } else {
      NextByteIsRecon(filterByte, raw, above, bpp, k);
    }
  }

  lemma NothingDone(filter: int, raw: seq<int>, prior: seq<int>, bpp: nat, buf: seq<int>, cur: nat)
    requires |raw| == |prior| && bpp > 0 && cur <= |buf|
    ensures RowDone(buf, cur, 0, Recon(filter, raw, prior, bpp, 0))
  {
  }

  // --------------------------------------------------------------- row count

  /** The whole image is the rows done so far followed by what the rest gives. */
  ghost predicate Continues(whole: Option<seq<seq<int>>>, done: seq<seq<int>>, rest: Option<seq<seq<int>>>) {
    whole == if rest.None? then None else Some(done + rest.value)
  }

  /** What one more row means for the rest of the image. */
  lemma ImageStep(raw: seq<int>, prior: seq<int>, bpp: nat, rows: nat, whole: Option<seq<seq<int>>>, done: seq<seq<int>>)
    requires bpp > 0 && rows > 0 && |raw| >= (|prior| + 1) * rows
    requires Continues(whole, done, Image(raw, prior, bpp, rows))
    ensures |raw| >= |prior| + 1 && |raw| - (|prior| + 1) >= (|prior| + 1) * (rows - 1)
    ensures raw[0] > 4 ==> whole == None
    ensures raw[0] <= 4 ==>
              var row := Recon(raw[0], raw[1..|prior| + 1], prior, bpp, |prior|);
              Continues(whole, done + [row], Image(raw[|prior| + 1..], row, bpp, rows - 1))
  {
    RowFits(|raw|, |prior|, rows);
    if raw[0] <= 4 {
      var row := Recon(raw[0], raw[1..|prior| + 1], prior, bpp, |prior|);
      var rest := Image(raw[|prior| + 1..], row, bpp, rows - 1);
      if rest.Some? { assert done + ([row] + rest.value) == done + [row] + rest.value; }
    }
  }

  /** Start of the row buffer used by row `j`: the two halves alternate. */
  function Half(j: nat, width: nat): nat { if j % 2 == 1 then width else 0 }

  /** What row `j` finds as the previous row: nothing but zeros at first, then the other half. */
  ghost predicate PriorRow(buf: seq<int>, j: nat, width: nat, prev: seq<int>) {
    && |buf| == 2 * width
    && (j == 0 ==> prev == Zeros(width))
    && (j > 0 ==> Bytes(prev) && prev == buf[Half(j + 1, width)..Half(j + 1, width) + width])
  }

  lemma FirstPrior(buf: seq<int>, width: nat)
    requires |buf| == 2 * width
    ensures PriorRow(buf, 0, width, Zeros(width))
  {
  }

  lemma Slices(raw: seq<int>, pos: nat, width: nat)
    requires pos + width + 1 <= |raw| && Bytes(raw)
    ensures raw[pos..][0] == raw[pos] && raw[pos + 1..pos + 1 + width] == raw[pos..][1..width + 1]
    ensures raw[pos..][width + 1..] == raw[pos + 1 + width..] && Bytes(raw[pos + 1..pos + 1 + width])
  {
  }

  /** Unfilters row `j` into its half of the buffer. */
  method NextRow(buf: array<int>, j: nat, line: seq<int>, bpp: nat, filter: int, ghost prev: seq<int>) returns (row: seq<int>)
    requires bpp > 0 && 0 <= filter <= 4 && Bytes(line) && |prev| == |line| && PriorRow(buf[..], j, |line|, prev)
    modifies buf
    ensures row == Recon(filter, line, prev, bpp, |line|) && |row| == |line| && PriorRow(buf[..], j + 1, |line|, row)
  {
    hide Recon, NextByte, PriorRow, RestKept, Above, Half, Bytes;
    var width := |line|;
    var cur, prior := Half(j, width), Half(j + 1, width);
    FindPrior(buf[..], j, width, prev);
    assert buf[prior..prior + width] == buf[..][prior..prior + width];
    UnfilterRow(buf, cur, prior, line, bpp, filter, j == 0);
    row := buf[cur..cur + width];
    assert row == buf[..][cur..cur + width];
    ReconIsBytes(filter, line, prev, bpp);
    NextPrior(buf[..], j, width, row);
  }

  /** The previous row is in the other half. */
  lemma FindPrior(buf: seq<int>, j: nat, width: nat, prev: seq<int>)
    requires PriorRow(buf, j, width, prev) && |prev| == width
    ensures |buf| == 2 * width && Half(j, width) + width <= |buf| && Half(j + 1, width) + width <= |buf|
    ensures Half(j, width) + width <= Half(j + 1, width) || Half(j + 1, width) + width <= Half(j, width)
    ensures Above(j == 0, buf, Half(j + 1, width), width) == prev
    ensures j != 0 ==> Bytes(buf[Half(j + 1, width)..Half(j + 1, width) + width])
  {
  }

  lemma NextPrior(buf: seq<int>, j: nat, width: nat, row: seq<int>)
    requires |buf| == 2 * width && Half(j, width) + width <= |buf| && Bytes(row)
    requires row == buf[Half(j, width)..Half(j, width) + width]
    ensures PriorRow(buf, j + 1, width, row)
  {
    assert Half(j + 2, width) == Half(j, width);
  }

  lemma ReconIsBytes(filter: int, raw: seq<int>, prior: seq<int>, bpp: nat)
    requires |raw| == |prior| && bpp > 0
    ensures Bytes(Recon(filter, raw, prior, bpp, |raw|)) && |Recon(filter, raw, prior, bpp, |raw|)| == |raw|
  {
  }

  /** Unfilters `y` rows of `width` bytes, the halves of one buffer taking turns as current and previous row. */
  method UnfilterImage(raw: seq<int>, width: nat, bpp: nat, y: nat) returns (ok: bool, rows: seq<seq<int>>)
    requires bpp > 0 && Bytes(raw) && |raw| >= (width + 1) * y
    ensures ok <==> Image(raw, Zeros(width), bpp, y).Some?
    ensures ok ==> rows == Image(raw, Zeros(width), bpp, y).value
    ensures ok <==> FilterTypesOk(FilterBytes(raw, width, y))
    ensures ok ==> |rows| == y && Decodes(raw, Zeros(width), bpp, rows)
  {
    hide Image, Recon, FilterTypesOk, FilterBytes, Decodes;
    ImageDecodes(raw, Zeros(width), bpp, y);
    var buf := new int[2 * width];
    ghost var whole := Image(raw, Zeros(width), bpp, y);
    ghost var prev := Zeros(width);
    rows := [];
    var j, pos := 0, 0;
    assert raw[0..] == raw;
    NothingUnfiltered(whole);
    hide PriorRow, Continues;
    assert PriorRow(buf[..], 0, width, prev) by { FirstPrior(buf[..], width); }
    while j < y
      invariant 0 <= j <= y && 0 <= pos <= |raw| && |prev| == width && |raw[pos..]| >= (width + 1) * (y - j)
      invariant Continues(whole, rows, Image(raw[pos..], prev, bpp, y - j))
      invariant PriorRow(buf[..], j, width, prev)
    {
      ImageStep(raw[pos..], prev, bpp, y - j, whole, rows);
      var filter := raw[pos];
      if filter > 4 {
        return false, [];
      }
      var line := raw[pos + 1..pos + 1 + width];
      Slices(raw, pos, width);
      var row := NextRow(buf, j, line, bpp, filter, prev);
      prev := Recon(filter, line, prev, bpp, width);
      rows := rows + [row];
      pos := pos + 1 + width;
      j := j + 1;
    }
    EndOfImage(raw[pos..], prev, bpp, whole, rows);
    return true, rows;
  }

  lemma NothingUnfiltered(whole: Option<seq<seq<int>>>)
    ensures Continues(whole, [], whole)
  {
    if whole.Some? { assert [] + whole.value == whole.value; }
  }

  lemma EndOfImage(raw: seq<int>, prev: seq<int>, bpp: nat, whole: Option<seq<seq<int>>>, rows: seq<seq<int>>)
    requires bpp > 0 && Continues(whole, rows, Image(raw, prev, bpp, 0))
    ensures whole == Some(rows)
  {
    assert rows + [] == rows;
  }

  // --------------------------------------------------------------- row width

  /** Bytes per scanline as the packed width formula gives it. */
  function PackedWidth(channels: nat, x: nat, depth: nat): nat {
    (channels * x * depth + 7) / 8
  }

  /** The filter loop runs over exactly one packed scanline, the fewest bytes that hold its bits, for every bit depth. */
  lemma FilterCoversScanline(channels: nat, x: nat, depth: nat)
    requires depth == 1 || depth == 2 || depth == 4 || depth == 8 || depth == 16
    ensures var bytes := if depth == 16 then 2 else 1;
            var filterBytes := if depth < 8 then 1 else channels * bytes;
            var width := if depth < 8 then PackedWidth(channels, x, depth) else x;
            width * filterBytes == PackedWidth(channels, x, depth)
            && channels * x * depth <= 8 * PackedWidth(channels, x, depth) < channels * x * depth + 8
  {
    var n := channels * x;
    assert x * channels == n;
    if depth == 8 {
      assert (n * 8 + 7) / 8 == n;
    } else if depth == 16 {
      assert (n * 16 + 7) / 8 == n * 2;
      assert x * (channels * 2) == n * 2;
    }
  }
}
