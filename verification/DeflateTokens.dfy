/**
  What a DEFLATE block says, by section 3.2.5 of RFC 1951: literal bytes and copies of
  `len` bytes from `dist` back. The symbols' lengths and distances are given by the
  arithmetic behind the RFC's two tables, without the tables.
 */
module DeflateTokens {
  import opened Basics
  import opened Inflate
  import BitReverse

  datatype Token = Lit(b: Byte) | Copy(len: nat, dist: nat)

  // ---------------------------------------------------------------- meaning

  /** `len` bytes appended one by one, each the byte `dist` before it. */
  function Repeated(out: seq<Byte>, len: nat, dist: nat): (r: seq<Byte>)
    requires 0 < dist <= |out|
    ensures |r| == |out| + len && out <= r
    decreases len
  {
    if len == 0 then out
    else
      var r := Repeated(out, len - 1, dist);
      r + [r[|r| - dist]]
  }

  predicate Applies(out: seq<Byte>, t: Token) {
    t.Copy? ==> 3 <= t.len <= 258 && 1 <= t.dist <= 32768 && t.dist <= |out|
  }

  function Extend(out: seq<Byte>, t: Token): seq<Byte>
    requires Applies(out, t)
  {
    match t
    case Lit(b) => out + [b]
    case Copy(len, dist) => Repeated(out, len, dist)
  }

  /** The output after all tokens; none if one of them reaches back too far. */
  function Expansion(out: seq<Byte>, tokens: seq<Token>): Option<seq<Byte>> {
    if tokens == [] then Some(out)
    else
      var o := Expansion(out, tokens[..|tokens| - 1]);
      var t := tokens[|tokens| - 1];
      if o.Some? && Applies(o.value, t) then Some(Extend(o.value, t)) else None
  }

  /** A copy is the periodic match, and the other way round. */
  lemma {:induction false} RepeatedIsMatch(out: seq<Byte>, len: nat, dist: nat)
    requires 0 < dist <= |out|
    ensures Repeated(out, len, dist) == out + MatchBytes(out, dist, len)
    decreases len
  {
    if len > 0 {
      RepeatedIsMatch(out, len - 1, dist);
      var m, was := MatchBytes(out, dist, len), MatchBytes(out, dist, len - 1);
      assert m == was + [m[len - 1]];
      MatchIsPeriodic(out, dist, len, len - 1);
      assert (out + m)[..|out| + len - 1] == out + was;
    }
  }

  // ---------------------------------------------------------------- symbols

  predicate IsLength(z: int) { 257 <= z < 286 }

  predicate IsDistance(dz: int) { 0 <= dz < 30 }

  /** Extra bits of a length symbol: from 265 on one more for every four symbols, and none for the last. */
  function LengthBits(z: int): nat { if 265 <= z < 285 then (z - 261) / 4 else 0 }

  /** Extra bits of a distance symbol: from 4 on one more for every two symbols. */
  function DistBits(dz: int): nat { if 4 <= dz < 30 then dz / 2 - 1 else 0 }

  function LengthOf(z: int, extra: nat): nat
    requires IsLength(z)
  {
    if z < 265 then z - 254
    else if z == 285 then 258
    else 3 + (4 + (z - 257) % 4) * Span(LengthBits(z)) + extra
  }

  function DistOf(dz: int, dextra: nat): nat
    requires IsDistance(dz)
  {
    if dz < 4 then dz + 1 else 1 + (2 + dz % 2) * Span(DistBits(dz)) + dextra
  }

  /** The extra values are ones that the symbols' extra bits can hold. */
  predicate InRange(e: Event) {
    IsLength(e.z) ==> e.extra < Span(LengthBits(e.z)) && (IsDistance(e.dz) ==> e.dextra < Span(DistBits(e.dz)))
  }

  lemma LengthTable(z: int)
    requires IsLength(z)
    ensures LENGTH_EXTRA[z - 257] == LengthBits(z)
    ensures forall extra: nat :: extra < Span(LengthBits(z)) ==> LENGTH_BASE[z - 257] + extra == LengthOf(z, extra)
  {
    LengthExtras(z);
    if z < 272 { ShortLengths(z); } else { LongLengths(z); }
    Spans();
    hide Span, LENGTH_BASE;
  }

  lemma LengthExtras(z: int)
    requires IsLength(z)
    ensures LENGTH_EXTRA[z - 257] == LengthBits(z)
  {
  }

  lemma ShortLengths(z: int)
    requires 257 <= z < 272
    ensures LENGTH_BASE[z - 257] == LengthOf(z, 0)
  {
    hide Span;
    Spans();
  }

  lemma LongLengths(z: int)
    requires 272 <= z < 286
    ensures LENGTH_BASE[z - 257] == LengthOf(z, 0)
  {
    hide Span;
    Spans();
  }

  lemma DistTable(dz: int)
    requires IsDistance(dz)
    ensures DIST_EXTRA[dz] == DistBits(dz)
    ensures forall dextra: nat :: dextra < Span(DistBits(dz)) ==> DIST_BASE[dz] + dextra == DistOf(dz, dextra)
  {
    DistExtras(dz);
    if dz < 12 { ShortDists(dz); } else if dz < 21 { MiddleDists(dz); } else { LongDists(dz); }
    hide Span, DIST_BASE;
  }

  lemma DistExtras(dz: int)
    requires IsDistance(dz)
    ensures DIST_EXTRA[dz] == DistBits(dz)
  {
  }

  lemma ShortDists(dz: int)
    requires 0 <= dz < 12
    ensures DIST_BASE[dz] == DistOf(dz, 0)
  {
    hide Span;
    Spans();
  }

  lemma MiddleDists(dz: int)
    requires 12 <= dz < 21
    ensures DIST_BASE[dz] == DistOf(dz, 0)
  {
    hide Span;
    Spans();
  }

  lemma LongDists(dz: int)
    requires 21 <= dz < 30
    ensures DIST_BASE[dz] == DistOf(dz, 0)
  {
    hide Span;
    Spans();
  }

  // ------------------------------------------------------ symbols and tokens

  /** What a symbol that is not the end symbol says. */
  function TokenOf(e: Event): Option<Token> {
    if 0 <= e.z < 256 then Some(Lit(e.z as Byte))
    else if IsLength(e.z) && IsDistance(e.dz) then Some(Copy(LengthOf(e.z, e.extra), DistOf(e.dz, e.dextra)))
    else None
  }

  lemma LengthsBounded(z: int, extra: nat)
    requires IsLength(z) && extra < Span(LengthBits(z))
    ensures 3 <= LengthOf(z, extra) <= 258
  {
    hide Span;
    Spans();
  }

  lemma DistsBounded(dz: int, dextra: nat)
    requires IsDistance(dz) && dextra < Span(DistBits(dz))
    ensures 1 <= DistOf(dz, dextra) <= 32768
  {
    hide Span;
    Spans();
  }

  /**
    A symbol goes on exactly if it says a token that applies, and then extends the output by it.
    The end symbol ends the block. Everything else is corrupt.
   */
  lemma AfterIsToken(out: seq<Byte>, e: Event)
    requires InRange(e)
    ensures After(out, e).Going? <==> TokenOf(e).Some? && Applies(out, TokenOf(e).value)
    ensures After(out, e).Going? ==> After(out, e).out == Extend(out, TokenOf(e).value) && |After(out, e).out| == |out| + Needed(e)
    ensures After(out, e).Done? <==> e.z == 256 && !e.overrun
    ensures After(out, e).Done? ==> After(out, e).out == out
  {
    if IsLength(e.z) && IsDistance(e.dz) {
      MatchIsToken(out, e);
    } else {
      hide AfterMatch, LENGTH_BASE, LengthOf, DistOf, LengthBits, DistBits, Span, Repeated;
      NoDistance(out, e);
    }
  }

  lemma NoDistance(out: seq<Byte>, e: Event)
    ensures IsLength(e.z) && !IsDistance(e.dz) ==> After(out, e) == Corrupt
  {
    hide LENGTH_BASE, DIST_BASE, MatchBytes;
  }

  lemma MatchIsToken(out: seq<Byte>, e: Event)
    requires IsLength(e.z) && IsDistance(e.dz) && InRange(e)
    ensures var t := Copy(LengthOf(e.z, e.extra), DistOf(e.dz, e.dextra));
            After(out, e) == if Applies(out, t) then Going(Extend(out, t)) else Corrupt
  {
    hide LENGTH_BASE, DIST_BASE, LengthOf, DistOf, LengthBits, DistBits, Span, Repeated, MatchBytes;
    LengthTable(e.z);
    DistTable(e.dz);
    LengthsBounded(e.z, e.extra);
    DistsBounded(e.dz, e.dextra);
    var len, dist := LengthOf(e.z, e.extra), DistOf(e.dz, e.dextra);
    assert After(out, e) == AfterMatch(out, len, e.dz, e.dextra);
    if dist <= |out| { RepeatedIsMatch(out, len, dist); }
  }

  /** The symbol and extra value that say a length. */
  function LengthSymbol(len: nat): (s: (int, nat))
    requires 3 <= len <= 258
    ensures IsLength(s.0) && s.1 < Span(LengthBits(s.0)) && LengthOf(s.0, s.1) == len
  {
    Spans();
    if len < 11 then (len + 254, 0)
    else if len == 258 then (285, 0)
    else
      var d := len - 3;
      var g := if d < 16 then 1 else if d < 32 then 2 else if d < 64 then 3 else if d < 128 then 4 else 5;
      LengthGroup(d, g);
      (257 + 4 * g + d / Span(g), d % Span(g))
  }

  lemma LengthGroup(d: nat, g: nat)
    requires 1 <= g <= 5 && 4 * Span(g) <= d < 8 * Span(g)
    ensures var z := 257 + 4 * g + d / Span(g);
            265 <= z && (g < 5 || d < 255 ==> z < 285) && (265 <= z < 285 ==> LengthOf(z, d % Span(g)) == d + 3 && LengthBits(z) == g)
  {
    Spans();
    hide Span;
  }

  /** The symbol and extra value that say a distance. */
  function DistSymbol(dist: nat): (s: (int, nat))
    requires 1 <= dist <= 32768
    ensures IsDistance(s.0) && s.1 < Span(DistBits(s.0)) && DistOf(s.0, s.1) == dist
  {
    Spans();
    if dist < 5 then (dist - 1, 0)
    else
      var g := Magnitude(dist - 1, 1);
      DistGroup(dist - 1, g);
      (2 * g + (dist - 1) / Span(g), (dist - 1) % Span(g))
  }

  function Magnitude(d: nat, from: nat): (g: nat)
    requires 1 <= from <= 13 && 2 * Span(from) <= d < 32768
    ensures from <= g <= 13 && 2 * Span(g) <= d < 4 * Span(g)
    decreases 13 - from
  {
    Spans();
    if d < 4 * Span(from) then from else Magnitude(d, from + 1)
  }

  lemma DistGroup(d: nat, g: nat)
    requires 1 <= g <= 13 && 2 * Span(g) <= d < 4 * Span(g)
    ensures var dz := 2 * g + d / Span(g);
            4 <= dz < 30 && DistBits(dz) == g && DistOf(dz, d % Span(g)) == d + 1
  {
    Spans();
    hide Span;
  }

  /** The symbols that say a token. */
  function EventOf(t: Token): (e: Event)
    requires t.Copy? ==> 3 <= t.len <= 258 && 1 <= t.dist <= 32768
    ensures InRange(e) && TokenOf(e) == Some(t)
  {
    match t
    case Lit(b) => Event(b as int, 0, -1, 0, false)
    case Copy(len, dist) =>
      var l, d := LengthSymbol(len), DistSymbol(dist);
      Event(l.0, l.1, d.0, d.1, false)
  }

  /** A distance has one spelling, and a length one apart from 258. */
  lemma OneSpelling(e: Event, f: Event)
    requires InRange(e) && InRange(f) && TokenOf(e).Some? && TokenOf(e) == TokenOf(f)
    ensures e.z == f.z || (TokenOf(e).value.Copy? && TokenOf(e).value.len == 258)
    ensures IsLength(e.z) ==> e.dz == f.dz && e.dextra == f.dextra && (e.z == f.z ==> e.extra == f.extra)
  {
    if IsLength(e.z) {
      OneLength(e.z, e.extra, f.z, f.extra);
      OneDist(e.dz, e.dextra, f.dz, f.dextra);
    }
  }

  lemma OneLength(z: int, x: nat, y: int, v: nat)
    requires IsLength(z) && IsLength(y) && x < Span(LengthBits(z)) && v < Span(LengthBits(y)) && LengthOf(z, x) == LengthOf(y, v)
    ensures (z == y && x == v) || LengthOf(z, x) == 258
  {
    Spans();
    hide Span;
  }

  lemma OneDist(z: int, x: nat, y: int, v: nat)
    requires IsDistance(z) && IsDistance(y) && x < Span(DistBits(z)) && v < Span(DistBits(y)) && DistOf(z, x) == DistOf(y, v)
    ensures z == y && x == v
  {
    DistTable(z);
    DistTable(y);
    if z < y { DistsApart(z, y); }
    if y < z { DistsApart(y, z); }
    hide Span, DIST_BASE, DIST_EXTRA, DistBits, DistOf;
  }

  /** A larger distance symbol says larger distances. */
  lemma {:induction false} DistsApart(z: nat, y: nat)
    requires z < y < 30
    ensures DIST_BASE[z] + Span(DIST_EXTRA[z]) <= DIST_BASE[y]
    decreases y
  {
    hide Span, DIST_BASE, DIST_EXTRA;
    DistancesTile(y - 1);
    if z < y - 1 { DistsApart(z, y - 1); }
  }

  // -------------------------------------------------------------- whole runs

  /** The tokens that the symbols before the end say. */
  function TokensOf(events: seq<Event>): (ts: Option<seq<Token>>) {
    if events == [] then Some([])
    else
      var init, t := TokensOf(events[..|events| - 1]), TokenOf(events[|events| - 1]);
      if init.Some? && t.Some? then Some(init.value + [t.value]) else None
  }

  /** The tokens are ones the format has. */
  predicate InFormat(ts: seq<Token>) {
    forall i :: 0 <= i < |ts| ==> ts[i].Copy? ==> 3 <= ts[i].len <= 258 && 1 <= ts[i].dist <= 32768
  }

  /** A spelling of the tokens. */
  function EventsOf(ts: seq<Token>): (es: seq<Event>)
    requires InFormat(ts)
    ensures TokensOf(es) == Some(ts)
  {
    if ts == [] then []
    else
      var init, e := EventsOf(ts[..|ts| - 1]), EventOf(ts[|ts| - 1]);
      assert (init + [e])[..|init|] == init;
      assert ts == ts[..|ts| - 1] + [ts[|ts| - 1]];
      init + [e]
  }

  ghost predicate AllInRange(events: seq<Event>) {
    forall i :: 0 <= i < |events| ==> InRange(events[i])
  }

  /** Symbols that go on say tokens, and their output is the tokens' expansion. */
  lemma {:induction false} AfterAllIsExpansion(out: seq<Byte>, events: seq<Event>)
    requires AllInRange(events)
    ensures AfterAll(out, events).Going? <==> TokensOf(events).Some? && Expansion(out, TokensOf(events).value).Some?
    ensures AfterAll(out, events).Going? ==> Expansion(out, TokensOf(events).value) == Some(AfterAll(out, events).out)
    decreases |events|
  {
    if events != [] {
      var init, e := events[..|events| - 1], events[|events| - 1];
      AfterAllIsExpansion(out, init);
      hide After, TokenOf, InRange, Applies, Extend;
      if AfterAll(out, init).Going? { AfterIsToken(AfterAll(out, init).out, e); }
      if TokensOf(events).Some? {
        var ts := TokensOf(events).value;
        assert ts[..|ts| - 1] == TokensOf(init).value;
      }
    }
  }
}
