/** The decoder of one DEFLATE block: literals and back references into a growing output buffer. */
module Inflate {
  import opened Basics
  import BitReverse

  const UINT_MAX: nat := 0xFFFF_FFFF

  // ------------------------------------------------------------------- tables

  const LENGTH_BASE: seq<nat> := [3, 4, 5, 6, 7, 8, 9, 10, 11, 13, 15, 17, 19, 23, 27, 31, 35, 43, 51, 59,
                                  67, 83, 99, 115, 131, 163, 195, 227, 258]
  const LENGTH_EXTRA: seq<nat> := [0, 0, 0, 0, 0, 0, 0, 0, 1, 1, 1, 1, 2, 2, 2, 2, 3, 3, 3, 3, 4, 4, 4, 4, 5, 5, 5, 5, 0]
  const DIST_BASE: seq<nat> := [1, 2, 3, 4, 5, 7, 9, 13, 17, 25, 33, 49, 65, 97, 129, 193, 257, 385, 513, 769,
                                1025, 1537, 2049, 3073, 4097, 6145, 8193, 12289, 16385, 24577]
  const DIST_EXTRA: seq<nat> := [0, 0, 0, 0, 1, 1, 2, 2, 3, 3, 4, 4, 5, 5, 6, 6, 7, 7, 8, 8, 9, 9, 10, 10, 11, 11, 12, 12, 13, 13]

  /** Number of values `n` extra bits can add. */
  function Span(n: nat): nat { BitReverse.Pow2(n) }

  lemma LengthPositive(i: nat)
    requires i < 29
    ensures LENGTH_BASE[i] >= 3
  {
  }

  lemma DistPositive(i: nat)
    requires i < 30
    ensures DIST_BASE[i] >= 1
  {
  }

  /** Length symbols with their extra bits cover 3 .. 258 without a gap; only 258 has two spellings. */
  lemma LengthsTile(i: nat)
    requires i < 28
    ensures LENGTH_BASE[0] == 3 && LENGTH_BASE[28] == 258 && LENGTH_EXTRA[28] == 0
    ensures i < 27 ==> LENGTH_BASE[i + 1] == LENGTH_BASE[i] + Span(LENGTH_EXTRA[i])
    ensures i == 27 ==> LENGTH_BASE[i] + Span(LENGTH_EXTRA[i]) == 259
  {
    hide Span;
    Spans();
  }

  /** Distance symbols with their extra bits cover 1 .. 32768, each once. */
  lemma DistancesTile(i: nat)
    requires i < 30
    ensures DIST_BASE[0] == 1
    ensures i < 29 ==> DIST_BASE[i + 1] == DIST_BASE[i] + Span(DIST_EXTRA[i])
    ensures i == 29 ==> DIST_BASE[i] + Span(DIST_EXTRA[i]) == 32769
  {
    hide Span;
    Spans();
  }

  lemma Spans()
    ensures Span(0) == 1 && Span(1) == 2 && Span(2) == 4 && Span(3) == 8 && Span(4) == 16 && Span(5) == 32 && Span(6) == 64
    ensures Span(7) == 128 && Span(8) == 256 && Span(9) == 512 && Span(10) == 1024 && Span(11) == 2048
    ensures Span(12) == 4096 && Span(13) == 8192
  {
    BitReverse.Pow2Values();
    assert BitReverse.Pow2(13) == 2 * BitReverse.Pow2(12);
  }

  // ---------------------------------------------------------------- reference

  /** The bytes of a match: the last `dist` bytes, repeated as often as needed. */
  function MatchBytes(out: seq<Byte>, dist: nat, len: nat): (m: seq<Byte>)
    requires 0 < dist <= |out|
    ensures |m| == len
  {
    seq(len, k requires 0 <= k < len => RepeatedByte(out, dist, k))
  }

  function RepeatedByte(out: seq<Byte>, dist: nat, k: nat): Byte
    requires 0 < dist <= |out|
  {
    out[|out| - dist + k % dist]
  }

  /**
    What the entropy decoder delivers for one symbol: the literal/length symbol (negative when
    no code matched), its extra bits, the distance symbol, its extra bits, and, for the end
    symbol, whether bits past the end of the input were consumed.
   */
  datatype Event = Event(z: int, extra: nat, dz: int, dextra: nat, overrun: bool)

  datatype Outcome = Going(out: seq<Byte>) | Done(out: seq<Byte>) | Corrupt

  /** One symbol applied to the output so far. */
  function After(out: seq<Byte>, e: Event): Outcome {
    if e.z < 0 then Corrupt
    else if e.z < 256 then Going(out + [e.z as Byte])
    else if e.z == 256 then if e.overrun then Corrupt else Done(out)
    else if e.z >= 286 then Corrupt
    else AfterMatch(out, LENGTH_BASE[e.z - 257] + e.extra, e.dz, e.dextra)
  }

  /** A match of `len` bytes at the distance that the symbol `dz` and its extra bits give. */
  function AfterMatch(out: seq<Byte>, len: nat, dz: int, dextra: nat): Outcome {
    if dz < 0 || dz >= 30 then Corrupt
    else
      DistPositive(dz);
      var dist := DIST_BASE[dz] + dextra;
      if |out| < dist then Corrupt else Going(out + MatchBytes(out, dist, len))
  }

  function AfterAll(out: seq<Byte>, events: seq<Event>): Outcome
  {
    if events == [] then Going(out)
    else
      var o := AfterAll(out, events[..|events| - 1]);
      if o.Going? then After(o.out, events[|events| - 1]) else o
  }

  /** A match repeats with period `dist`: byte `k` of it equals the byte `dist` before it. */
  lemma MatchIsPeriodic(out: seq<Byte>, dist: nat, len: nat, k: nat)
    requires 0 < dist <= |out| && k < len
    ensures var all := out + MatchBytes(out, dist, len); all[|out| + k] == all[|out| + k - dist]
  {
    var all := out + MatchBytes(out, dist, len);
    if k < dist {
      BitReverse.DivUnique(k, dist, 0, k);
    } else {
      PeriodStep(k, dist);
      assert all[|out| + k - dist] == MatchBytes(out, dist, len)[k - dist];
    }
  }

  lemma PeriodStep(k: nat, dist: nat)
    requires 0 < dist <= k
    ensures k % dist == (k - dist) % dist
  {
    BitReverse.DivAdd(1, k - dist, dist);
  }

  // ------------------------------------------------------------------ growth

  /** The buffer size reached by doubling until `need` bytes fit; none past 32 bits. */
  function Grown(limit: nat, need: nat): (m: nat)
    requires 0 < limit
    ensures m != 0 ==> m >= need && m >= limit && m <= Max(limit, UINT_MAX)
    ensures m == 0 ==> need > UINT_MAX / 2
    ensures limit >= need ==> m == limit
    decreases if need > limit then need - limit else 0
  {
    if need <= limit then limit
    else if limit > UINT_MAX / 2 then 0
    else Grown(2 * limit, need)
  }

  /** The size is the least doubling of `limit` that holds `need`; there is none exactly if that one passes 32 bits. */
  lemma {:induction false} GrownIsDoubling(limit: nat, need: nat) returns (k: nat)
    requires 0 < limit
    ensures limit * Span(k) >= need && (k > 0 ==> limit * Span(k - 1) < need)
    ensures Grown(limit, need) == if k > 0 && limit * Span(k) > 0xFFFF_FFFF then 0 else limit * Span(k)
    decreases if need > limit then need - limit else 0
  {
    if need <= limit {
      k := 0;
    } else if limit > UINT_MAX / 2 {
      k := LeastDoubling(limit, need);
    } else {
      var j := GrownIsDoubling(2 * limit, need);
      k := j + 1;
      DoubledSpan(limit, j);
      if j > 0 { DoubledSpan(limit, j - 1); }
    }
  }

  lemma DoubledSpan(limit: nat, j: nat)
    ensures limit * Span(j + 1) == (2 * limit) * Span(j)
  {
    var p := Span(j);
    assert Span(j + 1) == 2 * p;
    hide Span;
    assert limit * (2 * p) == (2 * limit) * p;
  }

  lemma {:induction false} LeastDoubling(limit: nat, need: nat) returns (k: nat)
    requires 0 < limit
    ensures limit * Span(k) >= need && limit * Span(k) >= limit && (k > 0 ==> limit * Span(k - 1) < need)
    ensures need > limit ==> k > 0 && limit * Span(k) >= 2 * limit
    decreases if need > limit then need - limit else 0
  {
    if need <= limit {
      k := 0;
    } else {
      var j := LeastDoubling(2 * limit, need);
      k := j + 1;
      DoubledSpan(limit, j);
      if j > 0 { DoubledSpan(limit, j - 1); }
    }
  }

  function Max(a: nat, b: nat): nat { if a > b then a else b }

  /** The buffer is too short for `n` more bytes and may not, or cannot, be doubled far enough. */
  predicate CannotGrow(limit: nat, len: nat, n: nat, expandable: bool, memory: bool)
    requires 0 < limit
  {
    limit < len + n && !(expandable && memory && len + n <= UINT_MAX && Grown(limit, len + n) != 0)
  }

  /** Bytes a symbol adds to the output. */
  function Needed(e: Event): nat {
    if 257 <= e.z < 286 then LENGTH_BASE[e.z - 257] + e.extra else 1
  }

  datatype Status = Finished | Malformed | NoMemory

  class Output {
    var buf: array<Byte>
    var len: nat
    const expandable: bool

    constructor (size: nat, expandable: bool)
      requires size > 0
      ensures Valid() && Contents() == [] && fresh(buf) && this.expandable == expandable
    {
      buf := new Byte[size](_ => 0);
      len, this.expandable := 0, expandable;
    }

    ghost predicate Valid()
      reads this
    {
      len <= buf.Length && 0 < buf.Length
    }

    ghost function Contents(): seq<Byte>
      reads this, buf
      requires Valid()
    {
      buf[..len]
    }

    /** Makes room for `n` more bytes by doubling; `memory` says whether the allocator had the new block. */
    method Expand(n: nat, memory: bool) returns (ok: bool)
      requires Valid()
      modifies this`buf
      ensures Valid() && Contents() == old(Contents())
      ensures ok ==> len + n <= buf.Length && (buf == old(buf) || fresh(buf))
      ensures !ok ==> buf == old(buf)
      ensures ok <==> expandable && memory && len + n <= 0xFFFF_FFFF && Grown(old(buf.Length), len + n) != 0
      ensures buf.Length <= Max(old(buf.Length), UINT_MAX)
    {
      if !expandable { return false; }
      if UINT_MAX - len < n { return false; }
      var limit := buf.Length;
      while len + n > limit
        invariant 0 < limit && limit >= buf.Length && Grown(limit, len + n) == Grown(buf.Length, len + n)
        decreases if len + n > limit then len + n - limit else 0
      {
        if limit > UINT_MAX / 2 { return false; }
        limit := limit * 2;
      }
      if !memory { return false; }
      Reallocate(limit);
      return true;
    }

    method Reallocate(limit: nat)
      requires Valid() && buf.Length <= limit
      modifies this`buf
      ensures Valid() && buf.Length == limit && fresh(buf) && Contents() == old(Contents())
    {
      var was := buf;
      var bigger := new Byte[limit](_ => 0);
      var k := 0;
      while k < len
        invariant 0 <= k <= len && bigger[..k] == was[..k] && buf == was && was[..] == old(buf[..])
      {
        bigger[k] := was[k];
        k := k + 1;
      }
      buf := bigger;
    }

    /** Copies a match, the common run of one byte on its own path. */
    method CopyMatch(n: nat, dist: nat)
      requires Valid() && 0 < dist <= len && len + n <= buf.Length
      modifies this`len, buf
      ensures Valid() && buf == old(buf) && Contents() == old(Contents()) + MatchBytes(old(Contents()), dist, n)
    {
      hide RepeatedByte;
      ghost var out := Contents();
      if dist == 1 { CopyRun(n, out); } else { CopyBytes(n, dist, out); }
      assert buf[..len] == out + MatchBytes(out, dist, n);
    }

    /** The first `i` bytes of the match are in place behind `out`. */
    ghost predicate Copying(out: seq<Byte>, dist: nat, i: nat)
      reads this, buf
      requires 0 < dist <= |out|
    {
      && len == |out| + i <= buf.Length
      && (forall k {:trigger buf[k]} :: 0 <= k < |out| ==> buf[k] == out[k])
      && (forall k {:trigger RepeatedByte(out, dist, k)} :: 0 <= k < i ==> buf[|out| + k] == RepeatedByte(out, dist, k))
    }

    method CopyRun(n: nat, ghost out: seq<Byte>)
      requires Valid() && 0 < len && len + n <= buf.Length && out == Contents()
      modifies this`len, buf
      ensures buf == old(buf) && Copying(out, 1, n)
    {
      var v := buf[len - 1];
      for i := 0 to n
        invariant buf == old(buf) && Copying(out, 1, i)
      {
        SourceByte(out, 1, i);
        RunByte(out, i);
        hide RepeatedByte;
        buf[len] := v;
        len := len + 1;
      }
    }

    method CopyBytes(n: nat, dist: nat, ghost out: seq<Byte>)
      requires Valid() && 0 < dist <= len && len + n <= buf.Length && out == Contents()
      modifies this`len, buf
      ensures buf == old(buf) && Copying(out, dist, n)
    {
      hide RepeatedByte;
      var p := len - dist;
      for i := 0 to n
        invariant buf == old(buf) && p == |out| - dist + i && Copying(out, dist, i)
      {
        SourceByte(out, dist, i);
        assert i >= dist ==> buf[p] == buf[|out| + (i - dist)] == RepeatedByte(out, dist, i - dist);
        buf[len] := buf[p];
        len, p := len + 1, p + 1;
      }
    }

    /** Room for `n` more bytes, growing if there is none. */
    method Reserve(n: nat, memory: bool) returns (ok: bool)
      requires Valid()
      modifies this`buf
      ensures Valid() && Contents() == old(Contents())
      ensures ok ==> len + n <= buf.Length && (buf == old(buf) || fresh(buf))
      ensures !ok ==> buf == old(buf) && CannotGrow(old(buf.Length), len, n, expandable, memory)
      ensures buf.Length <= Max(old(buf.Length), UINT_MAX)
    {
      if n > buf.Length - len {
        ok := Expand(n, memory);
      } else {
        ok := true;
      }
    }

    /** One literal. */
    method Append(b: Byte)
      requires Valid() && len < buf.Length
      modifies this`len, buf
      ensures Valid() && buf == old(buf) && Contents() == old(Contents()) + [b]
    {
      ghost var out := Contents();
      buf[len] := b;
      len := len + 1;
      assert buf[..len] == out + [b];
    }

    /** One symbol; the buffer grows when it must. */
    method Apply(e: Event, memory: bool) returns (going: bool, status: Status)
      requires Valid()
      modifies this, buf
      ensures Valid() && (buf == old(buf) || fresh(buf)) && buf.Length <= Max(old(buf.Length), UINT_MAX)
      ensures going ==> After(old(Contents()), e) == Going(Contents()) && len > old(len)
      ensures !going && status == Finished ==> After(old(Contents()), e) == Done(Contents())
      ensures !going && status == Malformed ==> After(old(Contents()), e) == Corrupt
      ensures !going && status == NoMemory ==> Contents() == old(Contents()) && After(old(Contents()), e).Going?
      ensures !going && status == NoMemory ==> CannotGrow(buf.Length, len, Needed(e), expandable, memory)
    {
      hide MatchBytes, Grown, AfterMatch, CannotGrow;
      going, status := false, Malformed;
      if e.z < 0 { return; }
      if e.z < 256 {
        var ok := Reserve(1, memory);
        if !ok { return false, NoMemory; }
        Append(e.z as Byte);
        return true, Finished;
      }
      if e.z == 256 {
        if e.overrun { return; }
        return false, Finished;
      }
      if e.z >= 286 { return; }
      LengthPositive(e.z - 257);
      going, status := AppendMatch(LENGTH_BASE[e.z - 257] + e.extra, e.dz, e.dextra, memory);
    }

    /** One match. */
    method AppendMatch(n: nat, dz: int, dextra: nat, memory: bool) returns (going: bool, status: Status)
      requires Valid() && n > 0
      modifies this, buf
      ensures Valid() && (buf == old(buf) || fresh(buf)) && buf.Length <= Max(old(buf.Length), UINT_MAX)
      ensures going ==> AfterMatch(old(Contents()), n, dz, dextra) == Going(Contents()) && len > old(len)
      ensures !going ==> status != Finished
      ensures !going && status == Malformed ==> AfterMatch(old(Contents()), n, dz, dextra) == Corrupt
      ensures !going && status == NoMemory ==> Contents() == old(Contents()) && AfterMatch(old(Contents()), n, dz, dextra).Going?
      ensures !going && status == NoMemory ==> CannotGrow(buf.Length, len, n, expandable, memory)
    {
      hide MatchBytes, Grown;
      if dz < 0 || dz >= 30 { return false, Malformed; }
      DistPositive(dz);
      var dist := DIST_BASE[dz] + dextra;
      if len < dist { return false, Malformed; }
      var ok := Reserve(n, memory);
      if !ok { return false, NoMemory; }
      CopyMatch(n, dist);
      return true, Finished;
    }
  }

  lemma RunByte(out: seq<Byte>, i: nat)
    requires out != []
    ensures RepeatedByte(out, 1, i) == out[|out| - 1]
  {
  }

  lemma SourceByte(out: seq<Byte>, dist: nat, i: nat)
    requires 0 < dist <= |out|
    ensures i < dist ==> RepeatedByte(out, dist, i) == out[|out| - dist + i]
    ensures i >= dist ==> RepeatedByte(out, dist, i) == RepeatedByte(out, dist, i - dist)
  {
    if i < dist { BitReverse.DivUnique(i, dist, 0, i); } else { PeriodStep(i, dist); }
  }
}
