/**
  The DEFLATE decoding tables: a 512-entry table indexed by the next nine bits
  for short codes, and per-length limits for a search over longer ones.
 */
module Huffman {
  import opened BitReverse
  import opened HuffmanCode

  const FAST_BITS: nat := 9
  const FAST_SIZE: nat := 512

  // ---------------------------------------------------------- table contents

  ghost predicate LevelsOk(l: seq<nat>, n: nat, firstcode: seq<nat>, maxcode: seq<nat>, firstsymbol: seq<nat>) {
    && |firstcode| == 16 && |maxcode| == 17 && |firstsymbol| == 16 && n <= 16
    && forall s {:trigger firstcode[s]} {:trigger maxcode[s]} {:trigger firstsymbol[s]} :: 1 <= s < n ==>
         firstcode[s] == FirstCode(l, s) && maxcode[s] == Limit(l, s) && firstsymbol[s] == FirstSym(l, s)
  }

  /** Symbol `i` is stored at its rank. */
  predicate Stored(l: seq<nat>, i: nat, size: seq<nat>, value: seq<nat>)
    requires i < |l|
  {
    l[i] > 0 ==> Rank(l, i) < |size| && Rank(l, i) < |value| && size[Rank(l, i)] == l[i] && value[Rank(l, i)] == i
  }

  ghost predicate SymbolsOk(l: seq<nat>, n: nat, size: seq<nat>, value: seq<nat>) {
    && |size| == SYMBOLS && |value| == SYMBOLS && n <= |l|
    && forall i {:trigger Stored(l, i, size, value)} :: 0 <= i < n ==> Stored(l, i, size, value)
  }

  /** Index `w` starts, least significant bit first, with the code of symbol `i`. */
  predicate FastHit(l: seq<nat>, i: nat, w: nat)
    requires i < |l|
  {
    0 < l[i] <= FAST_BITS && w % Pow2(l[i]) == Rev(Code(l, i), l[i])
  }

  function FastValue(l: seq<nat>, i: nat): nat
    requires i < |l|
  {
    l[i] * 512 + i
  }

  /** The entry for index `w` after the first `n` symbols were entered. */
  function FastEntry(l: seq<nat>, n: nat, w: nat): nat
    requires n <= |l|
  {
    if n == 0 then 0 else if FastHit(l, n - 1, w) then FastValue(l, n - 1) else FastEntry(l, n - 1, w)
  }

  ghost predicate FastOk(l: seq<nat>, n: nat, fast: seq<nat>) {
    && |fast| == FAST_SIZE && n <= |l|
    && forall w {:trigger fast[w]} :: 0 <= w < FAST_SIZE ==> fast[w] == FastEntry(l, n, w)
  }

  ghost predicate TableOk(l: seq<nat>, fast: seq<nat>, firstcode: seq<nat>, maxcode: seq<nat>, firstsymbol: seq<nat>,
                          size: seq<nat>, value: seq<nat>) {
    && LensOk(l) && Fits(l)
    && LevelsOk(l, 16, firstcode, maxcode, firstsymbol) && maxcode[16] == 65536
    && SymbolsOk(l, |l|, size, value)
    && FastOk(l, |l|, fast)
  }

  // ------------------------------------------------------------- fast lookup

  lemma ModOfMod(x: nat, a: nat, b: nat)
    requires a > 0 && b > 0
    ensures a * b > 0 && (x % (a * b)) % a == x % a
  {
    var q, r := x / (a * b), x % (a * b);
    assert x == q * (a * b) + r;
    assert q * (a * b) == (q * b) * a;
    DivAdd(q * b, r, a);
  }

  /** The nine-bit index hits a symbol exactly when its code starts the window. */
  lemma FastHitIsMatch(l: seq<nat>, i: nat, buffer: nat)
    requires LensOk(l) && Fits(l) && i < |l| && 0 < l[i] <= FAST_BITS
    ensures FastHit(l, i, buffer % FAST_SIZE) <==> Matches(l, i, Rev(buffer, 16))
  {
    var s := l[i];
    var c := Code(l, i);
    CodeBelowEnd(l, i);
    CountBelow(l, s, i, |l|);
    assert c < Pow2(s);
    Pow2Add(s, FAST_BITS - s);
    Pow2Values();
    ModOfMod(buffer, Pow2(s), Pow2(FAST_BITS - s));
    hide Code, Pow2;
    RevTop(buffer, 16, s);
    RevLow(buffer, s);
    var w := buffer % Pow2(s);
    RevRev(c, s);
    RevRev(w, s);
  }

  /** A non-zero entry names a symbol it hits; a zero entry means no symbol is hit. */
  lemma {:induction false} FastEntryHits(l: seq<nat>, n: nat, w: nat)
    requires n <= |l| && LensOk(l)
    ensures var e := FastEntry(l, n, w);
            && (e == 0 ==> forall i :: 0 <= i < n ==> !FastHit(l, i, w))
            && (e != 0 ==> e % 512 < n && FastHit(l, e % 512, w) && e / 512 == l[e % 512])
    decreases n
  {
    if n > 0 {
      FastEntryHits(l, n - 1, w);
      FastValueParts(l, n - 1);
      assert FastHit(l, n - 1, w) ==> l[n - 1] > 0;
      hide FastHit, LensOk, FastValue;
    }
  }

  lemma FastValueParts(l: seq<nat>, i: nat)
    requires i < |l| && LensOk(l)
    ensures FastValue(l, i) % 512 == i && FastValue(l, i) / 512 == l[i] && (l[i] > 0 ==> FastValue(l, i) != 0)
  {
  }

  // ------------------------------------------------------------ building

  lemma RankOfNext(l: seq<nat>, n: nat, size: seq<nat>, value: seq<nat>)
    requires LensOk(l) && n < |l| && l[n] > 0 && SymbolsOk(l, n, size, value)
    ensures Rank(l, n) < SYMBOLS
    ensures SymbolsOk(l, n + 1, size[Rank(l, n) := l[n]], value[Rank(l, n) := n])
  {
    RankBounded(l, n);
    var size', value' := size[Rank(l, n) := l[n]], value[Rank(l, n) := n];
    forall i | 0 <= i < n + 1
      ensures Stored(l, i, size', value')
    {
      if i < n {
        assert Stored(l, i, size, value);
        if l[i] > 0 { RankInjective(l, i, n); }
      }
    }
  }

  lemma SkipsNext(l: seq<nat>, n: nat, size: seq<nat>, value: seq<nat>)
    requires n < |l| && l[n] == 0 && SymbolsOk(l, n, size, value)
    ensures SymbolsOk(l, n + 1, size, value)
  {
    forall i | 0 <= i < n + 1
      ensures Stored(l, i, size, value)
    {
    }
  }

  /** Entries below `j` that are congruent to `r` modulo `m` have been set. */
  ghost predicate Striped(before: seq<nat>, now: seq<nat>, m: nat, r: nat, v: nat, j: nat) {
    && m > 0 && |now| == |before|
    && forall w {:trigger now[w]} :: 0 <= w < |now| ==> now[w] == if w < j && w % m == r then v else before[w]
  }

  lemma StripeStep(before: seq<nat>, now: seq<nat>, m: nat, r: nat, v: nat, j: nat)
    requires Striped(before, now, m, r, v, j) && j < |now| && j % m == r
    ensures Striped(before, now[j := v], m, r, v, j + m) && (j + m) % m == r
  {
    StrideHasNoOther(m, r, j);
  }

  lemma StrideHasNoOther(m: nat, r: nat, j: nat)
    requires m > 0 && j % m == r
    ensures (j + m) % m == r
    ensures forall w :: j < w < j + m ==> w % m != r
  {
    DivAdd(1, j, m);
    var q := j / m;
    assert j == q * m + r;
    forall w | j < w < j + m
      ensures w % m != r
    {
      if w % m == r {
        var p := w / m;
        assert w == p * m + r;
        if p > q { MulGap(q, p, m); } else { MulLe(p, q, m); }
      }
    }
  }

  lemma NothingStriped(before: seq<nat>, m: nat, r: nat, v: nat)
    requires m > 0 && r < m
    ensures Striped(before, before, m, r, v, r) && r % m == r
  {
    DivUnique(r, m, 0, r);
    forall w: nat | w < r
      ensures w % m != r
    {
      DivUnique(w, m, 0, w);
    }
  }

  lemma StripedIsFast(l: seq<nat>, n: nat, before: seq<nat>, now: seq<nat>, j: nat)
    requires n < |l| && 0 < l[n] <= FAST_BITS && FastOk(l, n, before) && j >= FAST_SIZE
    requires Striped(before, now, Pow2(l[n]), Rev(Code(l, n), l[n]), FastValue(l, n), j)
    ensures FastOk(l, n + 1, now)
  {
    hide Rev, Code, Pow2;
  }

  lemma UnstripedIsFast(l: seq<nat>, n: nat, fast: seq<nat>)
    requires n < |l| && !(0 < l[n] <= FAST_BITS) && FastOk(l, n, fast)
    ensures FastOk(l, n + 1, fast)
  {
    hide Rev, Code, Pow2;
  }

  // ------------------------------------------------------------------ tables

  /** The result of decoding the window `k`: the one symbol whose code it starts with, or none. */
  ghost predicate Decoded(l: seq<nat>, k: nat, symbol: int, used: nat)
    requires LensOk(l)
  {
    if symbol < 0 then symbol == -1 && used == 0 && forall i: nat :: !Matches(l, i, k)
    else Matches(l, symbol, k) && used == l[symbol]
  }

  lemma FastDecodes(l: seq<nat>, fast: seq<nat>, buffer: nat)
    requires LensOk(l) && Fits(l) && FastOk(l, |l|, fast)
    ensures var e := fast[buffer % 512];
            && (e != 0 ==> Decoded(l, Rev(buffer, 16), e % 512, e / 512))
            && (e == 0 ==> forall i: nat :: Matches(l, i, Rev(buffer, 16)) ==> l[i] > FAST_BITS)
  {
    var w := buffer % 512;
    var e := fast[w];
    assert e == FastEntry(l, |l|, w);
    FastEntryHits(l, |l|, w);
    hide FastHit, FastEntry, Rev, Code, Pow2;
    if e != 0 {
      HitIsShort(l, e % 512, w);
      FastHitIsMatch(l, e % 512, buffer);
    } else {
      forall i: nat | Matches(l, i, Rev(buffer, 16))
        ensures l[i] > FAST_BITS
      {
        if l[i] <= FAST_BITS { FastHitIsMatch(l, i, buffer); }
      }
    }
  }

  lemma HitIsShort(l: seq<nat>, i: nat, w: nat)
    requires i < |l| && FastHit(l, i, w)
    ensures 0 < l[i] <= FAST_BITS
  {
  }

  /** A window no short code starts lies above the limit for nine bits. */
  lemma MissedByFast(l: seq<nat>, k: nat, s: nat)
    requires LensOk(l) && s <= FAST_BITS && forall i: nat :: Matches(l, i, k) ==> l[i] > FAST_BITS
    ensures Limit(l, s) <= k
    decreases s
  {
    if s > 0 {
      MissedByFast(l, k, s - 1);
      if k < Limit(l, s) {
        var i := BetweenLimitsMatch(l, s, k);
      }
    } else {
      assert Limit(l, 0) == 0;
    }
  }

  /** The length found by the search over limits gives the symbol. */
  lemma SlowDecodes(l: seq<nat>, s: nat, k: nat, size: seq<nat>, value: seq<nat>)
    requires LensOk(l) && 1 <= s <= MAX_BITS && Limit(l, s - 1) <= k < Limit(l, s)
    requires SymbolsOk(l, |l|, size, value)
    ensures FirstCode(l, s) <= k / Pow2(16 - s)
    ensures var b := k / Pow2(16 - s) - FirstCode(l, s) + FirstSym(l, s);
            b < SYMBOLS && size[b] == s && Decoded(l, k, value[b], s)
  {
    var i := BetweenLimitsMatch(l, s, k);
    RankBounded(l, i);
    assert Stored(l, i, size, value);
  }

  /** Beyond the last limit no code starts the window. */
  lemma NoCodeBeyond(l: seq<nat>, k: nat)
    requires LensOk(l) && Limit(l, MAX_BITS) <= k
    ensures forall i: nat :: !Matches(l, i, k)
  {
    forall i: nat
      ensures !Matches(l, i, k)
    {
      if Matches(l, i, k) {
        MatchBetweenLimits(l, i, k);
        LimitMonotone(l, l[i], MAX_BITS);
      }
    }
  }

  lemma CountsOfNothing(l: seq<nat>)
    ensures forall s :: Count(l, s, 0) == 0
  {
  }

  /** The per-length entries after one more length. */
  lemma LevelsGrow(l: seq<nat>, n: nat, firstcode: seq<nat>, maxcode: seq<nat>, firstsymbol: seq<nat>)
    requires LevelsOk(l, n, firstcode, maxcode, firstsymbol) && 1 <= n <= MAX_BITS
    ensures LevelsOk(l, n + 1, firstcode[n := FirstCode(l, n)], maxcode[n := Limit(l, n)], firstsymbol[n := FirstSym(l, n)])
  {
    hide FirstCode, FirstSym, Limit;
  }

  lemma FirstLevel(l: seq<nat>)
    ensures FirstCode(l, 1) == 0 && FirstSym(l, 1) == 0
  {
  }

  /** Arithmetic of one length: the next length starts where this one ends. */
  lemma LevelFacts(l: seq<nat>, i: nat)
    requires LensOk(l) && 1 <= i <= MAX_BITS && FitsBelow(l, i)
    ensures FirstCode(l, i) < 65536 && FirstSym(l, i) < 65536
    ensures FirstCode(l, i + 1) == (FirstCode(l, i) + Total(l, i)) * 2 && FirstSym(l, i + 1) == FirstSym(l, i) + Total(l, i)
    ensures Limit(l, i) == (FirstCode(l, i) + Total(l, i)) * Pow2(16 - i)
    ensures Total(l, i) == 0 || End(l, i) <= Pow2(i) ==> FitsBelow(l, i + 1)
  {
    hide FirstCode, FirstSym, Limit, Total, Pow2, FitsBelow;
    CodesStaySmall(l, i);
    SymbolsStaySmall(l, i);
    LevelUnfolds(l, i);
    LevelFits(l, i);
  }

  lemma LevelUnfolds(l: seq<nat>, i: nat)
    requires 1 <= i <= MAX_BITS
    ensures FirstCode(l, i + 1) == (FirstCode(l, i) + Total(l, i)) * 2 && FirstSym(l, i + 1) == FirstSym(l, i) + Total(l, i)
    ensures Limit(l, i) == (FirstCode(l, i) + Total(l, i)) * Pow2(16 - i)
  {
    hide Total, Pow2;
  }

  lemma LevelFits(l: seq<nat>, i: nat)
    requires 1 <= i <= MAX_BITS && FitsBelow(l, i)
    ensures Total(l, i) == 0 || End(l, i) <= Pow2(i) ==> FitsBelow(l, i + 1)
  {
    hide Total, Pow2, FirstCode;
  }

  lemma LevelOverflows(l: seq<nat>, i: nat)
    requires 1 <= i <= MAX_BITS && Total(l, i) > 0 && End(l, i) > Pow2(i)
    ensures !FitsBelow(l, 16)
  {
  }

  class ZHuffman {
    const fast: array<nat>
    const firstcode: array<nat>
    const maxcode: array<nat>
    const firstsymbol: array<nat>
    const size: array<nat>
    const value: array<nat>
    ghost var lens: seq<nat>

    /** The six buffers are distinct and have their fixed sizes. */
    ghost predicate Buffers() {
      && fast.Length == FAST_SIZE && firstcode.Length == 16 && maxcode.Length == 17 && firstsymbol.Length == 16
      && size.Length == SYMBOLS && value.Length == SYMBOLS
      && fast != firstcode && fast != maxcode && fast != firstsymbol && fast != size && fast != value
      && firstcode != maxcode && firstcode != firstsymbol && firstcode != size && firstcode != value
      && maxcode != firstsymbol && maxcode != size && maxcode != value
      && firstsymbol != size && firstsymbol != value && size != value
    }

    /** The buffers hold the tables for `lens`. */
    ghost predicate Valid()
      reads this, fast, firstcode, maxcode, firstsymbol, size, value
    {
      Buffers() && TableOk(lens, fast[..], firstcode[..], maxcode[..], firstsymbol[..], size[..], value[..])
    }

    constructor ()
      ensures Buffers() && fresh(fast) && fresh(firstcode) && fresh(maxcode) && fresh(firstsymbol) && fresh(size) && fresh(value)
    {
      fast, firstcode, maxcode := new nat[FAST_SIZE], new nat[16], new nat[17];
      firstsymbol, size, value := new nat[16], new nat[SYMBOLS], new nat[SYMBOLS];
    }

    /** Counts the symbols of each length. */
    static method CountSizes(sizelist: seq<nat>) returns (sizes: array<nat>)
      requires LensOk(sizelist)
      ensures fresh(sizes) && sizes.Length == 17
      ensures forall s :: 1 <= s <= MAX_BITS ==> sizes[s] == Total(sizelist, s)
    {
      sizes := new nat[17](_ => 0);
      CountsOfNothing(sizelist);
      var i := 0;
      while i < |sizelist|
        invariant 0 <= i <= |sizelist|
        invariant forall s :: 0 <= s < 17 ==> sizes[s] == Count(sizelist, s, i)
      {
        sizes[sizelist[i]] := sizes[sizelist[i]] + 1;
        i := i + 1;
      }
      sizes[0] := 0;
    }

    /** No length has more symbols than codes. */
    static method CheckSizes(sizes: array<nat>, ghost l: seq<nat>) returns (ok: bool)
      requires sizes.Length == 17 && forall s :: 1 <= s <= MAX_BITS ==> sizes[s] == Total(l, s)
      ensures ok <==> forall s :: 1 <= s <= MAX_BITS ==> Total(l, s) <= Pow2(s)
    {
      hide Total, Pow2;
      var i := 1;
      while i < 16
        invariant 1 <= i <= 16
        invariant forall s :: 1 <= s < i ==> Total(l, s) <= Pow2(s)
      {
        if sizes[i] > Pow2(i) { return false; }
        i := i + 1;
      }
      return true;
    }

    /** Fills the per-length tables; stops when a length runs out of codes. */
    method FillLevels(sizes: array<nat>, nextCode: array<nat>, ghost l: seq<nat>) returns (ok: bool)
      requires Buffers() && LensOk(l) && sizes.Length == 17 && nextCode.Length == 16
      requires nextCode != sizes && firstcode != sizes && maxcode != sizes && firstsymbol != sizes
      requires nextCode != firstcode && nextCode != maxcode && nextCode != firstsymbol
      requires forall s :: 1 <= s <= MAX_BITS ==> sizes[s] == Total(l, s)
      modifies firstcode, maxcode, firstsymbol, nextCode
      ensures ok <==> FitsBelow(l, 16)
      ensures ok ==> LevelsOk(l, 16, firstcode[..], maxcode[..], firstsymbol[..]) && maxcode[16] == 65536
      ensures ok ==> forall s :: 1 <= s <= MAX_BITS ==> nextCode[s] == FirstCode(l, s)
    {
      hide Count, Pow2, FirstSym, FirstCode, Limit;
      FirstLevel(l);
      var code, k, i := 0, 0, 1;
      while i < 16
        invariant 1 <= i <= 16 && code == FirstCode(l, i) && k == FirstSym(l, i) && FitsBelow(l, i)
        invariant LevelsOk(l, i, firstcode[..], maxcode[..], firstsymbol[..])
        invariant forall s :: 1 <= s < i ==> nextCode[s] == FirstCode(l, s)
      {
        LevelFacts(l, i);
        if sizes[i] != 0 && code + sizes[i] - 1 >= Pow2(i) {
          LevelOverflows(l, i);
          return false;
        }
        LevelsGrow(l, i, firstcode[..], maxcode[..], firstsymbol[..]);
        SetLevel(i, code, k, sizes[i], nextCode);
        code := (code + sizes[i]) * 2;
        k := k + sizes[i];
        i := i + 1;
      }
      ghost var m := maxcode[..];
      maxcode[16] := 65536;
      assert maxcode[..] == m[16 := 65536];
      return true;
    }

    /** The entries of one length; the 16-bit fields keep their values. */
    method SetLevel(i: nat, code: nat, k: nat, count: nat, nextCode: array<nat>)
      requires Buffers() && nextCode.Length == 16 && 1 <= i < 16 && code < 65536 && k < 65536
      requires nextCode != firstcode && nextCode != maxcode && nextCode != firstsymbol
      modifies firstcode, maxcode, firstsymbol, nextCode
      ensures nextCode[..] == old(nextCode[..])[i := code]
      ensures firstcode[..] == old(firstcode[..])[i := code] && firstsymbol[..] == old(firstsymbol[..])[i := k]
      ensures (code + count) * Pow2(16 - i) >= 0 && maxcode[..] == old(maxcode[..])[i := (code + count) * Pow2(16 - i)]
    {
      Product(code + count, Pow2(16 - i));
      hide Pow2;
      nextCode[i] := code;
      firstcode[i] := code % 65536;
      firstsymbol[i] := k % 65536;
      maxcode[i] := (code + count) * Pow2(16 - i);
    }

    /** Writes `v` to every entry of the fast table whose index ends in the reversed code. */
    method Stripe(start: nat, stride: nat, v: nat)
      requires fast.Length == FAST_SIZE && stride > 0 && start < stride
      modifies fast
      ensures exists j: nat :: j >= FAST_SIZE && Striped(old(fast[..]), fast[..], stride, start, v, j)
    {
      var j := start;
      NothingStriped(fast[..], stride, start, v);
      while j < FAST_SIZE
        invariant j % stride == start && Striped(old(fast[..]), fast[..], stride, start, v, j)
      {
        StripeStep(old(fast[..]), fast[..], stride, start, v, j);
        ghost var f := fast[..];
        fast[j] := v;
        assert fast[..] == f[j := v];
        j := j + stride;
      }
    }

    /** Enters symbol `n` with its next code. */
    method EnterSymbol(l: seq<nat>, n: nat, nextCode: array<nat>)
      requires Buffers() && LensOk(l) && n < |l| && nextCode.Length == 16
      requires nextCode != fast && nextCode != firstcode && nextCode != firstsymbol && nextCode != size && nextCode != value
      requires LevelsOk(l, 16, firstcode[..], maxcode[..], firstsymbol[..])
      requires NextCodes(l, n, nextCode[..]) && SymbolsOk(l, n, size[..], value[..]) && FastOk(l, n, fast[..])
      modifies fast, size, value, nextCode
      ensures NextCodes(l, n + 1, nextCode[..]) && SymbolsOk(l, n + 1, size[..], value[..]) && FastOk(l, n + 1, fast[..])
    {
      hide Count, Pow2, Rev, SymbolsOk, FastOk, FirstCode, FirstSym, LensOk, Striped;
      NextCodeOf(l, n, nextCode[..]);
      var s: nat := l[n];
      if s == 0 {
        SkipsNext(l, n, size[..], value[..]);
        UnstripedIsFast(l, n, fast[..]);
        return;
      }
      RankOfNext(l, n, size[..], value[..]);
      var c := nextCode[s] - firstcode[s] + firstsymbol[s];
      assert c == Rank(l, n);
      ghost var z, v := size[..], value[..];
      SymbolsShape(l, n, z, v);
      size[c] := s;
      value[c] := n;
      assert size[..] == z[c := s] && value[..] == v[c := n];
      if s <= FAST_BITS {
        BitReverseBitsIsRev(nextCode[s], s);
        ghost var f := fast[..];
        Stripe(BitReverseBits(nextCode[s], s), Pow2(s), s * 512 + n);
        ghost var j: nat :| j >= FAST_SIZE && Striped(f, fast[..], Pow2(s), Rev(nextCode[s], s), s * 512 + n, j);
        StripedIsFast(l, n, f, fast[..], j);
      } else {
        UnstripedIsFast(l, n, fast[..]);
      }
      ghost var x := nextCode[..];
      nextCode[s] := nextCode[s] + 1;
      assert nextCode[..] == x[s := x[s] + 1];
    }

    /** Builds the tables for the code lengths `sizelist`; refuses oversubscribed lists. */
    method Build(sizelist: seq<nat>) returns (ok: bool)
      requires Buffers() && LensOk(sizelist)
      modifies fast, firstcode, maxcode, firstsymbol, size, value, this`lens
      ensures ok <==> KraftSum(sizelist, |sizelist|) <= 65536
      ensures ok ==> Valid() && lens == sizelist
    {
      hide Count, Pow2, Rev, SymbolsOk, FastOk, KraftSum, FirstCode;
      ghost var l := sizelist;
      FitsIffKraft(l);
      var sizes := CountSizes(sizelist);
      forall w | 0 <= w < FAST_SIZE { fast[w] := 0; }
      var enough := CheckSizes(sizes, l);
      if !enough { return false; }
      var nextCode := new nat[16];
      var fits := FillLevels(sizes, nextCode, l);
      if !fits { return false; }
      NothingEntered(l, fast[..], size[..], value[..], nextCode[..]);
      ghost var f, m, y := firstcode[..], maxcode[..], firstsymbol[..];
      var i := 0;
      while i < |sizelist|
        invariant 0 <= i <= |sizelist|
        invariant firstcode[..] == f && maxcode[..] == m && firstsymbol[..] == y
        invariant NextCodes(l, i, nextCode[..]) && SymbolsOk(l, i, size[..], value[..]) && FastOk(l, i, fast[..])
      {
        EnterSymbol(sizelist, i, nextCode);
        i := i + 1;
      }
      lens := sizelist;
      return true;
    }

    /** Decodes the next symbol from the bit buffer, least significant bit first. */
    method Decode(buffer: nat) returns (symbol: int, used: nat)
      requires Valid()
      ensures Decoded(lens, Rev(buffer, 16), symbol, used)
    {
      hide Rev, Pow2, SymbolsOk, FastOk, Decoded, FirstCode, FirstSym, Limit, Matches;
      FastDecodes(lens, fast[..], buffer);
      assert fast[..][buffer % 512] == fast[buffer % 512];
      var b := fast[buffer % 512];
      if b != 0 {
        return b % 512, b / 512;
      }
      symbol, used := DecodeSlowly(buffer);
    }

    /** The search over the limits for codes longer than nine bits. */
    method DecodeSlowly(buffer: nat) returns (symbol: int, used: nat)
      requires Valid() && forall i: nat :: Matches(lens, i, Rev(buffer, 16)) ==> lens[i] > FAST_BITS
      ensures Decoded(lens, Rev(buffer, 16), symbol, used)
    {
      hide Rev, Pow2, SymbolsOk, FastOk, Decoded, FirstCode, FirstSym, Limit, Matches;
      BitReverse16IsRev(buffer);
      Below16(buffer);
      var k := BitReverse16(buffer);
      MissedByFast(lens, k, FAST_BITS);
      var s := 10;
      while k >= maxcode[s]
        invariant 10 <= s <= 16 && Limit(lens, s - 1) <= k
        decreases 16 - s
      {
        assert s < 16 ==> maxcode[..][s] == Limit(lens, s);
        s := s + 1;
      }
      if s >= 16 {
        NoneDecoded(lens, k);
        return -1, 0;
      }
      assert maxcode[..][s] == Limit(lens, s);
      SlowDecodes(lens, s, k, size[..], value[..]);
      assert firstcode[..][s] == FirstCode(lens, s) && firstsymbol[..][s] == FirstSym(lens, s);
      var b := k / Pow2(16 - s) - firstcode[s] + firstsymbol[s];
      symbol, used := -1, 0;
      if b < 288 && size[b] == s {
        symbol, used := value[b], s;
      }
    }
  }

  lemma Below16(buffer: nat)
    ensures Rev(buffer, 16) < 65536
  {
    Pow2Values();
  }

  lemma NoneDecoded(l: seq<nat>, k: nat)
    requires LensOk(l) && Limit(l, MAX_BITS) <= k
    ensures Decoded(l, k, -1, 0)
  {
    NoCodeBeyond(l, k);
  }

  /** The next free code of every length after `n` symbols. */
  ghost predicate NextCodes(l: seq<nat>, n: nat, next: seq<nat>) {
    && |next| == 16 && n <= |l|
    && forall s {:trigger next[s]} :: 1 <= s <= MAX_BITS ==> next[s] == FirstCode(l, s) + Count(l, s, n)
  }

  lemma NextCodeOf(l: seq<nat>, n: nat, next: seq<nat>)
    requires LensOk(l) && n < |l| && NextCodes(l, n, next)
    ensures l[n] <= MAX_BITS
    ensures l[n] > 0 ==> next[l[n]] == Code(l, n) && NextCodes(l, n + 1, next[l[n] := next[l[n]] + 1])
    ensures l[n] == 0 ==> NextCodes(l, n + 1, next)
  {
  }

  lemma SymbolsShape(l: seq<nat>, n: nat, size: seq<nat>, value: seq<nat>)
    requires SymbolsOk(l, n, size, value)
    ensures |size| == SYMBOLS && |value| == SYMBOLS
  {
  }

  lemma NothingEntered(l: seq<nat>, fast: seq<nat>, size: seq<nat>, value: seq<nat>, next: seq<nat>)
    requires |fast| == FAST_SIZE && |size| == SYMBOLS && |value| == SYMBOLS && |next| == 16
    requires forall w :: 0 <= w < FAST_SIZE ==> fast[w] == 0
    requires forall s :: 1 <= s <= MAX_BITS ==> next[s] == FirstCode(l, s)
    ensures NextCodes(l, 0, next) && SymbolsOk(l, 0, size, value) && FastOk(l, 0, fast)
  {
    CountsOfNothing(l);
  }

  lemma SymbolsStaySmall(l: seq<nat>, s: nat)
    requires LensOk(l) && s >= 1
    ensures FirstSym(l, s) <= SYMBOLS
  {
    FirstSymIsShort(l, s);
    ShortBounded(l, s - 1, |l|);
  }
}
