/**
  The canonical Huffman code of DEFLATE (section 3.2.2 of RFC 1951): code
  numbers from code lengths, the Kraft condition, and prefix-freeness, seen as
  intervals of 16-bit windows read most significant bit first.
 */
module HuffmanCode {
  import opened BitReverse

  const MAX_BITS: nat := 15
  const SYMBOLS: nat := 288

  predicate LensOk(l: seq<nat>) {
    |l| <= SYMBOLS && forall i :: 0 <= i < |l| ==> l[i] <= MAX_BITS
  }

  /** How many of the first `n` symbols have length `s`. */
  function Count(l: seq<nat>, s: nat, n: nat): (c: nat)
    requires n <= |l|
    ensures c <= n
  {
    if n == 0 then 0 else Count(l, s, n - 1) + if l[n - 1] == s then 1 else 0
  }

  function Total(l: seq<nat>, s: nat): nat {
    Count(l, s, |l|)
  }

  /** The smallest code of length `s`. */
  function FirstCode(l: seq<nat>, s: nat): nat {
    if s <= 1 then 0 else 2 * (FirstCode(l, s - 1) + Total(l, s - 1))
  }

  /** How many symbols have a shorter non-zero length. */
  function FirstSym(l: seq<nat>, s: nat): nat {
    if s <= 1 then 0 else FirstSym(l, s - 1) + Total(l, s - 1)
  }

  /** One past the largest code of length `s`. */
  function End(l: seq<nat>, s: nat): nat {
    FirstCode(l, s) + Total(l, s)
  }

  /** The code of symbol `i`: consecutive within a length, in symbol order. */
  function Code(l: seq<nat>, i: nat): nat
    requires i < |l|
  {
    FirstCode(l, l[i]) + Count(l, l[i], i)
  }

  /** `End` as a bound on 16-bit windows. */
  function Limit(l: seq<nat>, s: nat): nat
    requires s <= MAX_BITS
  {
    if s == 0 then 0 else Product(End(l, s), Pow2(16 - s)); End(l, s) * Pow2(16 - s)
  }

  lemma Product(a: nat, b: nat)
    ensures a * b >= 0
  {
  }

  lemma Distribute(a: nat, b: nat, p: nat)
    ensures (a + b) * p == a * p + b * p
  {
  }

  lemma Doubled(e: nat, p: nat)
    ensures (2 * e) * p == e * (2 * p)
  {
  }

  lemma FirstCodeIsLimit(l: seq<nat>, s: nat)
    requires 1 <= s <= MAX_BITS
    ensures FirstCode(l, s) * Pow2(16 - s) == Limit(l, s - 1)
  {
    hide Count;
    if s > 1 {
      assert Pow2(16 - (s - 1)) == 2 * Pow2(16 - s);
      assert FirstCode(l, s) == 2 * End(l, s - 1);
      hide Pow2, FirstCode;
      Doubled(End(l, s - 1), Pow2(16 - s));
    }
  }

  lemma LimitIs(l: seq<nat>, s: nat)
    requires 1 <= s <= MAX_BITS
    ensures Limit(l, s) == (FirstCode(l, s) + Total(l, s)) * Pow2(16 - s)
  {
    hide Pow2, FirstCode, Count;
  }

  lemma LimitStep(l: seq<nat>, s: nat)
    requires 1 <= s <= MAX_BITS
    ensures FirstCode(l, s) * Pow2(16 - s) == Limit(l, s - 1)
    ensures Limit(l, s) == Limit(l, s - 1) + Total(l, s) * Pow2(16 - s)
    ensures Limit(l, s) >= Limit(l, s - 1)
  {
    FirstCodeIsLimit(l, s);
    LimitIs(l, s);
    hide Pow2, FirstCode, Count, Limit;
    Distribute(FirstCode(l, s), Total(l, s), Pow2(16 - s));
    Product(Total(l, s), Pow2(16 - s));
  }

  lemma {:induction false} LimitMonotone(l: seq<nat>, s: nat, t: nat)
    requires s <= t <= MAX_BITS
    ensures Limit(l, s) <= Limit(l, t)
    decreases t - s
  {
    hide Limit;
    if s < t {
      LimitStep(l, s + 1);
      LimitMonotone(l, s + 1, t);
    }
  }

  // ------------------------------------------------------------------- Kraft

  /** The check the table builder makes: no length runs out of codes. */
  predicate Fits(l: seq<nat>) {
    && (forall s :: 1 <= s <= MAX_BITS ==> Total(l, s) <= Pow2(s))
    && (forall s :: 1 <= s <= MAX_BITS && Total(l, s) > 0 ==> End(l, s) <= Pow2(s))
  }

  /** The Kraft sum of the first `n` symbols, scaled by 2 to the 16. */
  function KraftSum(l: seq<nat>, n: nat): nat
    requires n <= |l| && LensOk(l)
  {
    if n == 0 then 0 else KraftSum(l, n - 1) + if l[n - 1] > 0 then Pow2(16 - l[n - 1]) else 0
  }

  /** The same sum taken length by length. */
  function SumByLength(l: seq<nat>, s: nat, n: nat): nat
    requires n <= |l| && s <= MAX_BITS
  {
    if s == 0 then 0 else SumByLength(l, s - 1, n) + Count(l, s, n) * Pow2(16 - s)
  }

  lemma {:induction false} LimitIsSum(l: seq<nat>, s: nat)
    requires s <= MAX_BITS
    ensures Limit(l, s) == SumByLength(l, s, |l|)
    decreases s
  {
    if s > 0 {
      LimitIsSum(l, s - 1);
      LimitStep(l, s);
    }
  }

  lemma {:induction false} SumStep(l: seq<nat>, s: nat, n: nat)
    requires n < |l| && s <= MAX_BITS
    ensures SumByLength(l, s, n + 1) == SumByLength(l, s, n) + if 0 < l[n] <= s then Pow2(16 - l[n]) else 0
    decreases s
  {
    if s > 0 {
      SumStep(l, s - 1, n);
      if l[n] == s {
        Distribute(Count(l, s, n), 1, Pow2(16 - s));
      } else {
        assert Count(l, s, n + 1) == Count(l, s, n);
      }
    }
  }

  lemma {:induction false} SumIsKraft(l: seq<nat>, n: nat)
    requires n <= |l| && LensOk(l)
    ensures SumByLength(l, MAX_BITS, n) == KraftSum(l, n)
    decreases n
  {
    if n > 0 {
      SumIsKraft(l, n - 1);
      SumStep(l, MAX_BITS, n - 1);
    } else {
      NoSymbolsNoSum(l, MAX_BITS);
    }
  }

  lemma {:induction false} NoSymbolsNoSum(l: seq<nat>, s: nat)
    requires s <= MAX_BITS
    ensures SumByLength(l, s, 0) == 0
    decreases s
  {
    if s > 0 { NoSymbolsNoSum(l, s - 1); }
  }

  lemma EndFromLimit(l: seq<nat>, s: nat)
    requires 1 <= s <= MAX_BITS
    ensures Limit(l, s) <= 65536 <==> End(l, s) <= Pow2(s)
  {
    Pow2Add(s, 16 - s);
    Pow2Values();
    var e, p, q := End(l, s), Pow2(s), Pow2(16 - s);
    assert p * q == 65536;
    if e <= p {
      MulLe(e, p, q);
    } else {
      MulGap(p, e, q);
    }
  }

  lemma MulLe(a: nat, b: nat, d: nat)
    requires a <= b
    ensures a * d <= b * d
  {
    if a < b { MulGap(a, b, d); }
  }

  /** The check made so far when lengths below `n` have been looked at. */
  predicate FitsBelow(l: seq<nat>, n: nat) {
    forall s :: 1 <= s < n ==> Total(l, s) > 0 ==> End(l, s) <= Pow2(s)
  }

  lemma {:induction false} FitsBoundsLimits(l: seq<nat>, s: nat)
    requires s <= MAX_BITS && FitsBelow(l, s + 1)
    ensures Limit(l, s) <= 65536
    decreases s
  {
    if s > 0 {
      FitsBoundsLimits(l, s - 1);
      if Total(l, s) > 0 {
        EndFromLimit(l, s);
      } else {
        LimitStep(l, s);
      }
    }
  }

  /** While the check passes, code numbers stay within 16 bits. */
  lemma CodesStaySmall(l: seq<nat>, s: nat)
    requires 1 <= s <= MAX_BITS && FitsBelow(l, s)
    ensures FirstCode(l, s) <= Pow2(s) <= 32768
  {
    if s > 1 {
      FitsBoundsLimits(l, s - 1);
      EndFromLimit(l, s - 1);
    }
    Pow2Add(s, 15 - s);
    Pow2Values();
    var p, q := Pow2(s), Pow2(15 - s);
    MulLe(1, q, p);
    assert q * p == p * q;
  }

  /** The builder accepts exactly the length lists that satisfy the Kraft inequality. */
  lemma FitsIffKraft(l: seq<nat>)
    requires LensOk(l)
    ensures Fits(l) <==> KraftSum(l, |l|) <= 65536
  {
    LimitIsSum(l, MAX_BITS);
    SumIsKraft(l, |l|);
    if Fits(l) {
      assert FitsBelow(l, MAX_BITS + 1);
      FitsBoundsLimits(l, MAX_BITS);
    }
    if Limit(l, MAX_BITS) <= 65536 {
      forall s | 1 <= s <= MAX_BITS
        ensures Total(l, s) <= Pow2(s) && End(l, s) <= Pow2(s)
      {
        LimitMonotone(l, s, MAX_BITS);
        EndFromLimit(l, s);
      }
    }
  }

  // --------------------------------------------------------------- canonical

  /**
    The code is the canonical one of section 3.2.2 of RFC 1951: codes of one length are
    consecutive in symbol order, and shorter codes come before longer ones, read as bits.
   */
  lemma Canonical(l: seq<nat>, i: nat, j: nat)
    requires LensOk(l) && i < |l| && j < |l| && l[i] > 0 && l[j] > 0
    ensures l[i] == l[j] && i < j && (forall k :: i < k < j ==> l[k] != l[i]) ==> Code(l, j) == Code(l, i) + 1
    ensures l[i] < l[j] ==> (Code(l, i) + 1) * Pow2(l[j] - l[i]) <= Code(l, j)
    ensures (forall k :: 0 <= k < |l| ==> l[k] == 0 || l[k] > l[i] || (l[k] == l[i] && k >= i)) ==> Code(l, i) == 0
  {
    hide FirstCode, Pow2;
    if l[i] == l[j] && i < j && (forall k :: i < k < j ==> l[k] != l[i]) { NoneBetween(l, i, j); }
    if l[i] < l[j] {
      CodeBelowEnd(l, i);
      FirstCodeAfter(l, l[i], l[j]);
      MulLe(Code(l, i) + 1, End(l, l[i]), Pow2(l[j] - l[i]));
    }
    if forall k :: 0 <= k < |l| ==> l[k] == 0 || l[k] > l[i] || (l[k] == l[i] && k >= i) { NothingShorter(l, l[i]); NoneBefore(l, l[i], i); }
  }

  lemma {:induction false} NoneBetween(l: seq<nat>, i: nat, j: nat)
    requires i < j < |l| && forall k :: i < k < j ==> l[k] != l[i]
    ensures Count(l, l[i], j) == Count(l, l[i], i) + 1
    decreases j
  {
    if i < j - 1 { NoneBetween(l, i, j - 1); }
  }

  lemma {:induction false} NoneBefore(l: seq<nat>, s: nat, n: nat)
    requires n <= |l| && forall k :: 0 <= k < n ==> l[k] != s
    ensures Count(l, s, n) == 0
    decreases n
  {
    if n > 0 { NoneBefore(l, s, n - 1); }
  }

  lemma {:induction false} NothingShorter(l: seq<nat>, s: nat)
    requires forall k :: 0 <= k < |l| ==> l[k] == 0 || l[k] >= s
    ensures FirstCode(l, s) == 0
    decreases s
  {
    if s > 1 {
      NothingShorter(l, s - 1);
      NoneBefore(l, s - 1, |l|);
    }
  }

  lemma {:induction false} FirstCodeAfter(l: seq<nat>, s: nat, t: nat)
    requires 1 <= s < t
    ensures End(l, s) * Pow2(t - s) <= FirstCode(l, t)
    decreases t
  {
    var p := Pow2(t - 1 - s);
    assert Pow2(t - s) == 2 * p && (t == s + 1 ==> p == 1);
    assert FirstCode(l, t) == 2 * End(l, t - 1);
    hide Pow2, FirstCode, Total;
    if t > s + 1 { FirstCodeAfter(l, s, t - 1); }
    hide End;
    TwiceAtMost(End(l, s), p, End(l, t - 1), t == s + 1);
  }

  lemma TwiceAtMost(e: nat, p: nat, f: nat, same: bool)
    requires if same then p == 1 && e == f else e * p <= f
    ensures e * (2 * p) <= 2 * f
  {
    Doubled(e, p);
  }

  /** The example of that section: lengths 3, 3, 3, 3, 3, 2, 4, 4. */
  lemma RfcExample()
    ensures var l := [3, 3, 3, 3, 3, 2, 4, 4];
            && Code(l, 0) == 2 && Code(l, 1) == 3 && Code(l, 2) == 4 && Code(l, 3) == 5 && Code(l, 4) == 6
            && Code(l, 5) == 0 && Code(l, 6) == 14 && Code(l, 7) == 15
  {
    var l := [3, 3, 3, 3, 3, 2, 4, 4];
    assert Count(l, 1, 8) == 0;
    assert FirstCode(l, 2) == 0;
    assert Count(l, 2, 8) == 1;
    assert FirstCode(l, 3) == 2;
    assert Count(l, 3, 8) == 5;
    assert FirstCode(l, 4) == 14;
  }

  // ---------------------------------------------------------------- matching

  /** The code of symbol `i` is the front of the 16-bit window `k`. */
  predicate Matches(l: seq<nat>, i: nat, k: nat)
    requires LensOk(l)
  {
    i < |l| && l[i] > 0 && k / Pow2(16 - l[i]) == Code(l, i)
  }

  lemma {:induction false} CountBelow(l: seq<nat>, s: nat, i: nat, n: nat)
    requires i < n <= |l| && l[i] == s
    ensures Count(l, s, i) < Count(l, s, n)
    decreases n
  {
    if i < n - 1 { CountBelow(l, s, i, n - 1); }
  }

  lemma CodeBelowEnd(l: seq<nat>, i: nat)
    requires i < |l|
    ensures FirstCode(l, l[i]) <= Code(l, i) < End(l, l[i])
  {
    CountBelow(l, l[i], i, |l|);
  }

  lemma Quotient(k: nat, p: nat)
    requires p > 0
    ensures (k / p) * p <= k < (k / p) * p + p
  {
  }

  /** A window that starts with a code of length `s` lies between the limits for `s`. */
  lemma MatchBetweenLimits(l: seq<nat>, i: nat, k: nat)
    requires LensOk(l) && Matches(l, i, k)
    ensures Limit(l, l[i] - 1) <= k < Limit(l, l[i])
  {
    var s := l[i];
    var p := Pow2(16 - s);
    LimitStep(l, s);
    CodeBelowEnd(l, i);
    Quotient(k, p);
    MulLe(FirstCode(l, s), Code(l, i), p);
    MulGap(Code(l, i), End(l, s), p);
  }

  /** No window starts with two codes. */
  lemma MatchUnique(l: seq<nat>, i: nat, j: nat, k: nat)
    requires LensOk(l) && Matches(l, i, k) && Matches(l, j, k)
    ensures i == j
  {
    MatchBetweenLimits(l, i, k);
    MatchBetweenLimits(l, j, k);
    if l[i] < l[j] {
      LimitMonotone(l, l[i], l[j] - 1);
    } else if l[j] < l[i] {
      LimitMonotone(l, l[j], l[i] - 1);
    } else if i < j {
      CountBelow(l, l[i], i, j);
    } else if j < i {
      CountBelow(l, l[i], j, i);
    }
  }

  /** The code is prefix free: cutting a code to another's length never gives that other code. */
  lemma PrefixFree(l: seq<nat>, i: nat, j: nat)
    requires LensOk(l) && i < |l| && j < |l| && i != j && 0 < l[i] <= l[j]
    ensures Code(l, j) / Pow2(l[j] - l[i]) != Code(l, i)
  {
    hide Pow2, Code, Matches;
    var c, p := Code(l, j), Pow2(16 - l[j]);
    OwnWindow(l, j);
    PrefixMatches(l, i, j);
    if c / Pow2(l[j] - l[i]) == Code(l, i) { MatchUnique(l, i, j, c * p); }
  }

  /** A code followed by zeros is a window that starts with it. */
  lemma OwnWindow(l: seq<nat>, j: nat)
    requires LensOk(l) && j < |l| && 0 < l[j]
    ensures Matches(l, j, Code(l, j) * Pow2(16 - l[j]))
  {
    hide Pow2, Code;
    DivUnique(Code(l, j) * Pow2(16 - l[j]), Pow2(16 - l[j]), Code(l, j), 0);
  }

  lemma PrefixMatches(l: seq<nat>, i: nat, j: nat)
    requires LensOk(l) && i < |l| && j < |l| && 0 < l[i] <= l[j]
    ensures Code(l, j) / Pow2(l[j] - l[i]) == Code(l, i) ==> Matches(l, i, Code(l, j) * Pow2(16 - l[j]))
  {
    hide Pow2, Code;
    Pow2Add(l[j] - l[i], 16 - l[j]);
    CutPrefix(Code(l, j), Pow2(l[j] - l[i]), Pow2(16 - l[j]));
  }

  lemma CutPrefix(c: nat, q: nat, p: nat)
    requires q > 0 && p > 0
    ensures q * p > 0 && (c * p) / (q * p) == c / q
  {
    var d, r := c / q, c % q;
    assert c == d * q + r;
    assert c * p == d * (q * p) + r * p;
    MulGap(r, q, p);
    DivUnique(c * p, q * p, d, r * p);
  }

  /** The `c`-th symbol of length `s`. */
  lemma {:induction false} NthOfLength(l: seq<nat>, s: nat, c: nat, n: nat) returns (i: nat)
    requires n <= |l| && c < Count(l, s, n)
    ensures i < n && l[i] == s && Count(l, s, i) == c
    decreases n
  {
    if l[n - 1] == s && Count(l, s, n - 1) == c {
      i := n - 1;
    } else {
      i := NthOfLength(l, s, c, n - 1);
    }
  }

  lemma QuotientBetween(k: nat, p: nat, a: nat, b: nat)
    requires p > 0 && a * p <= k < b * p
    ensures a <= k / p < b
  {
    var v := k / p;
    Quotient(k, p);
    if v < a {
      MulGap(v, a, p);
    } else if v >= b {
      MulLe(b, v, p);
    }
  }

  /** Every window between the limits for `s` starts with a code of length `s`. */
  lemma BetweenLimitsMatch(l: seq<nat>, s: nat, k: nat) returns (i: nat)
    requires LensOk(l) && 1 <= s <= MAX_BITS && Limit(l, s - 1) <= k < Limit(l, s)
    ensures Matches(l, i, k) && l[i] == s
    ensures FirstCode(l, s) <= k / Pow2(16 - s) && Count(l, s, i) == k / Pow2(16 - s) - FirstCode(l, s)
  {
    var p := Pow2(16 - s);
    var v := k / p;
    LimitStep(l, s);
    hide FirstCode, Pow2, Count;
    QuotientBetween(k, p, FirstCode(l, s), End(l, s));
    i := NthOfLength(l, s, v - FirstCode(l, s), |l|);
  }

  // ---------------------------------------------------------- symbol indices

  /** Position of symbol `i` when symbols are sorted by code. */
  function Rank(l: seq<nat>, i: nat): nat
    requires i < |l|
  {
    FirstSym(l, l[i]) + Count(l, l[i], i)
  }

  lemma {:induction false} FirstSymMonotone(l: seq<nat>, s: nat, t: nat)
    requires 1 <= s < t
    ensures FirstSym(l, s) + Total(l, s) <= FirstSym(l, t)
    decreases t
  {
    if s < t - 1 { FirstSymMonotone(l, s, t - 1); }
  }

  lemma RankInjective(l: seq<nat>, i: nat, j: nat)
    requires i < j < |l| && l[i] > 0 && l[j] > 0
    ensures Rank(l, i) != Rank(l, j)
  {
    CountBelow(l, l[i], i, |l|);
    CountBelow(l, l[j], j, |l|);
    if l[i] < l[j] {
      FirstSymMonotone(l, l[i], l[j]);
    } else if l[j] < l[i] {
      FirstSymMonotone(l, l[j], l[i]);
    } else {
      CountBelow(l, l[i], i, j);
    }
  }

  /** Symbols with lengths in `1..s` among the first `n`. */
  function Short(l: seq<nat>, s: nat, n: nat): nat
    requires n <= |l|
  {
    if s == 0 then 0 else Short(l, s - 1, n) + Count(l, s, n)
  }

  lemma {:induction false} ShortStep(l: seq<nat>, s: nat, n: nat)
    requires n < |l|
    ensures Short(l, s, n + 1) == Short(l, s, n) + if 0 < l[n] <= s then 1 else 0
    decreases s
  {
    if s > 0 { ShortStep(l, s - 1, n); }
  }

  lemma {:induction false} ShortBounded(l: seq<nat>, s: nat, n: nat)
    requires n <= |l|
    ensures Short(l, s, n) <= n
    decreases n
  {
    if n > 0 {
      ShortBounded(l, s, n - 1);
      ShortStep(l, s, n - 1);
    } else {
      ShortOfNothing(l, s);
    }
  }

  lemma {:induction false} ShortOfNothing(l: seq<nat>, s: nat)
    ensures Short(l, s, 0) == 0
    decreases s
  {
    if s > 0 { ShortOfNothing(l, s - 1); }
  }

  lemma {:induction false} FirstSymIsShort(l: seq<nat>, s: nat)
    requires s >= 1
    ensures FirstSym(l, s) == Short(l, s - 1, |l|)
    decreases s
  {
    if s > 1 { FirstSymIsShort(l, s - 1); }
  }

  lemma RankBounded(l: seq<nat>, i: nat)
    requires i < |l| && l[i] > 0
    ensures Rank(l, i) < |l|
  {
    CountBelow(l, l[i], i, |l|);
    FirstSymIsShort(l, l[i]);
    ShortBounded(l, l[i], |l|);
  }
}
