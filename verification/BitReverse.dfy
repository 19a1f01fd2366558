/**
  Powers of two, bit reversal of an n-bit number, and the mask-and-shift
  reversal of 16-bit words.
 */
module BitReverse {

  function Pow2(n: nat): (p: nat)
    ensures p > 0
  {
    if n == 0 then 1 else 2 * Pow2(n - 1)
  }

  lemma {:induction false} Pow2Add(a: nat, b: nat)
    ensures Pow2(a + b) == Pow2(a) * Pow2(b)
    decreases a
  {
    if a > 0 {
      Pow2Add(a - 1, b);
      assert Pow2(a + b) == 2 * Pow2(a - 1 + b);
      assert Pow2(a) * Pow2(b) == 2 * (Pow2(a - 1) * Pow2(b));
    }
  }

  lemma Pow2Values()
    ensures Pow2(0) == 1 && Pow2(1) == 2 && Pow2(2) == 4 && Pow2(3) == 8 && Pow2(4) == 16
    ensures Pow2(5) == 32 && Pow2(6) == 64 && Pow2(7) == 128 && Pow2(8) == 256 && Pow2(9) == 512
    ensures Pow2(15) == 32768 && Pow2(16) == 65536
  {
    assert Pow2(9) == 512;
    assert Pow2(12) == 4096;
  }

  /** The lowest `n` bits of `v`, in opposite order. */
  function Rev(v: nat, n: nat): (r: nat)
    ensures r < Pow2(n)
  {
    if n == 0 then 0 else (v % 2) * Pow2(n - 1) + Rev(v / 2, n - 1)
  }

  lemma DivAdd(q: nat, b: nat, d: nat)
    requires d > 0
    ensures (q * d + b) / d == q + b / d && (q * d + b) % d == b % d
  {
    var c, r := b / d, b % d;
    assert b == c * d + r;
    assert q * d + b == (q + c) * d + r;
    DivUnique(q * d + b, d, q + c, r);
  }

  lemma {:induction false} MulGap(a: nat, b: nat, d: nat)
    requires a < b
    ensures a * d + d <= b * d
    decreases b
  {
    assert b * d == (b - 1) * d + d;
    if a < b - 1 { MulGap(a, b - 1, d); }
  }

  lemma DivUnique(x: nat, d: nat, q: nat, r: nat)
    requires d > 0 && x == q * d + r && r < d
    ensures x / d == q && x % d == r
  {
    var q', r' := x / d, x % d;
    assert x == q' * d + r' && 0 <= r' < d;
    if q' < q {
      MulGap(q', q, d);
    } else if q < q' {
      MulGap(q, q', d);
    }
  }

  /** The top `s` bits of the reversed word are the reversed low `s` bits. */
  lemma {:induction false} RevTop(v: nat, n: nat, s: nat)
    requires s <= n
    ensures Rev(v, n) / Pow2(n - s) == Rev(v, s)
    decreases s
  {
    if s == 0 {
      RevTopNone(v, n);
    } else {
      RevTop(v / 2, n - 1, s - 1);
      RevStep(v, n);
      RevStep(v, s);
      Pow2Add(s - 1, n - s);
      hide Rev, Pow2;
      TopStep(v % 2, Pow2(s - 1), Pow2(n - s), Pow2(n - 1), Rev(v / 2, n - 1));
    }
  }

  lemma RevTopNone(v: nat, n: nat)
    ensures Rev(v, n) / Pow2(n) == 0 && Rev(v, 0) == 0
  {
    assert Rev(v, n) < Pow2(n);
    hide Rev, Pow2;
    DivUnique(Rev(v, n), Pow2(n), 0, Rev(v, n));
  }

  lemma RevStep(v: nat, n: nat)
    requires n > 0
    ensures Rev(v, n) == (v % 2) * Pow2(n - 1) + Rev(v / 2, n - 1)
  {
    hide Pow2;
  }

  lemma TopStep(b: nat, p: nat, d: nat, pd: nat, low: nat)
    requires d > 0 && pd == p * d
    ensures (b * pd + low) / d == b * p + low / d
  {
    assert b * (p * d) == (b * p) * d;
    DivAdd(b * p, low, d);
  }

  /** Only the low `n` bits count. */
  lemma {:induction false} RevLow(v: nat, n: nat)
    ensures Rev(v % Pow2(n), n) == Rev(v, n)
    decreases n
  {
    if n > 0 {
      var m := Pow2(n - 1);
      var r := v % (2 * m);
      HalfOfMod(v, m);
      RevLow(v / 2, n - 1);
      RevLow(r / 2, n - 1);
    }
  }

  lemma HalfOfMod(v: nat, m: nat)
    requires m > 0
    ensures (v % (2 * m)) % 2 == v % 2 && (v % (2 * m)) / 2 % m == v / 2 % m
  {
    var q, r := v / (2 * m), v % (2 * m);
    var z := q * m;
    assert v == q * (2 * m) + r;
    assert q * (2 * m) == 2 * z;
    assert v == 2 * z + r;
    assert v / 2 == z + r / 2;
    DivAdd(q, r / 2, m);
  }

  /** One more bit at the far end. */
  lemma {:induction false} RevSnoc(v: nat, n: nat)
    ensures Rev(v, n + 1) == 2 * Rev(v, n) + (v / Pow2(n)) % 2
    decreases n
  {
    if n > 0 {
      var p := Pow2(n - 1);
      assert Pow2(n) == 2 * p;
      hide Pow2;
      RevSnoc(v / 2, n - 1);
      DivDiv(v, p);
      RevStep(v, n + 1);
      RevStep(v, n);
      hide Rev;
      TwiceOver(v % 2, p);
    } else {
      RevStep(v, 1);
    }
  }

  lemma TwiceOver(b: nat, p: nat)
    ensures b * (2 * p) == 2 * (b * p)
  {
  }

  lemma DivDiv(v: nat, m: nat)
    requires m > 0
    ensures v / 2 / m == v / (2 * m)
  {
    var q, r := v / (2 * m), v % (2 * m);
    var z := q * m;
    assert v == q * (2 * m) + r;
    assert q * (2 * m) == 2 * z;
    assert v / 2 == z + r / 2;
    DivUnique(v / 2, m, q, r / 2);
  }

  lemma SplitTop(v: nat, m: nat)
    requires m > 0 && v < 2 * m
    ensures v / m == (if v < m then 0 else 1) && v % m == (if v < m then v else v - m)
  {
    DivUnique(v, m, if v < m then 0 else 1, if v < m then v else v - m);
  }

  /** The top bit becomes the lowest. */
  lemma TopGoesLast(v: nat, n: nat)
    requires n > 0 && v < Pow2(n)
    ensures Rev(v, n) == 2 * Rev(v % Pow2(n - 1), n - 1) + v / Pow2(n - 1)
  {
    hide Rev;
    RevSnoc(v, n - 1);
    RevLow(v, n - 1);
    SplitTop(v, Pow2(n - 1));
  }

  lemma RevDoubled(r: nat, b: nat, n: nat)
    requires n > 0 && b < 2
    ensures Rev(2 * r + b, n) == (if b == 1 then Pow2(n - 1) else 0) + Rev(r, n - 1)
  {
    hide Pow2;
    assert (2 * r + b) % 2 == b && (2 * r + b) / 2 == r;
  }

  /** Reversing twice gives the number back. */
  lemma {:induction false} RevRev(v: nat, n: nat)
    requires v < Pow2(n)
    ensures Rev(Rev(v, n), n) == v
    decreases n
  {
    if n > 0 {
      var m := Pow2(n - 1);
      SplitTop(v, m);
      TopGoesLast(v, n);
      hide Rev, Pow2;
      RevRev(v % m, n - 1);
      RevDoubled(Rev(v % m, n - 1), v / m, n);
    }
  }

  // -------------------------------------------------------- masks and shifts

  /** Reversal of a 16-bit word by swapping ever larger groups of bits. */
  function SwapGroups(n: bv16): bv16 {
    var n1 := ((n & 0xAAAA) >> 1) | ((n & 0x5555) << 1);
    var n2 := ((n1 & 0xCCCC) >> 2) | ((n1 & 0x3333) << 2);
    var n3 := ((n2 & 0xF0F0) >> 4) | ((n2 & 0x0F0F) << 4);
    ((n3 & 0xFF00) >> 8) | ((n3 & 0x00FF) << 8)
  }

  function Bit(x: bv16, i: nat): bool
    requires i < 16
  {
    if i == 0 then x & 0x0001 != 0 else
    if i == 1 then x & 0x0002 != 0 else
    if i == 2 then x & 0x0004 != 0 else
    if i == 3 then x & 0x0008 != 0 else
    if i == 4 then x & 0x0010 != 0 else
    if i == 5 then x & 0x0020 != 0 else
    if i == 6 then x & 0x0040 != 0 else
    if i == 7 then x & 0x0080 != 0 else
    if i == 8 then x & 0x0100 != 0 else
    if i == 9 then x & 0x0200 != 0 else
    if i == 10 then x & 0x0400 != 0 else
    if i == 11 then x & 0x0800 != 0 else
    if i == 12 then x & 0x1000 != 0 else
    if i == 13 then x & 0x2000 != 0 else
    if i == 14 then x & 0x4000 != 0 else
    x & 0x8000 != 0
  }

  function BitsOf(x: bv16): (b: seq<bool>)
    ensures |b| == 16 && forall i :: 0 <= i < 16 ==> b[i] == Bit(x, i)
  {
    seq(16, i requires 0 <= i < 16 => Bit(x, i))
  }

  function Reversed(b: seq<bool>): (r: seq<bool>)
    ensures |r| == |b|
  {
    if b == [] then [] else Reversed(b[1..]) + [b[0]]
  }

  function Value(b: seq<bool>): nat {
    if b == [] then 0 else (if b[0] then 1 else 0) + 2 * Value(b[1..])
  }

  function NatBits(v: nat, n: nat): (b: seq<bool>)
    ensures |b| == n
  {
    if n == 0 then [] else [v % 2 == 1] + NatBits(v / 2, n - 1)
  }

  /** The word with the low `n` bits of `v`. */
  function Word(v: nat, n: nat): bv16 {
    if n == 0 then 0 else (Word(v / 2, n - 1) << 1) | (if v % 2 == 1 then 1 else 0)
  }

  lemma {:induction false} ReversedAt(b: seq<bool>, i: nat)
    requires i < |b|
    ensures Reversed(b)[i] == b[|b| - 1 - i]
    decreases |b|
  {
    if i < |b| - 1 { ReversedAt(b[1..], i); }
  }

  lemma SwapLow(x: bv16)
    ensures (SwapGroups(x) & 0x0001 != 0) == (x & 0x8000 != 0)
    ensures (SwapGroups(x) & 0x0002 != 0) == (x & 0x4000 != 0)
    ensures (SwapGroups(x) & 0x0004 != 0) == (x & 0x2000 != 0)
    ensures (SwapGroups(x) & 0x0008 != 0) == (x & 0x1000 != 0)
    ensures (SwapGroups(x) & 0x0010 != 0) == (x & 0x0800 != 0)
    ensures (SwapGroups(x) & 0x0020 != 0) == (x & 0x0400 != 0)
    ensures (SwapGroups(x) & 0x0040 != 0) == (x & 0x0200 != 0)
    ensures (SwapGroups(x) & 0x0080 != 0) == (x & 0x0100 != 0)
  {
  }

  lemma SwapHigh(x: bv16)
    ensures (SwapGroups(x) & 0x0100 != 0) == (x & 0x0080 != 0)
    ensures (SwapGroups(x) & 0x0200 != 0) == (x & 0x0040 != 0)
    ensures (SwapGroups(x) & 0x0400 != 0) == (x & 0x0020 != 0)
    ensures (SwapGroups(x) & 0x0800 != 0) == (x & 0x0010 != 0)
    ensures (SwapGroups(x) & 0x1000 != 0) == (x & 0x0008 != 0)
    ensures (SwapGroups(x) & 0x2000 != 0) == (x & 0x0004 != 0)
    ensures (SwapGroups(x) & 0x4000 != 0) == (x & 0x0002 != 0)
    ensures (SwapGroups(x) & 0x8000 != 0) == (x & 0x0001 != 0)
  {
  }

  lemma SwapEach(x: bv16)
    ensures Bit(SwapGroups(x), 0) == Bit(x, 15)
    ensures Bit(SwapGroups(x), 1) == Bit(x, 14)
    ensures Bit(SwapGroups(x), 2) == Bit(x, 13)
    ensures Bit(SwapGroups(x), 3) == Bit(x, 12)
    ensures Bit(SwapGroups(x), 4) == Bit(x, 11)
    ensures Bit(SwapGroups(x), 5) == Bit(x, 10)
    ensures Bit(SwapGroups(x), 6) == Bit(x, 9)
    ensures Bit(SwapGroups(x), 7) == Bit(x, 8)
    ensures Bit(SwapGroups(x), 8) == Bit(x, 7)
    ensures Bit(SwapGroups(x), 9) == Bit(x, 6)
    ensures Bit(SwapGroups(x), 10) == Bit(x, 5)
    ensures Bit(SwapGroups(x), 11) == Bit(x, 4)
    ensures Bit(SwapGroups(x), 12) == Bit(x, 3)
    ensures Bit(SwapGroups(x), 13) == Bit(x, 2)
    ensures Bit(SwapGroups(x), 14) == Bit(x, 1)
    ensures Bit(SwapGroups(x), 15) == Bit(x, 0)
  {
    hide SwapGroups;
    SwapLow(x);
    SwapHigh(x);
  }

  /** Bit `i` counted from the other end. */
  lemma SwapBit(x: bv16, i: nat)
    requires i < 16
    ensures Bit(SwapGroups(x), i) == Bit(x, 15 - i)
  {
    hide SwapGroups, Bit;
    SwapEach(x);
    if i == 0 { } else if i == 1 { } else if i == 2 { } else if i == 3 { } else if i == 4 { } else
    if i == 5 { } else if i == 6 { } else if i == 7 { } else if i == 8 { } else if i == 9 { } else
    if i == 10 { } else if i == 11 { } else if i == 12 { } else if i == 13 { } else if i == 14 { }
  }

  lemma SwapGroupsReverses(x: bv16)
    ensures BitsOf(SwapGroups(x)) == Reversed(BitsOf(x))
  {
    hide SwapGroups, Reversed, Bit;
    forall i | 0 <= i < 16
      ensures BitsOf(SwapGroups(x))[i] == Reversed(BitsOf(x))[i]
    {
      SwapBit(x, i);
      ReversedAt(BitsOf(x), i);
    }
  }

  lemma ShiftLow(y: bv16, x: bv16, b: bool)
    requires x == (y << 1) | (if b then 1 else 0)
    ensures (x & 0x0001 != 0) == b
    ensures (x & 0x0002 != 0) == (y & 0x0001 != 0)
    ensures (x & 0x0004 != 0) == (y & 0x0002 != 0)
    ensures (x & 0x0008 != 0) == (y & 0x0004 != 0)
    ensures (x & 0x0010 != 0) == (y & 0x0008 != 0)
    ensures (x & 0x0020 != 0) == (y & 0x0010 != 0)
    ensures (x & 0x0040 != 0) == (y & 0x0020 != 0)
    ensures (x & 0x0080 != 0) == (y & 0x0040 != 0)
  {
  }

  lemma ShiftHigh(y: bv16, x: bv16, b: bool)
    requires x == (y << 1) | (if b then 1 else 0)
    ensures (x & 0x0100 != 0) == (y & 0x0080 != 0)
    ensures (x & 0x0200 != 0) == (y & 0x0100 != 0)
    ensures (x & 0x0400 != 0) == (y & 0x0200 != 0)
    ensures (x & 0x0800 != 0) == (y & 0x0400 != 0)
    ensures (x & 0x1000 != 0) == (y & 0x0800 != 0)
    ensures (x & 0x2000 != 0) == (y & 0x1000 != 0)
    ensures (x & 0x4000 != 0) == (y & 0x2000 != 0)
    ensures (x & 0x8000 != 0) == (y & 0x4000 != 0)
  {
  }

  lemma ShiftEach(y: bv16, x: bv16, b: bool)
    requires x == (y << 1) | (if b then 1 else 0)
    ensures Bit(x, 0) == b
    ensures Bit(x, 1) == Bit(y, 0)
    ensures Bit(x, 2) == Bit(y, 1)
    ensures Bit(x, 3) == Bit(y, 2)
    ensures Bit(x, 4) == Bit(y, 3)
    ensures Bit(x, 5) == Bit(y, 4)
    ensures Bit(x, 6) == Bit(y, 5)
    ensures Bit(x, 7) == Bit(y, 6)
    ensures Bit(x, 8) == Bit(y, 7)
    ensures Bit(x, 9) == Bit(y, 8)
    ensures Bit(x, 10) == Bit(y, 9)
    ensures Bit(x, 11) == Bit(y, 10)
    ensures Bit(x, 12) == Bit(y, 11)
    ensures Bit(x, 13) == Bit(y, 12)
    ensures Bit(x, 14) == Bit(y, 13)
    ensures Bit(x, 15) == Bit(y, 14)
  {
    ShiftLow(y, x, b);
    ShiftHigh(y, x, b);
  }

  lemma ShiftBit(y: bv16, x: bv16, b: bool, i: nat)
    requires x == (y << 1) | (if b then 1 else 0) && i < 16
    ensures Bit(x, i) == if i == 0 then b else Bit(y, i - 1)
  {
    hide Bit;
    ShiftEach(y, x, b);
    if i == 0 { } else if i == 1 { } else if i == 2 { } else if i == 3 { } else if i == 4 { } else
    if i == 5 { } else if i == 6 { } else if i == 7 { } else if i == 8 { } else if i == 9 { } else
    if i == 10 { } else if i == 11 { } else if i == 12 { } else if i == 13 { } else if i == 14 { }
  }

  lemma ShiftIn(y: bv16, b: bool)
    ensures BitsOf((y << 1) | (if b then 1 else 0)) == [b] + BitsOf(y)[..15]
  {
    hide Bit;
    var x := (y << 1) | (if b then 1 else 0);
    forall i | 0 <= i < 16
      ensures BitsOf(x)[i] == ([b] + BitsOf(y)[..15])[i]
    {
      ShiftBit(y, x, b, i);
    }
  }

  lemma PrefixOfShift(b: bool, y: seq<bool>, n: nat)
    requires 0 < n <= 16 && |y| == 16
    ensures ([b] + y[..15])[..n] == [b] + y[..n - 1]
  {
  }

  lemma WordStep(y: bv16, b: bool, n: nat, rest: seq<bool>)
    requires 0 < n <= 16 && BitsOf(y)[..n - 1] == rest
    ensures BitsOf((y << 1) | (if b then 1 else 0))[..n] == [b] + rest
  {
    hide Bit;
    ShiftIn(y, b);
    PrefixOfShift(b, BitsOf(y), n);
  }

  lemma NoBits(v: nat)
    ensures NatBits(v, 0) == []
  {
  }

  lemma OneMoreBit(v: nat, n: nat)
    requires n > 0
    ensures Word(v, n) == (Word(v / 2, n - 1) << 1) | (if v % 2 == 1 then 1 else 0)
    ensures NatBits(v, n) == [v % 2 == 1] + NatBits(v / 2, n - 1)
  {
  }

  lemma {:induction false} WordBits(v: nat, n: nat)
    requires n <= 16
    ensures BitsOf(Word(v, n))[..n] == NatBits(v, n)
    decreases n
  {
    hide Bit, BitsOf, Word, NatBits;
    if n == 0 {
      NoBits(v);
    } else {
      WordBits(v / 2, n - 1);
      WordStep(Word(v / 2, n - 1), v % 2 == 1, n, NatBits(v / 2, n - 1));
      OneMoreBit(v, n);
    }
  }

  lemma {:induction false} ValueSnoc(b: seq<bool>, x: bool)
    ensures Value(b + [x]) == Value(b) + (if x then Pow2(|b|) else 0)
    decreases |b|
  {
    if b != [] {
      assert (b + [x])[1..] == b[1..] + [x];
      ValueSnoc(b[1..], x);
    }
  }

  lemma {:induction false} ValueOfReversed(v: nat, n: nat)
    ensures Value(Reversed(NatBits(v, n))) == Rev(v, n)
    decreases n
  {
    if n > 0 {
      var b, rest := NatBits(v, n), NatBits(v / 2, n - 1);
      assert b[0] == (v % 2 == 1) && b[1..] == rest;
      ValueOfReversed(v / 2, n - 1);
      assert Reversed(b) == Reversed(rest) + [b[0]];
      hide NatBits, Reversed;
      ValueSnoc(Reversed(rest), b[0]);
      RevUnfolds(v, n);
      hide Rev, Value, Pow2;
    }
  }

  lemma RevUnfolds(v: nat, n: nat)
    requires n > 0
    ensures Rev(v, n) == (if v % 2 == 1 then Pow2(n - 1) else 0) + Rev(v / 2, n - 1)
  {
  }

  /** The mask-and-shift reversal of the low 16 bits of `v`. */
  function BitReverse16(v: nat): nat {
    Value(BitsOf(SwapGroups(Word(v, 16))))
  }

  lemma BitReverse16IsRev(v: nat)
    ensures BitReverse16(v) == Rev(v, 16)
  {
    hide Word, BitsOf, SwapGroups, NatBits, Reversed, Rev, Value;
    SwapGroupsReverses(Word(v, 16));
    WordBits(v, 16);
    assert BitsOf(Word(v, 16))[..16] == BitsOf(Word(v, 16));
    ValueOfReversed(v, 16);
  }

  /** A right shift by the number of bits whose power of two is `p`. */
  function Shifted(x: nat, p: nat): nat
    requires p > 0
  {
    x / p
  }

  /** Reversal of `bits` bits: reverse sixteen and shift the rest away. */
  function BitReverseBits(v: nat, bits: nat): nat
    requires bits <= 16
  {
    Shifted(BitReverse16(v), Pow2(16 - bits))
  }

  lemma BitReverseBitsIsRev(v: nat, bits: nat)
    requires bits <= 16
    ensures BitReverseBits(v, bits) == Rev(v, bits)
  {
    BitReverse16IsRev(v);
    RevTop(v, 16, bits);
  }
}
