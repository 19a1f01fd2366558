/** The bit reader under the block decoder, and a block decoded from the bytes it is stored in. */
module BitStream {
  import opened Basics
  import opened BitReverse
  import opened HuffmanCode
  import opened Huffman
  import opened Inflate

  // -------------------------------------------------------------- the stream

  /** The bytes as one number, the first byte lowest: bit `k` of it is the `k`-th bit of the stream. */
  function Number(bytes: seq<Byte>): nat {
    if bytes == [] then 0 else bytes[0] as nat + 256 * Number(bytes[1..])
  }

  /** What is still to be read: the buffered bits below the bytes not yet taken. */
  function StreamOf(code: nat, bits: nat, rest: seq<Byte>): nat {
    code + Number(rest) * Pow2(bits)
  }

  /** Buffering one more byte changes nothing. */
  lemma ByteBuffered(code: nat, bits: nat, rest: seq<Byte>)
    requires rest != [] && code < Pow2(bits)
    ensures StreamOf(code + rest[0] as nat * Pow2(bits), bits + 8, rest[1..]) == StreamOf(code, bits, rest)
    ensures code + rest[0] as nat * Pow2(bits) < Pow2(bits + 8)
  {
    Pow2Add(bits, 8);
    Pow2Values();
    hide Pow2;
    ByteAlgebra(rest[0] as nat, Number(rest[1..]), Pow2(bits), code);
  }

  lemma ByteAlgebra(b: nat, r: nat, p: nat, code: nat)
    requires b < 256 && code < p
    ensures (b + 256 * r) * p == b * p + r * (p * 256)
    ensures code + b * p < p * 256
  {
    assert (b + 256 * r) * p == b * p + 256 * r * p;
    MulGap(b, 256, p);
  }

  /** Past the end a byte of zeros changes nothing either. */
  lemma ZerosBuffered(code: nat, bits: nat, more: nat)
    requires code < Pow2(bits)
    ensures StreamOf(code, bits + more, []) == StreamOf(code, bits, []) && code < Pow2(bits + more)
  {
    Pow2Add(bits, more);
    hide Pow2;
    assert Pow2(bits) * Pow2(more) >= Pow2(bits) by { MulGap(0, Pow2(more), Pow2(bits)); }
  }

  /** The lowest `s` bits are those of the buffer, and dropping them there drops them from the stream. */
  lemma BitsDropped(code: nat, bits: nat, rest: seq<Byte>, s: nat)
    requires s <= bits && code < Pow2(bits)
    ensures StreamOf(code, bits, rest) % Pow2(s) == code % Pow2(s)
    ensures StreamOf(code, bits, rest) / Pow2(s) == StreamOf(code / Pow2(s), bits - s, rest)
    ensures code / Pow2(s) < Pow2(bits - s)
  {
    Pow2Add(bits - s, s);
    hide Pow2, Number;
    var r, p, q := Number(rest), Pow2(bits - s), Pow2(s);
    Associate(r, p, q);
    DivAdd(r * p, code, q);
    QuotientBelow(code, p, q);
  }

  lemma Associate(r: nat, p: nat, q: nat)
    ensures r * (p * q) == (r * p) * q
  {
  }

  lemma QuotientBelow(n: nat, p: nat, q: nat)
    requires q > 0 && n < p * q
    ensures n / q < p
  {
    var k := n / q;
    assert n == k * q + n % q;
    Monotone(p, k, q);
  }

  lemma Monotone(a: nat, b: nat, q: nat)
    ensures a <= b ==> a * q <= b * q
  {
    if a < b { MulGap(a, b, q); }
  }

  /** The stream behind its first `k` bits. */
  function Behind(n: nat, k: nat): nat {
    var p := Pow2(k);
    QuotientIsNat(n, p);
    n / p
  }

  lemma QuotientIsNat(n: nat, p: nat)
    requires p > 0
    ensures n / p >= 0
  {
  }

  /** Two drops in a row. */
  lemma DroppedTwice(n: nat, a: nat, b: nat)
    ensures Behind(Behind(n, a), b) == Behind(n, a + b)
  {
    Pow2Add(a, b);
    hide Pow2;
    DivDivision(n, Pow2(a), Pow2(b));
  }

  lemma DivDivision(n: nat, p: nat, q: nat)
    requires p > 0 && q > 0
    ensures p * q > 0 && n / p / q == n / (p * q)
  {
    MulGap(0, p, q);
    var m, r := n / p, n % p;
    Quotient(n, p);
    Quotient(m, q);
    Regroup(n, m, r, m / q, m % q, p, q);
    DivUnique(n, p * q, m / q, (m % q) * p + r);
  }

  lemma Quotient(n: nat, d: nat)
    requires d > 0
    ensures n == n / d * d + n % d && n % d < d
  {
  }

  lemma Regroup(n: nat, m: nat, r: nat, k: nat, c: nat, p: nat, q: nat)
    requires n == m * p + r && m == k * q + c && r < p && c < q
    ensures n == k * (p * q) + (c * p + r) && c * p + r < p * q
  {
    assert (k * q + c) * p == k * (p * q) + c * p;
    MulGap(c, q, p);
  }

  /** With sixteen bits buffered, or everything, the buffer shows the decoder what the stream would. */
  lemma WindowIs(code: nat, bits: nat, rest: seq<Byte>)
    requires bits >= 16 && code < Pow2(bits)
    ensures Rev(code, 16) == Rev(StreamOf(code, bits, rest), 16)
  {
    hide Rev, Pow2;
    BitsDropped(code, bits, rest, 16);
    RevLow(code, 16);
    RevLow(StreamOf(code, bits, rest), 16);
  }

  // -------------------------------------------------------------- the reader

  class BitReader {
    const input: seq<Byte>
    var pos: nat
    var code: nat
    var bits: nat
    /** The decoder has supplied sixteen zero bits behind the end. */
    var hitEof: bool
    /** Zero bits supplied behind the end of the input so far. */
    ghost var padded: nat

    constructor (input: seq<Byte>)
      ensures this.input == input && Valid() && Stream() == Number(input) && Left() == 8 * |input| && !hitEof && padded == 0 && pos == 0
    {
      this.input, pos, code, bits, hitEof, padded := input, 0, 0, 0, false, 0;
    }

    ghost predicate Valid()
      reads this
    {
      && pos <= |input| && code < Pow2(bits) && bits <= 32
      && (padded > 0 ==> pos == |input|) && (hitEof ==> padded >= 16)
    }

    ghost function Stream(): nat
      reads this
      requires pos <= |input|
    {
      StreamOf(code, bits, input[pos..])
    }

    /** Bits of the input not consumed yet; negative once bits past the end were. */
    ghost function Left(): int
      reads this
    {
      bits + 8 * (|input| - pos) - padded
    }

    /**
      Buffers bytes, zeros past the end, until more than 24 bits are there. Nothing stands above
      the buffered bits, so the guard against that has no case to meet.
     */
    method Refill()
      requires Valid() && bits <= 24
      modifies this`pos, this`code, this`bits, this`padded
      ensures Valid() && Stream() == old(Stream()) && Left() == old(Left()) && bits > 24 && padded >= old(padded)
    {
      hide Pow2, StreamOf, Number;
      while bits <= 24
        invariant Valid() && Stream() == old(Stream()) && Left() == old(Left()) && padded >= old(padded)
        decreases 32 - bits
      {
        if pos < |input| {
          ByteBuffered(code, bits, input[pos..]);
          assert input[pos..][0] == input[pos] && input[pos..][1..] == input[pos + 1..];
          code := code + input[pos] as nat * Pow2(bits);
          pos := pos + 1;
        } else {
          ZerosBuffered(code, bits, 8);
          assert input[pos..] == [];
          padded := padded + 8;
        }
        bits := bits + 8;
      }
    }

    /** Takes the lowest `s` bits off. */
    method Drop(s: nat)
      requires Valid() && s <= bits
      modifies this`code, this`bits
      ensures Valid() && Stream() == Behind(old(Stream()), s) && Left() == old(Left()) - s && bits == old(bits) - s
    {
      hide Pow2, StreamOf;
      BitsDropped(code, bits, input[pos..], s);
      code := code / Pow2(s);
      bits := bits - s;
    }

    /** The next `n` bits as a number. */
    method Receive(n: nat) returns (k: nat)
      requires Valid() && n <= 24
      modifies this`pos, this`code, this`bits, this`padded
      ensures Valid() && k == old(Stream()) % Pow2(n) && Stream() == Behind(old(Stream()), n) && Left() == old(Left()) - n
      ensures padded >= old(padded)
    {
      hide Pow2, StreamOf;
      if bits < n { Refill(); }
      BitsDropped(code, bits, input[pos..], n);
      k := code % Pow2(n);
      Drop(n);
    }

    /**
      The next symbol by the code of `z`. `cut` says that the input ended and the sixteen zero
      bits supplied behind it were used up: then bits past the end have been consumed.
     */
    method Decode(z: ZHuffman) returns (symbol: int, ghost cut: bool)
      requires Valid() && z.Valid()
      modifies this
      ensures Valid() && padded >= old(padded)
      ensures cut ==> symbol == -1 && Left() == old(Left()) < 0 && hitEof
      ensures old(bits) >= 16 || old(pos) < |input| ==> !cut && hitEof == old(hitEof)
      ensures !cut ==> Decoded(z.lens, Rev(old(Stream()), 16), symbol, SymBits(z.lens, symbol))
      ensures !cut ==> Stream() == Behind(old(Stream()), SymBits(z.lens, symbol)) && Left() == old(Left()) - SymBits(z.lens, symbol)
    {
      hide Pow2, StreamOf, Rev, TableOk, Decoded;
      cut := false;
      if bits < 16 {
        if pos >= |input| {
          if hitEof { return -1, true; }
          ZerosBuffered(code, bits, 16);
          assert input[pos..] == [];
          hitEof, bits, padded := true, bits + 16, padded + 16;
        } else {
          Refill();
        }
      }
      WindowIs(code, bits, input[pos..]);
      var used;
      symbol, used := z.Decode(code);
      LensAreOk(z);
      UsedIs(z.lens, Rev(code, 16), symbol, used);
      if symbol >= 0 { Drop(used); } else { DropNothing(Stream()); }
    }
  }

  /** Bits of the code of `symbol`; none for no symbol. */
  function SymBits(l: seq<nat>, symbol: int): nat {
    if 0 <= symbol < |l| then l[symbol] else 0
  }

  lemma LensAreOk(z: ZHuffman)
    requires z.Valid()
    ensures LensOk(z.lens)
  {
  }

  lemma UsedIs(l: seq<nat>, k: nat, symbol: int, used: nat)
    requires LensOk(l) && Decoded(l, k, symbol, used)
    ensures used == SymBits(l, symbol) <= 15 && (symbol >= 0 ==> used > 0)
  {
  }

  lemma DropNothing(n: nat)
    ensures Behind(n, 0) == n
  {
  }
}
