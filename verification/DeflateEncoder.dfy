/**
  The other direction: a block as an encoder writes it (sections 3.1.1 and 3.2.3 of RFC 1951),
  codes from their most significant bit, extra values from their least significant one. Whatever
  is written with two codes that fit is what the decoder reads back.
 */
module DeflateEncoder {
  import opened Basics
  import opened BitReverse
  import opened HuffmanCode
  import opened Huffman
  import opened Inflate
  import opened BitStream
  import opened DeflateTokens
  import opened InflateStream

  // ----------------------------------------------------------------- writing

  /** `rest` with the `w` bits of `v` in front. */
  function Field(v: nat, w: nat, rest: nat): nat {
    Product(rest, Pow2(w));
    v + rest * Pow2(w)
  }

  lemma FieldRead(v: nat, w: nat, rest: nat)
    requires v < Pow2(w)
    ensures Field(v, w, rest) % Pow2(w) == v && Behind(Field(v, w, rest), w) == rest
  {
    hide Pow2;
    DivUnique(Field(v, w, rest), Pow2(w), rest, v);
  }

  predicate HasCode(l: seq<nat>, i: int) { 0 <= i < |l| && l[i] > 0 }

  /** The code of symbol `i` in front of `rest`. */
  function CodeField(l: seq<nat>, i: int, rest: nat): nat
    requires HasCode(l, i)
  {
    Field(Rev(Code(l, i), l[i]), l[i], rest)
  }

  /** A symbol's code in front of anything is decoded as that symbol. */
  lemma CodeRead(l: seq<nat>, i: int, rest: nat)
    requires LensOk(l) && Fits(l) && HasCode(l, i)
    ensures Decoded(l, Rev(CodeField(l, i, rest), 16), i, SymBits(l, i))
    ensures Behind(CodeField(l, i, rest), SymBits(l, i)) == rest
  {
    var s, c, n := l[i], Code(l, i), CodeField(l, i, rest);
    CodeBelowEnd(l, i);
    assert End(l, s) <= Pow2(s);
    hide Pow2, Code, End;
    FieldRead(Rev(c, s), s, rest);
    RevTop(n, 16, s);
    RevLow(n, s);
    RevRev(c, s);
  }

  /** The symbols have codes and the extra values fit. */
  predicate Coded(lz: seq<nat>, ld: seq<nat>, e: Event) {
    HasCode(lz, e.z) && InRange(e) && (IsLength(e.z) ==> HasCode(ld, e.dz) && IsDistance(e.dz))
  }

  /** A symbol with what belongs to it, in front of `rest`. */
  function Written(lz: seq<nat>, ld: seq<nat>, e: Event, rest: nat): nat
    requires Coded(lz, ld, e)
  {
    CodeField(lz, e.z,
      if IsLength(e.z) then
        Field(e.extra, LengthBits(e.z), CodeField(ld, e.dz, Field(e.dextra, DistBits(e.dz), rest)))
      else rest)
  }

  lemma ExtraBits(z: int, dz: int)
    ensures LengthExtra(z) == LengthBits(z) && DistExtra(dz) == DistBits(dz)
  {
    if IsLength(z) { LengthTable(z); }
    if IsDistance(dz) { DistTable(dz); }
  }

  /** A symbol that was written is the next one read, and what is behind it is left. */
  lemma WrittenRead(lz: seq<nat>, ld: seq<nat>, e: Event, rest: nat)
    requires LensOk(lz) && LensOk(ld) && Fits(lz) && Fits(ld) && Coded(lz, ld, e)
    ensures Reads(lz, ld, Written(lz, ld, e, rest), e)
    ensures Behind(Written(lz, ld, e, rest), Width(lz, ld, e)) == rest
  {
    hide Decoded, Rev, Pow2, Behind, CodeField, Field, LengthBits, DistBits, LengthExtra, DistExtra, Fits, SymBits;
    ExtraBits(e.z, e.dz);
    var n := Written(lz, ld, e, rest);
    if IsLength(e.z) {
      var tail := Field(e.dextra, DistBits(e.dz), rest);
      var code := CodeField(ld, e.dz, tail);
      var body := Field(e.extra, LengthBits(e.z), code);
      CodeRead(lz, e.z, body);
      FieldRead(e.extra, LengthBits(e.z), code);
      CodeRead(ld, e.dz, tail);
      FieldRead(e.dextra, DistBits(e.dz), rest);
      var a, b, c, d := SymBits(lz, e.z), LengthBits(e.z), SymBits(ld, e.dz), DistBits(e.dz);
      DroppedTwice(n, a, b);
      DroppedTwice(n, a + b, c);
      DroppedTwice(n, a + b + c, d);
    } else {
      CodeRead(lz, e.z, rest);
    }
  }

  // ------------------------------------------------------------ a whole block

  ghost predicate AllCoded(lz: seq<nat>, ld: seq<nat>, es: seq<Event>) {
    forall i :: 0 <= i < |es| ==> Coded(lz, ld, es[i])
  }

  function WrittenAll(lz: seq<nat>, ld: seq<nat>, es: seq<Event>, rest: nat): nat
    requires AllCoded(lz, ld, es)
  {
    if es == [] then rest else Written(lz, ld, es[0], WrittenAll(lz, ld, es[1..], rest))
  }

  /** The first `k` symbols are read and the others are left. */
  lemma {:induction false} AllWrittenRead(lz: seq<nat>, ld: seq<nat>, es: seq<Event>, rest: nat, k: nat)
    requires LensOk(lz) && LensOk(ld) && Fits(lz) && Fits(ld) && AllCoded(lz, ld, es) && k <= |es|
    ensures var n := WrittenAll(lz, ld, es, rest);
            AllRead(lz, ld, n, es[..k]) && Behind(n, TotalWidth(lz, ld, es[..k])) == WrittenAll(lz, ld, es[k..], rest)
    decreases k
  {
    hide Reads, Behind, Width, Written, Coded, Fits;
    var n := WrittenAll(lz, ld, es, rest);
    if k == 0 {
      assert es[0..] == es;
      DropNothing(n);
    } else {
      AllWrittenRead(lz, ld, es, rest, k - 1);
      var init, e := es[..k - 1], es[k - 1];
      assert es[..k] == init + [e] && es[k - 1..][1..] == es[k..];
      ReadMore(lz, ld, n, init, e);
      WrittenRead(lz, ld, e, WrittenAll(lz, ld, es[k..], rest));
    }
  }

  const END_OF_BLOCK: Event := Event(256, 0, -1, 0, false)

  /** What is written for tokens that expand, in any spelling, is a block that the input holds. */
  lemma WrittenBlockHolds(lz: seq<nat>, ld: seq<nat>, es: seq<Event>, rest: nat, left: int, out: seq<Byte>)
    requires LensOk(lz) && LensOk(ld) && Fits(lz) && Fits(ld) && AllCoded(lz, ld, es + [END_OF_BLOCK])
    requires TokensOf(es).Some? && Expansion(out, TokensOf(es).value).Some?
    requires TotalWidth(lz, ld, es + [END_OF_BLOCK]) <= left
    ensures Holds(lz, ld, WrittenAll(lz, ld, es + [END_OF_BLOCK], rest), left, out, es + [END_OF_BLOCK],
                  Expansion(out, TokensOf(es).value).value)
  {
    hide Coded, Written, Fits, TotalWidth, AllRead, Behind, TokensOf, Expansion;
    var fs := es + [END_OF_BLOCK];
    AllWrittenRead(lz, ld, fs, rest, |fs|);
    assert fs[..|fs|] == fs && fs[..|fs| - 1] == es;
    AllCodedInRange(lz, ld, fs);
    assert forall i :: 0 <= i < |es| ==> es[i] == fs[i];
    AfterAllIsExpansion(out, es);
    AfterMore(out, es, END_OF_BLOCK);
    EndIsSeen(AfterAll(out, es).out, END_OF_BLOCK);
  }

  lemma AllCodedInRange(lz: seq<nat>, ld: seq<nat>, es: seq<Event>)
    requires AllCoded(lz, ld, es)
    ensures AllInRange(es)
  {
    hide InRange, HasCode;
    forall i | 0 <= i < |es| ensures InRange(es[i]) { assert Coded(lz, ld, es[i]); }
  }

  /**
    Round trip: decoding what an encoder wrote for tokens that expand gives their expansion,
    and leaves the input right behind the block, or memory runs out.
   */
  lemma EncodedBlockDecodes(lz: seq<nat>, ld: seq<nat>, es: seq<Event>, rest: nat, left: int, out: seq<Byte>,
                            now: nat, leftNow: int, outNow: seq<Byte>, status: Status, events: seq<Event>, cut: bool)
    requires LensOk(lz) && LensOk(ld) && Fits(lz) && Fits(ld) && AllCoded(lz, ld, es + [END_OF_BLOCK])
    requires TokensOf(es).Some? && Expansion(out, TokensOf(es).value).Some?
    requires TotalWidth(lz, ld, es + [END_OF_BLOCK]) <= left
    requires BlockOutcome(lz, ld, WrittenAll(lz, ld, es + [END_OF_BLOCK], rest), now, left, leftNow, out, outNow, status, events, cut)
    ensures status == NoMemory || (status == Finished && Some(outNow) == Expansion(out, TokensOf(es).value) && now == rest)
  {
    hide Coded, Written, Fits, TotalWidth, AllRead, Behind, TokensOf, Expansion, BlockOutcome, Holds;
    var fs := es + [END_OF_BLOCK];
    WrittenBlockHolds(lz, ld, es, rest, left, out);
    HeldBlockFinishes(lz, ld, WrittenAll(lz, ld, fs, rest), now, left, leftNow, out, outNow, status, events, cut, fs,
                      Expansion(out, TokensOf(es).value).value);
    AllWrittenRead(lz, ld, fs, rest, |fs|);
    assert fs[..|fs|] == fs;
  }

  // ------------------------------------------------------------------- bytes

  /** The stream cut into `k` bytes, low bits first. */
  function ByteCut(n: nat, k: nat): (b: seq<Byte>)
    ensures |b| == k
  {
    if k == 0 then [] else [(n % 256) as Byte] + ByteCut(n / 256, k - 1)
  }

  lemma {:induction false} ByteCutIs(n: nat, k: nat)
    requires n < Pow2(8 * k)
    ensures Number(ByteCut(n, k)) == n
    decreases k
  {
    if k > 0 {
      Pow2Add(8, 8 * (k - 1));
      Pow2Values();
      CutBelow(n, Pow2(8 * (k - 1)));
      ByteCutIs(n / 256, k - 1);
      var b := ByteCut(n, k);
      assert b[1..] == ByteCut(n / 256, k - 1);
    }
  }

  lemma CutBelow(n: nat, p: nat)
    requires n < 256 * p
    ensures n / 256 < p
  {
  }

  /** What is written in `w` bits, with nothing behind, is a number of `w` bits. */
  lemma WrittenBelow(lz: seq<nat>, ld: seq<nat>, es: seq<Event>)
    requires LensOk(lz) && LensOk(ld) && Fits(lz) && Fits(ld) && AllCoded(lz, ld, es)
    ensures WrittenAll(lz, ld, es, 0) < Pow2(TotalWidth(lz, ld, es))
  {
    hide Pow2, TotalWidth, AllRead, Coded, Fits, Written;
    AllWrittenRead(lz, ld, es, 0, |es|);
    assert es[..|es|] == es && es[|es|..] == [];
    BelowIfNothingLeft(WrittenAll(lz, ld, es, 0), Pow2(TotalWidth(lz, ld, es)));
  }

  lemma BelowIfNothingLeft(n: nat, p: nat)
    requires p > 0 && n / p == 0
    ensures n < p
  {
  }

  lemma {:induction false} Pow2Grows(a: nat, b: nat)
    requires a <= b
    ensures Pow2(a) <= Pow2(b)
    decreases b
  {
    if a < b { Pow2Grows(a, b - 1); }
  }

  /** The block as whole bytes, the last one filled up with zeros. */
  method WriteBlock(lz: seq<nat>, ld: seq<nat>, es: seq<Event>) returns (input: seq<Byte>)
    requires LensOk(lz) && LensOk(ld) && Fits(lz) && Fits(ld) && AllCoded(lz, ld, es)
    ensures Number(input) == WrittenAll(lz, ld, es, 0)
    ensures TotalWidth(lz, ld, es) <= 8 * |input| < TotalWidth(lz, ld, es) + 8
  {
    hide Coded, Written, WrittenAll, Fits, TotalWidth, Number, Pow2, ByteCut;
    var w := TotalWidth(lz, ld, es);
    var k := (w + 7) / 8;
    WrittenBelow(lz, ld, es);
    Pow2Grows(w, 8 * k);
    ByteCutIs(WrittenAll(lz, ld, es, 0), k);
    input := ByteCut(WrittenAll(lz, ld, es, 0), k);
  }

  /**
    Writes tokens as bytes with the codes of the given lengths, builds the decoder's tables from
    the same lengths and decodes: the output is what the tokens expand to, or memory ran out.
   */
  method RoundTrip(lz: seq<nat>, ld: seq<nat>, tokens: seq<Token>, size: nat, memory: nat -> bool) returns (status: Status, output: seq<Byte>)
    requires LensOk(lz) && LensOk(ld) && KraftSum(lz, |lz|) <= 65536 && KraftSum(ld, |ld|) <= 65536 && size > 0
    requires InFormat(tokens) && AllCoded(lz, ld, EventsOf(tokens) + [END_OF_BLOCK]) && Expansion([], tokens).Some?
    ensures status == NoMemory || (status == Finished && Some(output) == Expansion([], tokens))
  {
    hide Coded, Written, Fits, TotalWidth, AllRead, Behind, TokensOf, EventsOf, Expansion, BlockOutcome, KraftSum, TableOk, StreamOf, Says, Number, WrittenAll, NoRoom;
    FitsIffKraft(lz);
    FitsIffKraft(ld);
    var es := EventsOf(tokens);
    var input := WriteBlock(lz, ld, es + [END_OF_BLOCK]);
    var zl := Tables(lz);
    var zd := Tables(ld);
    var r := new BitReader(input);
    var out := new Output(size, true);
    ghost var left, before := r.Left(), out.Contents();
    ghost var events, cut;
    status, events, cut := InflateBlock(r, out, zl, zd, memory);
    EncodedBlockDecodes(lz, ld, es, 0, left, before, r.Stream(), r.Left(), out.Contents(), status, events, cut);
    output := out.buf[..out.len];
  }
}
