/** One compressed block decoded from the bytes it is stored in: bit reader, code tables and output together. */
module InflateStream {
  import opened BitReverse
  import opened HuffmanCode
  import opened Huffman
  import opened Inflate
  import opened BitStream
  import opened DeflateTokens

  function LengthExtra(z: int): nat { if IsLength(z) then LENGTH_EXTRA[z - 257] else 0 }

  function DistExtra(dz: int): nat { if IsDistance(dz) then DIST_EXTRA[dz] else 0 }

  lemma ExtraIsSmall(z: int)
    ensures LengthExtra(z) <= 24 && DistExtra(z) <= 24
  {
  }

  // ---------------------------------------------------------------- reference

  /** `e` is what the stream `n` holds next, by the canonical codes of the given lengths. */
  ghost predicate Reads(lz: seq<nat>, ld: seq<nat>, n: nat, e: Event)
    requires LensOk(lz) && LensOk(ld)
  {
    && Decoded(lz, Rev(n, 16), e.z, SymBits(lz, e.z))
    && (IsLength(e.z) ==> ReadsLength(ld, Behind(n, SymBits(lz, e.z)), e))
  }

  ghost predicate ReadsLength(ld: seq<nat>, n: nat, e: Event)
    requires LensOk(ld)
  {
    e.extra == n % Pow2(LengthExtra(e.z)) && ReadsDistance(ld, Behind(n, LengthExtra(e.z)), e)
  }

  ghost predicate ReadsDistance(ld: seq<nat>, n: nat, e: Event)
    requires LensOk(ld)
  {
    && Decoded(ld, Rev(n, 16), e.dz, SymBits(ld, e.dz))
    && (IsDistance(e.dz) ==> e.dextra == Behind(n, SymBits(ld, e.dz)) % Pow2(DistExtra(e.dz)))
  }

  /** Bits the symbol takes: its code, and for a match the extra bits and the distance's code and extra bits. */
  function Width(lz: seq<nat>, ld: seq<nat>, e: Event): nat {
    SymBits(lz, e.z) + if IsLength(e.z) then LengthExtra(e.z) + SymBits(ld, e.dz) + DistExtra(e.dz) else 0
  }

  function TotalWidth(lz: seq<nat>, ld: seq<nat>, events: seq<Event>): nat {
    if events == [] then 0
    else TotalWidth(lz, ld, events[..|events| - 1]) + Width(lz, ld, events[|events| - 1])
  }

  /** The events are what the stream `n` holds, one after another. */
  ghost predicate AllRead(lz: seq<nat>, ld: seq<nat>, n: nat, events: seq<Event>)
    requires LensOk(lz) && LensOk(ld)
  {
    events == [] ||
      var init := events[..|events| - 1];
      AllRead(lz, ld, n, init) && Reads(lz, ld, Behind(n, TotalWidth(lz, ld, init)), events[|events| - 1])
  }

  /** The stream determines its symbols. */
  lemma ReadsUnique(lz: seq<nat>, ld: seq<nat>, n: nat, e: Event, f: Event)
    requires LensOk(lz) && LensOk(ld) && Reads(lz, ld, n, e) && Reads(lz, ld, n, f)
    ensures e.z == f.z && Width(lz, ld, e) == Width(lz, ld, f)
    ensures IsLength(e.z) ==> e.extra == f.extra && e.dz == f.dz && (IsDistance(e.dz) ==> e.dextra == f.dextra)
  {
    hide Rev, Pow2, Decoded, Behind;
    DecodedUnique(lz, Rev(n, 16), e.z, f.z);
    if IsLength(e.z) {
      var m := Behind(Behind(n, SymBits(lz, e.z)), LengthExtra(e.z));
      DecodedUnique(ld, Rev(m, 16), e.dz, f.dz);
    }
  }

  lemma DecodedUnique(l: seq<nat>, k: nat, a: int, b: int)
    requires LensOk(l) && Decoded(l, k, a, SymBits(l, a)) && Decoded(l, k, b, SymBits(l, b))
    ensures a == b
  {
    hide Matches;
    if a >= 0 && b >= 0 { MatchUnique(l, a, b, k); }
  }

  /** A match's length and distance are within the bounds of the format. */
  lemma ReadsBounded(lz: seq<nat>, ld: seq<nat>, n: nat, e: Event)
    requires LensOk(lz) && LensOk(ld) && Reads(lz, ld, n, e) && IsLength(e.z)
    ensures e.extra < Pow2(LengthExtra(e.z)) && (IsDistance(e.dz) ==> e.dextra < Pow2(DistExtra(e.dz)))
  {
    hide Rev, Pow2, Decoded, Behind;
  }

  /** The extra values the stream holds fit their extra bits. */
  lemma ReadsInRange(lz: seq<nat>, ld: seq<nat>, n: nat, e: Event)
    requires LensOk(lz) && LensOk(ld) && Reads(lz, ld, n, e)
    ensures InRange(e)
  {
    hide Reads, LengthBits, DistBits, Pow2;
    if IsLength(e.z) {
      ReadsBounded(lz, ld, n, e);
      LengthTable(e.z);
      if IsDistance(e.dz) { DistTable(e.dz); }
      hide LENGTH_EXTRA, DIST_EXTRA, LENGTH_BASE, DIST_BASE;
    }
  }

  lemma {:induction false} AllReadInRange(lz: seq<nat>, ld: seq<nat>, n: nat, events: seq<Event>)
    requires LensOk(lz) && LensOk(ld) && AllRead(lz, ld, n, events)
    ensures AllInRange(events)
    decreases |events|
  {
    hide Reads, TotalWidth, Behind, InRange;
    if events != [] {
      var init := events[..|events| - 1];
      AllReadInRange(lz, ld, n, init);
      ReadsInRange(lz, ld, Behind(n, TotalWidth(lz, ld, init)), events[|events| - 1]);
      assert forall i :: 0 <= i < |init| ==> InRange(init[i]);
    }
  }

  /** The symbols before the last say tokens, and `outNow` is `out` with those tokens expanded. */
  ghost predicate Says(out: seq<Basics.Byte>, events: seq<Event>, outNow: seq<Basics.Byte>) {
    && events != []
    && var tokens := TokensOf(events[..|events| - 1]);
       tokens.Some? && Expansion(out, tokens.value) == Basics.Some(outNow)
  }

  /** A finished block is the end symbol behind tokens, and its output is their expansion; so is what an exhausted buffer holds. */
  lemma OutcomeSays(lz: seq<nat>, ld: seq<nat>, n: nat, now: nat, left: int, leftNow: int, out: seq<Basics.Byte>, outNow: seq<Basics.Byte>,
                    status: Status, events: seq<Event>, cut: bool)
    requires LensOk(lz) && LensOk(ld) && BlockOutcome(lz, ld, n, now, left, leftNow, out, outNow, status, events, cut)
    ensures status != Malformed ==> Says(out, events, outNow)
    ensures status == Finished ==> events[|events| - 1].z == 256
  {
    hide Reads, TotalWidth, Width, Behind, RunsOut, After, TokensOf, Expansion, InRange;
    var init, last := events[..|events| - 1], events[|events| - 1];
    AllReadInRange(lz, ld, n, init);
    AfterAllIsExpansion(out, init);
    EndIsSeen(AfterAll(out, init).out, last);
  }

  // ------------------------------------------------------------- one symbol

  /** Extra bits, if the symbol has any. */
  method ReceiveExtra(r: BitReader, n: nat) returns (k: nat)
    requires r.Valid() && n <= 24
    modifies r`pos, r`code, r`bits, r`padded
    ensures r.Valid() && k == old(r.Stream()) % Pow2(n) && r.Stream() == Behind(old(r.Stream()), n) && r.Left() == old(r.Left()) - n
    ensures r.padded >= old(r.padded)
  {
    hide StreamOf;
    if n != 0 {
      k := r.Receive(n);
    } else {
      k := 0;
      DropNothing(r.Stream());
    }
  }

  /** The rest of a match behind its length symbol. */
  method ReadMatch(r: BitReader, zd: ZHuffman, z: int) returns (e: Event, ghost cut: bool)
    requires r.Valid() && zd.Valid() && IsLength(z)
    modifies r
    ensures r.Valid() && r.padded >= old(r.padded) && e.z == z
    ensures cut ==> r.Left() == old(r.Left()) - LengthExtra(z) < 0 && e.dz < 0
    ensures !cut ==> LensOk(zd.lens) && ReadsLength(zd.lens, old(r.Stream()), e)
    ensures !cut ==> var w := LengthExtra(z) + SymBits(zd.lens, e.dz) + DistExtra(e.dz);
                     r.Stream() == Behind(old(r.Stream()), w) && r.Left() == old(r.Left()) - w
  {
    hide Pow2, Behind, StreamOf, Rev, TableOk, Decoded, LengthExtra, DistExtra;
    LensAreOk(zd);
    ghost var n := r.Stream();
    ExtraIsSmall(z);
    var extra := ReceiveExtra(r, LengthExtra(z));
    ghost var n1 := r.Stream();
    var dz;
    dz, cut := r.Decode(zd);
    e := Event(z, extra, dz, 0, false);
    ghost var n2 := r.Stream();
    ExtraIsSmall(dz);
    DroppedTwice(n, LengthExtra(z), SymBits(zd.lens, dz));
    DroppedTwice(n, LengthExtra(z) + SymBits(zd.lens, dz), DistExtra(dz));
    if dz < 0 || dz >= 30 {
      NoDistExtra(dz);
      DropNothing(n2);
      return;
    }
    var dextra := ReceiveExtra(r, DistExtra(dz));
    e := Event(z, extra, dz, dextra, false);
  }

  lemma NoDistExtra(dz: int)
    requires !IsDistance(dz)
    ensures DistExtra(dz) == 0
  {
  }

  /**
    The next symbol with everything that belongs to it. `cut` says that the input ended inside it
    and bits past the end have been consumed.
   */
  method NextEvent(r: BitReader, zl: ZHuffman, zd: ZHuffman) returns (e: Event, ghost cut: bool)
    requires r.Valid() && zl.Valid() && zd.Valid()
    modifies r
    ensures r.Valid() && r.padded >= old(r.padded) && LensOk(zl.lens) && LensOk(zd.lens)
    ensures cut ==> r.Left() < 0 && (e.z < 0 || (IsLength(e.z) && e.dz < 0))
    ensures cut ==> RunsOut(zl.lens, zd.lens, old(r.Stream()), old(r.Left()))
    ensures old(r.bits) >= 16 || old(r.pos) < |r.input| ==> Decoded(zl.lens, Rev(old(r.Stream()), 16), e.z, SymBits(zl.lens, e.z))
    ensures (old(r.bits) >= 16 || old(r.pos) < |r.input|) && !IsLength(e.z) ==> !cut && r.hitEof == old(r.hitEof)
    ensures !cut ==> Reads(zl.lens, zd.lens, old(r.Stream()), e)
    ensures !cut ==> var w := Width(zl.lens, zd.lens, e);
                     r.Stream() == Behind(old(r.Stream()), w) && r.Left() == old(r.Left()) - w
    ensures e.z == 256 ==> e.overrun == Flagged(r.hitEof, r.bits)
  {
    hide Pow2, Behind, StreamOf, Rev, TableOk, Decoded, LengthExtra, DistExtra, ReadsLength, RunsOut;
    LensAreOk(zl);
    LensAreOk(zd);
    ghost var n, left := r.Stream(), r.Left();
    var z;
    z, cut := r.Decode(zl);
    e := Event(z, 0, -1, 0, Flagged(r.hitEof, r.bits));
    if !IsLength(z) {
      if cut { NothingLeftToRead(zl.lens, zd.lens, n, left); }
      return;
    }
    e, cut := ReadMatch(r, zd, z);
    if cut { MatchRunsOut(zl.lens, zd.lens, n, left, z); }
    if !cut { DroppedTwice(n, SymBits(zl.lens, z), LengthExtra(z) + SymBits(zd.lens, e.dz) + DistExtra(e.dz)); }
  }

  /** Whatever the stream holds next needs more bits than the input has left. */
  ghost predicate RunsOut(lz: seq<nat>, ld: seq<nat>, n: nat, left: int)
    requires LensOk(lz) && LensOk(ld)
  {
    forall f {:trigger Reads(lz, ld, n, f)} :: Reads(lz, ld, n, f) ==> left < Width(lz, ld, f)
  }

  lemma NothingLeftToRead(lz: seq<nat>, ld: seq<nat>, n: nat, left: int)
    requires LensOk(lz) && LensOk(ld) && left < 0
    ensures RunsOut(lz, ld, n, left)
  {
    hide Reads;
  }

  lemma MatchRunsOut(lz: seq<nat>, ld: seq<nat>, n: nat, left: int, z: int)
    requires LensOk(lz) && LensOk(ld) && IsLength(z) && Decoded(lz, Rev(n, 16), z, SymBits(lz, z))
    requires left < SymBits(lz, z) + LengthExtra(z)
    ensures RunsOut(lz, ld, n, left)
  {
    hide Rev, Decoded, Behind, ReadsLength, LengthExtra, DistExtra;
    forall f | Reads(lz, ld, n, f) ensures left < Width(lz, ld, f) { DecodedUnique(lz, Rev(n, 16), f.z, z); }
  }

  /**
    Bits past the end have been consumed exactly when more zeros were supplied than are still
    buffered. The check at the end symbol fires only then. It misses them exactly when the decoder
    has not padded itself or sixteen bits are still buffered: zeros that refilling supplied, for a
    code or for extra bits, leave no trace.
   */
  lemma EndCheck(r: BitReader)
    requires r.Valid()
    ensures r.Left() < 0 <==> r.padded > r.bits
    ensures Flagged(r.hitEof, r.bits) ==> r.Left() < 0
    ensures r.Left() < 0 && !Flagged(r.hitEof, r.bits) <==> r.padded > r.bits && (!r.hitEof || r.bits >= 16)
  {
  }

  /** What the decoder tests at the end symbol. */
  predicate Flagged(hitEof: bool, bits: nat) { hitEof && bits < 16 }

  // -------------------------------------------------------------- the block

  lemma ReadMore(lz: seq<nat>, ld: seq<nat>, n: nat, events: seq<Event>, e: Event)
    requires LensOk(lz) && LensOk(ld) && AllRead(lz, ld, n, events)
    ensures TotalWidth(lz, ld, events + [e]) == TotalWidth(lz, ld, events) + Width(lz, ld, e)
    ensures Reads(lz, ld, Behind(n, TotalWidth(lz, ld, events)), e) ==> AllRead(lz, ld, n, events + [e])
    ensures Behind(Behind(n, TotalWidth(lz, ld, events)), Width(lz, ld, e)) == Behind(n, TotalWidth(lz, ld, events + [e]))
  {
    hide Reads, Width, Pow2, Behind;
    assert (events + [e])[..|events|] == events;
    DroppedTwice(n, TotalWidth(lz, ld, events), Width(lz, ld, e));
  }

  lemma AfterMore(out: seq<Basics.Byte>, events: seq<Event>, e: Event)
    requires AfterAll(out, events).Going?
    ensures AfterAll(out, events + [e]) == After(AfterAll(out, events).out, e)
  {
    hide After;
    assert (events + [e])[..|events|] == events;
  }

  /**
    What decoding a block came to. Finished: the stream held symbols that build the output and end
    the block. Malformed: it held symbols that are corrupt, or it ended inside one. Out of memory:
    the last symbol found no room.
   */
  ghost predicate BlockOutcome(lz: seq<nat>, ld: seq<nat>, n: nat, now: nat, left: int, leftNow: int,
                               out: seq<Basics.Byte>, outNow: seq<Basics.Byte>, status: Status, events: seq<Event>, cut: bool)
    requires LensOk(lz) && LensOk(ld)
  {
    && events != []
    && var init, last := events[..|events| - 1], events[|events| - 1];
    && AfterAll(out, init).Going?
    && (!cut ==> AllRead(lz, ld, n, events) && now == Behind(n, TotalWidth(lz, ld, events)) && leftNow == left - TotalWidth(lz, ld, events))
    && (!cut && last.z == 256 && last.overrun ==> leftNow < 0)
    && (cut ==> status == Malformed && leftNow < 0 && AllRead(lz, ld, n, init)
                && RunsOut(lz, ld, Behind(n, TotalWidth(lz, ld, init)), left - TotalWidth(lz, ld, init)))
    && match status
       case Finished => AfterAll(out, events) == Done(outNow)
       case Malformed => AfterAll(out, events) == Corrupt
       case NoMemory => AfterAll(out, init) == Going(outNow) && AfterAll(out, events).Going?
  }

  /** The symbols `events` were read from the stream and applied; the block goes on. */
  ghost predicate BlockSoFar(lz: seq<nat>, ld: seq<nat>, n: nat, now: nat, left: int, leftNow: int,
                             out: seq<Basics.Byte>, outNow: seq<Basics.Byte>, events: seq<Event>)
    requires LensOk(lz) && LensOk(ld)
  {
    && AllRead(lz, ld, n, events) && now == Behind(n, TotalWidth(lz, ld, events)) && leftNow == left - TotalWidth(lz, ld, events)
    && AfterAll(out, events) == Going(outNow)
  }

  /** One more symbol `e`, read from `mid` and applied to `outMid`. */
  lemma BlockStep(lz: seq<nat>, ld: seq<nat>, n: nat, mid: nat, now: nat, left: int, leftMid: int, leftNow: int,
                  out: seq<Basics.Byte>, outMid: seq<Basics.Byte>, outNow: seq<Basics.Byte>,
                  events: seq<Event>, e: Event, cut: bool, going: bool, status: Status)
    requires LensOk(lz) && LensOk(ld) && BlockSoFar(lz, ld, n, mid, left, leftMid, out, outMid, events)
    requires !cut ==> Reads(lz, ld, mid, e) && now == Behind(mid, Width(lz, ld, e)) && leftNow == leftMid - Width(lz, ld, e)
    requires cut ==> leftNow < 0 && (e.z < 0 || (IsLength(e.z) && e.dz < 0)) && RunsOut(lz, ld, mid, leftMid)
    requires e.z == 256 && e.overrun ==> leftNow < 0
    requires going ==> After(outMid, e) == Going(outNow)
    requires !going && status == Finished ==> After(outMid, e) == Done(outNow)
    requires !going && status == Malformed ==> After(outMid, e) == Corrupt
    requires !going && status == NoMemory ==> outNow == outMid && After(outMid, e).Going?
    ensures going ==> !cut && BlockSoFar(lz, ld, n, now, left, leftNow, out, outNow, events + [e])
    ensures !going ==> BlockOutcome(lz, ld, n, now, left, leftNow, out, outNow, status, events + [e], cut)
  {
    hide Reads, AllRead, TotalWidth, Width, AfterAll, Behind, RunsOut;
    CutIsCorrupt(outMid, e);
    hide After;
    ReadMore(lz, ld, n, events, e);
    AfterMore(out, events, e);
    assert (events + [e])[..|events + [e]| - 1] == events;
  }

  /** The symbol needs more than the buffer has, and the buffer cannot grow. */
  ghost predicate NoRoomFor(e: Event, limit: nat, len: nat, expandable: bool, memory: bool) {
    0 < limit && CannotGrow(limit, len, Needed(e), expandable, memory)
  }

  ghost predicate NoRoom(events: seq<Event>, limit: nat, len: nat, expandable: bool, memory: nat -> bool) {
    events != [] && exists k: nat :: NoRoomFor(events[|events| - 1], limit, len, expandable, memory(k))
  }

  lemma NoRoomAt(events: seq<Event>, e: Event, limit: nat, len: nat, expandable: bool, memory: nat -> bool, k: nat)
    ensures NoRoomFor(e, limit, len, expandable, memory(k)) ==> NoRoom(events + [e], limit, len, expandable, memory)
  {
    hide NoRoomFor;
    assert (events + [e])[|events + [e]| - 1] == e;
  }

  /**
    Decodes a block from the reader into the output. A finished block may have consumed bits past
    the end of the input, exactly when more zeros were supplied than are still buffered. A block
    whose first symbol is the end symbol, decoded while a byte of the input is left, is finished
    wherever the bits of that symbol lie.
   */
  method InflateBlock(r: BitReader, out: Output, zl: ZHuffman, zd: ZHuffman, memory: nat -> bool)
    returns (status: Status, ghost events: seq<Event>, ghost cut: bool)
    requires r.Valid() && out.Valid() && zl.Valid() && zd.Valid()
    modifies r, out, out.buf
    ensures r.Valid() && out.Valid() && LensOk(zl.lens) && LensOk(zd.lens)
    ensures BlockOutcome(zl.lens, zd.lens, old(r.Stream()), r.Stream(), old(r.Left()), r.Left(),
                         old(out.Contents()), out.Contents(), status, events, cut)
    ensures status != Malformed ==> Says(old(out.Contents()), events, out.Contents())
    ensures status == Finished ==> !Flagged(r.hitEof, r.bits) && (r.Left() < 0 <==> r.padded > r.bits)
    ensures old(r.pos) < |r.input| && !old(r.hitEof) && StartsWithEnd(zl.lens, old(r.Stream())) ==>
              status == Finished && r.Left() == old(r.Left()) - SymBits(zl.lens, 256)
    ensures status == NoMemory ==> NoRoom(events, out.buf.Length, out.len, out.expandable, memory)
  {
    hide StreamOf, TableOk, BlockSoFar, BlockOutcome, NoRoom, NoRoomFor, StartsWithEnd, SymBits, Flagged, Says;
    LensAreOk(zl);
    LensAreOk(zd);
    ghost var n0, left0, out0 := r.Stream(), r.Left(), out.Contents();
    ghost var endsFirst := r.pos < |r.input| && !r.hitEof && StartsWithEnd(zl.lens, n0);
    ghost var top := Max(out.buf.Length, UINT_MAX);
    events, cut := [], false;
    var k := 0;
    StartBlock(zl.lens, zd.lens, n0, left0, out0);
    while true
      invariant r.Valid() && out.Valid() && (out.buf == old(out.buf) || fresh(out.buf)) && out.buf.Length <= top
      invariant BlockSoFar(zl.lens, zd.lens, n0, r.Stream(), left0, r.Left(), out0, out.Contents(), events)
      invariant endsFirst ==> events == [] && r.pos == old(r.pos) && !r.hitEof && r.Stream() == n0 && r.Left() == left0
      decreases top - out.len
    {
      var going;
      ghost var e;
      going, status, e, cut := OneSymbol(r, out, zl, zd, memory(k), n0, left0, out0, events);
      NoRoomAt(events, e, out.buf.Length, out.len, out.expandable, memory, k);
      events := events + [e];
      if !going {
        OutcomeSays(zl.lens, zd.lens, n0, r.Stream(), left0, r.Left(), out0, out.Contents(), status, events, cut);
        return;
      }
      k := k + 1;
    }
  }

  /** One round of the loop: reads a symbol and applies it. */
  method OneSymbol(r: BitReader, out: Output, zl: ZHuffman, zd: ZHuffman, memory: bool,
                   ghost n: nat, ghost left: int, ghost was: seq<Basics.Byte>, ghost events: seq<Event>)
    returns (going: bool, status: Status, ghost e: Event, ghost cut: bool)
    requires r.Valid() && out.Valid() && zl.Valid() && zd.Valid() && LensOk(zl.lens) && LensOk(zd.lens)
    requires BlockSoFar(zl.lens, zd.lens, n, r.Stream(), left, r.Left(), was, out.Contents(), events)
    modifies r, out, out.buf
    ensures r.Valid() && out.Valid() && (out.buf == old(out.buf) || fresh(out.buf)) && out.buf.Length <= Max(old(out.buf.Length), UINT_MAX)
    ensures going ==> out.len > old(out.len)
    ensures going ==> BlockSoFar(zl.lens, zd.lens, n, r.Stream(), left, r.Left(), was, out.Contents(), events + [e])
    ensures !going ==> BlockOutcome(zl.lens, zd.lens, n, r.Stream(), left, r.Left(), was, out.Contents(), status, events + [e], cut)
    ensures !going && status == Finished ==> !Flagged(r.hitEof, r.bits)
    ensures old(r.pos) < |r.input| && !old(r.hitEof) && StartsWithEnd(zl.lens, old(r.Stream())) ==>
              !going && status == Finished && r.Left() == old(r.Left()) - SymBits(zl.lens, 256)
    ensures !going && status == NoMemory ==> NoRoomFor(e, out.buf.Length, out.len, out.expandable, memory)
  {
    hide Pow2, Behind, StreamOf, TableOk, Reads, BlockSoFar, BlockOutcome, After, CannotGrow, Needed, Decoded, Rev, RunsOut, LengthExtra, DistExtra, StartsWithEnd;
    ghost var mid, leftMid, outMid := r.Stream(), r.Left(), out.Contents();
    var event;
    event, cut := NextEvent(r, zl, zd);
    e := event;
    EndCheck(r);
    EndIsSeen(outMid, e);
    FirstIsEnd(zl.lens, mid, e.z);
    going, status := out.Apply(event, memory);
    BlockStep(zl.lens, zd.lens, n, mid, r.Stream(), left, leftMid, r.Left(), was, outMid, out.Contents(), events, e, cut, going, status);
  }

  lemma StartBlock(lz: seq<nat>, ld: seq<nat>, n: nat, left: int, out: seq<Basics.Byte>)
    requires LensOk(lz) && LensOk(ld)
    ensures BlockSoFar(lz, ld, n, n, left, left, out, out, [])
  {
    DropNothing(n);
  }

  lemma CutIsCorrupt(out: seq<Basics.Byte>, e: Event)
    ensures e.z < 0 || (IsLength(e.z) && e.dz < 0) ==> After(out, e) == Corrupt
  {
  }

  lemma EndIsSeen(out: seq<Basics.Byte>, e: Event)
    ensures After(out, e).Done? ==> e.z == 256 && !e.overrun
    ensures e.z == 256 && !e.overrun ==> After(out, e) == Done(out)
  {
  }

  /** The first symbol of the stream is the end symbol. */
  ghost predicate StartsWithEnd(l: seq<nat>, n: nat) {
    LensOk(l) && Decoded(l, Rev(n, 16), 256, SymBits(l, 256))
  }

  lemma FirstIsEnd(l: seq<nat>, n: nat, z: int)
    requires LensOk(l)
    ensures StartsWithEnd(l, n) && Decoded(l, Rev(n, 16), z, SymBits(l, z)) ==> z == 256
  {
    hide Decoded, Rev;
    if StartsWithEnd(l, n) && Decoded(l, Rev(n, 16), z, SymBits(l, z)) { DecodedUnique(l, Rev(n, 16), 256, z); }
  }

  // ------------------------------------------- which inputs finish, and how

  /** The stream holds a whole block, up to its end symbol, in its first `left` bits. */
  ghost predicate Holds(lz: seq<nat>, ld: seq<nat>, n: nat, left: int, out: seq<Basics.Byte>, fs: seq<Event>, result: seq<Basics.Byte>)
    requires LensOk(lz) && LensOk(ld)
  {
    && fs != [] && AllRead(lz, ld, n, fs) && TotalWidth(lz, ld, fs) <= left
    && AfterAll(out, fs[..|fs| - 1]).Going? && AfterAll(out, fs) == Done(result)
  }

  ghost predicate InputHolds(lz: seq<nat>, ld: seq<nat>, n: nat, left: int, out: seq<Basics.Byte>)
    requires LensOk(lz) && LensOk(ld)
  {
    exists fs, result :: Holds(lz, ld, n, left, out, fs, result)
  }

  /** What is read and applied one symbol earlier. */
  lemma LastOf(lz: seq<nat>, ld: seq<nat>, n: nat, out: seq<Basics.Byte>, a: seq<Event>, k: nat)
    requires LensOk(lz) && LensOk(ld) && 0 < k <= |a| && AllRead(lz, ld, n, a[..k])
    ensures AllRead(lz, ld, n, a[..k - 1]) && Reads(lz, ld, Behind(n, TotalWidth(lz, ld, a[..k - 1])), a[k - 1])
    ensures TotalWidth(lz, ld, a[..k]) == TotalWidth(lz, ld, a[..k - 1]) + Width(lz, ld, a[k - 1])
    ensures AfterAll(out, a[..k]).Going? ==> AfterAll(out, a[..k - 1]).Going?
    ensures AfterAll(out, a[..k - 1]).Going? ==> AfterAll(out, a[..k]) == After(AfterAll(out, a[..k - 1]).out, a[k - 1])
  {
    hide Reads, Width, Behind, After;
    assert a[..k][..k - 1] == a[..k - 1];
  }

  lemma {:induction false} PrefixOf(lz: seq<nat>, ld: seq<nat>, n: nat, out: seq<Basics.Byte>, a: seq<Event>, k: nat)
    requires LensOk(lz) && LensOk(ld) && k <= |a| && AllRead(lz, ld, n, a)
    ensures AllRead(lz, ld, n, a[..k]) && TotalWidth(lz, ld, a[..k]) <= TotalWidth(lz, ld, a)
    ensures AfterAll(out, a).Going? ==> AfterAll(out, a[..k]).Going?
    decreases |a| - k
  {
    hide AllRead, TotalWidth, AfterAll, Reads, Width, Behind, After;
    if k == |a| {
      assert a[..k] == a;
    } else {
      PrefixOf(lz, ld, n, out, a, k + 1);
      LastOf(lz, ld, n, out, a, k + 1);
    }
  }

  /** Symbols that mean the same, one of which goes on, do the same. */
  lemma SameAfter(out: seq<Basics.Byte>, e: Event, f: Event)
    requires e.z == f.z && (IsLength(e.z) ==> e.extra == f.extra && e.dz == f.dz && (IsDistance(e.dz) ==> e.dextra == f.dextra))
    ensures e.z != 256 ==> After(out, e) == After(out, f)
    ensures e.z == 256 ==> !After(out, e).Going?
    ensures After(out, e).Done? ==> e.z == 256 && !e.overrun && After(out, e).out == out
  {
    hide MatchBytes;
  }

  /** Two readings of one stream agree as long as both go on. */
  lemma {:induction false} ReadAlike(lz: seq<nat>, ld: seq<nat>, n: nat, out: seq<Basics.Byte>, a: seq<Event>, b: seq<Event>, k: nat)
    requires LensOk(lz) && LensOk(ld) && k <= |a| && k <= |b| && AllRead(lz, ld, n, a[..k]) && AllRead(lz, ld, n, b[..k])
    requires AfterAll(out, a[..k]).Going? && AfterAll(out, b[..k]).Going?
    ensures AfterAll(out, a[..k]) == AfterAll(out, b[..k]) && TotalWidth(lz, ld, a[..k]) == TotalWidth(lz, ld, b[..k])
    decreases k
  {
    if k == 0 {
      assert a[..0] == b[..0];
    } else {
      hide AllRead, TotalWidth, AfterAll, Reads, Width, Behind, After;
      LastOf(lz, ld, n, out, a, k);
      LastOf(lz, ld, n, out, b, k);
      ReadAlike(lz, ld, n, out, a, b, k - 1);
      ReadsUnique(lz, ld, Behind(n, TotalWidth(lz, ld, a[..k - 1])), a[k - 1], b[k - 1]);
      SameAfter(AfterAll(out, a[..k - 1]).out, a[k - 1], b[k - 1]);
    }
  }

  /** A reading that goes on is shorter than the block: it never passes the end symbol. */
  lemma StopsAtEnd(lz: seq<nat>, ld: seq<nat>, n: nat, left: int, out: seq<Basics.Byte>, a: seq<Event>, fs: seq<Event>, result: seq<Basics.Byte>)
    requires LensOk(lz) && LensOk(ld) && Holds(lz, ld, n, left, out, fs, result) && AllRead(lz, ld, n, a) && |a| >= |fs|
    ensures !AfterAll(out, a).Going?
  {
    hide AllRead, TotalWidth, AfterAll, Reads, Width, Behind, After;
    var k := |fs|;
    PrefixOf(lz, ld, n, out, a, k);
    PrefixOf(lz, ld, n, out, fs, k);
    assert fs[..k] == fs && fs[..k - 1] == fs[..|fs| - 1];
    LastOf(lz, ld, n, out, a, k);
    LastOf(lz, ld, n, out, fs, k);
    if AfterAll(out, a[..k - 1]).Going? {
      ReadAlike(lz, ld, n, out, a, fs, k - 1);
      ReadsUnique(lz, ld, Behind(n, TotalWidth(lz, ld, a[..k - 1])), a[k - 1], fs[k - 1]);
      SameAfter(AfterAll(out, fs[..k - 1]).out, fs[k - 1], a[k - 1]);
      SameAfter(AfterAll(out, fs[..k - 1]).out, a[k - 1], fs[k - 1]);
    }
  }

  /** Where the decoder stands at its last symbol, seen from the block the input holds. */
  lemma AtLast(lz: seq<nat>, ld: seq<nat>, n: nat, left: int, out: seq<Basics.Byte>, events: seq<Event>, fs: seq<Event>, result: seq<Basics.Byte>)
    requires LensOk(lz) && LensOk(ld) && Holds(lz, ld, n, left, out, fs, result) && events != []
    requires AllRead(lz, ld, n, events[..|events| - 1]) && AfterAll(out, events[..|events| - 1]).Going?
    ensures var m, init := |events|, events[..|events| - 1];
            && m <= |fs| && AfterAll(out, init) == AfterAll(out, fs[..m - 1]) && TotalWidth(lz, ld, init) == TotalWidth(lz, ld, fs[..m - 1])
            && Reads(lz, ld, Behind(n, TotalWidth(lz, ld, init)), fs[m - 1])
            && TotalWidth(lz, ld, init) + Width(lz, ld, fs[m - 1]) == TotalWidth(lz, ld, fs[..m]) <= left
            && AfterAll(out, fs[..m]) == After(AfterAll(out, init).out, fs[m - 1])
            && (m < |fs| ==> AfterAll(out, fs[..m]).Going?)
  {
    hide AllRead, TotalWidth, AfterAll, Reads, Width, Behind, After;
    var m, init := |events|, events[..|events| - 1];
    if m > |fs| { StopsAtEnd(lz, ld, n, left, out, init, fs, result); }
    PrefixOf(lz, ld, n, out, fs, |fs| - 1);
    PrefixOf(lz, ld, n, out, fs, m);
    LastOf(lz, ld, n, out, fs, m);
    var most := fs[..|fs| - 1];
    PrefixOf(lz, ld, n, out, most, m - 1);
    assert most[..m - 1] == fs[..m - 1];
    if m < |fs| {
      PrefixOf(lz, ld, n, out, most, m);
      assert most[..m] == fs[..m];
    }
    assert events[..m - 1] == init;
    ReadAlike(lz, ld, n, out, events, fs, m - 1);
  }

  /** If the input holds a block, the decoder finishes with its result, or runs out of memory. */
  lemma HeldBlockFinishes(lz: seq<nat>, ld: seq<nat>, n: nat, now: nat, left: int, leftNow: int, out: seq<Basics.Byte>, outNow: seq<Basics.Byte>,
                          status: Status, events: seq<Event>, cut: bool, fs: seq<Event>, result: seq<Basics.Byte>)
    requires LensOk(lz) && LensOk(ld) && BlockOutcome(lz, ld, n, now, left, leftNow, out, outNow, status, events, cut)
    requires Holds(lz, ld, n, left, out, fs, result)
    ensures status == NoMemory || (status == Finished && outNow == result && leftNow >= 0)
    ensures status == Finished ==> now == Behind(n, TotalWidth(lz, ld, fs)) && leftNow == left - TotalWidth(lz, ld, fs)
  {
    hide AllRead, TotalWidth, AfterAll, Reads, Width, Behind, After;
    var m, init, last := |events|, events[..|events| - 1], events[|events| - 1];
    assert events[..m] == events && events[..m - 1] == init;
    if !cut { LastOf(lz, ld, n, out, events, m); }
    LastBits(lz, ld, n, out, events, cut);
    AtLast(lz, ld, n, left, out, events, fs, result);
    if !cut {
      ReadsUnique(lz, ld, Behind(n, TotalWidth(lz, ld, init)), last, fs[m - 1]);
      SameAfter(AfterAll(out, init).out, last, fs[m - 1]);
      SameAfter(AfterAll(out, init).out, fs[m - 1], last);
      EndIsSeen(AfterAll(out, init).out, last);
      if m == |fs| { assert fs[..m] == fs; }
    }
  }

  lemma LastBits(lz: seq<nat>, ld: seq<nat>, n: nat, out: seq<Basics.Byte>, events: seq<Event>, cut: bool)
    requires LensOk(lz) && LensOk(ld) && events != [] && (!cut ==> AllRead(lz, ld, n, events)) && (cut ==> AllRead(lz, ld, n, events[..|events| - 1]))
    ensures AllRead(lz, ld, n, events[..|events| - 1])
  {
    hide Reads, Behind, Width, TotalWidth;
  }

  /**
    Memory permitting, the decoder finishes without a bit past the end exactly when the input
    holds a whole block; a block finished with bits past the end is none the input holds.
   */
  lemma FinishedIff(lz: seq<nat>, ld: seq<nat>, n: nat, now: nat, left: int, leftNow: int, out: seq<Basics.Byte>, outNow: seq<Basics.Byte>,
                    status: Status, events: seq<Event>, cut: bool)
    requires LensOk(lz) && LensOk(ld) && BlockOutcome(lz, ld, n, now, left, leftNow, out, outNow, status, events, cut)
    requires status != NoMemory
    ensures status == Finished && leftNow >= 0 <==> InputHolds(lz, ld, n, left, out)
  {
    hide AllRead, TotalWidth, AfterAll, Reads, Width, Behind, After, RunsOut;
    if status == Finished && leftNow >= 0 { assert Holds(lz, ld, n, left, out, events, outNow); }
    if InputHolds(lz, ld, n, left, out) {
      var fs, result :| Holds(lz, ld, n, left, out, fs, result);
      HeldBlockFinishes(lz, ld, n, now, left, leftNow, out, outNow, status, events, cut, fs, result);
    }
  }

  // ------------------------------------------------- a block that runs past the end

  /** One symbol only, the end symbol, with a code of nine bits. */
  const ONE_CODE: seq<nat> := seq(257, i => if i == 256 then 9 else 0)

  lemma {:induction false} NoneCounted(s: nat, n: nat)
    requires s > 0 && n <= 256
    ensures Count(ONE_CODE, s, n) == 0
  {
    if n > 0 { NoneCounted(s, n - 1); }
  }

  lemma {:induction false} FirstIsZero(s: nat)
    requires s <= 9
    ensures FirstCode(ONE_CODE, s) == 0
  {
    if s > 1 {
      FirstIsZero(s - 1);
      NoneCounted(s - 1, 256);
    }
  }

  lemma {:induction false} KraftIsZero(n: nat)
    requires n <= 256
    ensures LensOk(ONE_CODE) && KraftSum(ONE_CODE, n) == 0
  {
    if n > 0 { KraftIsZero(n - 1); }
  }

  lemma {:induction false} RevOfZero(n: nat)
    ensures Rev(0, n) == 0
  {
    if n > 0 { RevOfZero(n - 1); }
  }

  lemma OneCodeFits()
    ensures LensOk(ONE_CODE) && KraftSum(ONE_CODE, 257) <= 65536 && StartsWithEnd(ONE_CODE, Number([0]))
  {
    KraftIsZero(256);
    Pow2Values();
    FirstIsZero(9);
    NoneCounted(9, 256);
    RevOfZero(16);
    hide Pow2, Rev, KraftSum, FirstCode, Count;
    assert KraftSum(ONE_CODE, 257) == Pow2(7) by { KraftAtEnd(); }
    ZeroOver(Pow2(7));
    assert Number([0]) == 0;
    assert Matches(ONE_CODE, 256, 0);
  }

  lemma ZeroOver(p: nat)
    requires p > 0
    ensures 0 / p == 0
  {
  }

  lemma KraftAtEnd()
    ensures LensOk(ONE_CODE) && KraftSum(ONE_CODE, 257) == Pow2(7)
  {
    KraftIsZero(256);
    hide Pow2;
  }

  /**
    A one-byte input and a code whose only symbol, the end symbol, has nine bits: the block is
    finished with a bit past the end consumed, and the check does not notice.
   */
  method FinishPastEnd() returns (r: BitReader, status: Status)
    ensures fresh(r) && r.Valid() && r.input == [0]
    ensures status == Finished && r.Left() == -1 && !Flagged(r.hitEof, r.bits)
  {
    hide Pow2, StreamOf, TableOk, StartsWithEnd, BlockOutcome, KraftSum, Number;
    OneCodeFits();
    NoCodeFits();
    var zl := Tables(ONE_CODE);
    var zd := Tables([]);
    r := new BitReader([0]);
    var out := new Output(1, false);
    ghost var events, cut;
    status, events, cut := InflateBlock(r, out, zl, zd, _ => true);
    assert SymBits(ONE_CODE, 256) == 9;
  }

  /** Tables for a list of lengths that fits. */
  method Tables(l: seq<nat>) returns (z: ZHuffman)
    requires LensOk(l) && KraftSum(l, |l|) <= 65536
    ensures fresh(z) && fresh(z.fast) && fresh(z.firstcode) && fresh(z.maxcode) && fresh(z.firstsymbol) && fresh(z.size) && fresh(z.value)
    ensures z.Valid() && z.lens == l
  {
    hide KraftSum, TableOk;
    z := new ZHuffman();
    var ok := z.Build(l);
  }

  lemma NoCodeFits()
    ensures LensOk([]) && KraftSum([], 0) == 0
  {
  }
}
