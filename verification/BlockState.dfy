/** The start of a compressed block: StartFlushing (Xpress9EncLz77.c:1368-1483) writes the recent offsets
    and both Huffman tables and packs the flag word; Xpress9DecodeState (Xpress9DecLz77.c:342-443) and the
    header code (Xpress9DecLz77.c:650-715, 797-802) read them back. */
module BlockState {
  import opened Powers
  import opened BitStrings
  import opened CodeLists
  import opened LengthLists
  import opened Canonize
  import opened DecodeTables
  import opened DecodeHuffman
  import opened FillTables
  import opened Codewords
  import opened HuffmanCodes
  import opened BitIo
  import opened SymbolIo
  import opened EncodeTable
  import opened ParseLengths
  import opened DecodeLengthTable
  import opened TableRoundTrip
  import opened StoredCode
  import opened CreateAndEncode
  import opened TableSize

  const SHORT_SYMBOLS: nat := 704
  const LONG_LENGTHS: nat := 256
  const ROW: nat := 16
  const ROW_LOG: nat := 4
  const TABLE_ENTRIES: nat := 8192

  datatype Params = Params(windowLog: nat, mtfCount: nat, ptrMin: nat, mtfMin: nat)

  ghost predicate ValidParams(p: Params)
  {
    && 16 <= p.windowLog <= 23 && p.mtfCount in {0, 2, 4} && 3 <= p.ptrMin <= 4 && 2 <= p.mtfMin <= 3
  }

  // ------------------------------------------------------------------ the flag word

  /** Lines 1471-1482; the fields do not overlap, so the ORs are sums. */
  function Flags(p: Params, tableBits: nat): nat
    requires p.windowLog >= 16 && p.ptrMin >= 3 && p.mtfMin >= 2
  {
    tableBits % 0x2000 + (p.windowLog - 16) % 8 * 0x2000 + p.mtfCount / 2 * 0x10000
    + (p.ptrMin - 3) % 2 * 0x40000 + (p.mtfMin - 2) % 2 * 0x80000
  }

  /** Lines 655-668 of the decoder. */
  function Unpacked(flags: nat): (nat, Params)
  {
    (flags % 0x2000,
     Params(flags / 0x2000 % 8 + 16, flags / 0x10000 % 4 * 2, flags / 0x40000 % 2 + 3, flags / 0x80000 % 2 + 2))
  }

  /** The flag word carries the parameters, and the table size as long as it has at most 13 bits. */
  lemma FlagsCarry(p: Params, tableBits: nat)
    requires ValidParams(p)
    ensures Unpacked(Flags(p, tableBits)) == (tableBits % 0x2000, p)
    ensures Flags(p, tableBits) / 0x100000 == 0
    ensures Unpacked(Flags(p, tableBits)).0 == tableBits <==> tableBits < 0x2000
  {
    hide Flags, Unpacked;
    var b, w, c, f, m := tableBits % 0x2000, p.windowLog - 16, p.mtfCount / 2, p.ptrMin - 3, p.mtfMin - 2;
    FlagsSum(p, tableBits, b, w, c, f, m);
    FieldsApart(Flags(p, tableBits), b, w, c, f, m);
    UnpackedIs(Flags(p, tableBits), p, b, w, c, f, m);
  }

  lemma UnpackedIs(x: nat, p: Params, b: nat, w: nat, c: nat, f: nat, m: nat)
    requires x % 0x2000 == b && x / 0x2000 % 8 == w && x / 0x10000 % 4 == c && x / 0x40000 % 2 == f && x / 0x80000 % 2 == m
    requires p == Params(w + 16, c * 2, f + 3, m + 2)
    ensures Unpacked(x) == (b, p)
  {
  }

  lemma FlagsSum(p: Params, tableBits: nat, b: nat, w: nat, c: nat, f: nat, m: nat)
    requires ValidParams(p) && b == tableBits % 0x2000
    requires p.windowLog == 16 + w && p.mtfCount == 2 * c && p.ptrMin == 3 + f && p.mtfMin == 2 + m
    ensures w < 8 && c < 4 && f < 2 && m < 2
    ensures Flags(p, tableBits) == b + w * 0x2000 + c * 0x10000 + f * 0x40000 + m * 0x80000
  {
  }

  lemma FieldsApart(x: nat, b: nat, w: nat, c: nat, f: nat, m: nat)
    requires b < 0x2000 && w < 8 && c < 4 && f < 2 && m < 2
    requires x == b + w * 0x2000 + c * 0x10000 + f * 0x40000 + m * 0x80000
    ensures x % 0x2000 == b && x / 0x2000 % 8 == w && x / 0x10000 % 4 == c
    ensures x / 0x40000 % 2 == f && x / 0x80000 % 2 == m && x / 0x100000 == 0
  {
    Digit(x, b, 0x2000, w + 8 * (c + 4 * (f + 2 * m)));
    Digit(x, b + 0x2000 * w, 0x10000, c + 4 * (f + 2 * m));
    Digit(x, b + 0x2000 * w + 0x10000 * c, 0x40000, f + 2 * m);
    Digit(x, b + 0x2000 * w + 0x10000 * c + 0x40000 * f, 0x80000, m);
    Digit(w + 8 * (c + 4 * (f + 2 * m)), w, 8, c + 4 * (f + 2 * m));
    Digit(c + 4 * (f + 2 * m), c, 4, f + 2 * m);
  }

  /** Nothing else than the encoder's word unpacks to its parameters and table size. */
  lemma FlagsAreUnpacked(flags: nat, p: Params, tableBits: nat)
    requires ValidParams(p) && flags / 0x100000 == 0 && Unpacked(flags) == (tableBits, p)
    ensures flags == Flags(p, tableBits)
  {
    hide Flags;
    var b, w, c, f, m := flags % 0x2000, flags / 0x2000 % 8, flags / 0x10000 % 4, flags / 0x40000 % 2, flags / 0x80000 % 2;
    SplitFields(flags, b, w, c, f, m);
    FlagsSum(p, tableBits, b, w, c, f, m);
  }

  lemma SplitFields(x: nat, b: nat, w: nat, c: nat, f: nat, m: nat)
    requires x / 0x100000 == 0 && b == x % 0x2000 && w == x / 0x2000 % 8 && c == x / 0x10000 % 4
    requires f == x / 0x40000 % 2 && m == x / 0x80000 % 2
    ensures x == b + w * 0x2000 + c * 0x10000 + f * 0x40000 + m * 0x80000
  {
    var y := x / 0x2000;
    Quotients(x, y);
    UpperFields(y, w, c, f, m);
  }

  lemma Quotients(x: nat, y: nat)
    requires y == x / 0x2000
    ensures x / 0x10000 == y / 8 && x / 0x40000 == y / 32 && x / 0x80000 == y / 64 && x / 0x100000 == y / 128
  {
  }

  lemma UpperFields(y: nat, w: nat, c: nat, f: nat, m: nat)
    requires y / 128 == 0 && w == y % 8 && c == y / 8 % 4 && f == y / 32 % 2 && m == y / 64 % 2
    ensures y == w + c * 8 + f * 32 + m * 64
  {
  }

  lemma Digit(x: nat, lo: nat, m: nat, hi: nat)
    requires lo < m && x == lo + m * hi
    ensures x / m == hi && x % m == lo
  {
    DivOfProduct(hi, m, lo);
    ModOfProduct(hi, m, lo);
  }

  // ------------------------------------------------------------------ recent offsets

  /** An offset, stored as the position of its top bit and the bits below it. */
  function OffsetBits(o: nat): Bits
    requires o > 0
  {
    TopBitIs(o);
    Lsb(TopBit(o), 5) + Lsb(o - Pow2(TopBit(o)), TopBit(o))
  }

  ghost predicate Offsets(offsets: seq<nat>, windowLog: nat)
  {
    windowLog <= 23 && forall i :: 0 <= i < |offsets| ==> 0 < offsets[i] < Pow2(windowLog)
  }

  function OffsetsBits(offsets: seq<nat>): Bits
    requires forall i :: 0 <= i < |offsets| ==> 0 < offsets[i]
  {
    if offsets == [] then [] else OffsetBits(offsets[0]) + OffsetsBits(offsets[1..])
  }

  function MtfBits(last: nat, offsets: seq<nat>): Bits
    requires forall i :: 0 <= i < |offsets| ==> 0 < offsets[i]
  {
    if offsets == [] then [] else Lsb(last, 1) + OffsetsBits(offsets)
  }

  lemma OffsetFacts(o: nat, windowLog: nat)
    requires 0 < o < Pow2(windowLog) && windowLog <= 23
    ensures TopBit(o) < windowLog && TopBit(o) < Pow2(5) && o - Pow2(TopBit(o)) < Pow2(TopBit(o))
    ensures |OffsetBits(o)| == 5 + TopBit(o)
  {
    hide Lsb;
    TopBitIs(o);
    TopBitBound(o, windowLog);
    FiveBits(5);
  }

  lemma FiveBits(n: nat)
    requires n == 5
    ensures Pow2(n) == 32
  {
    assert Pow2(5) == 32;
  }

  lemma {:induction false} OffsetsSize(offsets: seq<nat>, windowLog: nat)
    requires Offsets(offsets, windowLog)
    ensures |OffsetsBits(offsets)| <= 27 * |offsets|
  {
    if offsets != [] {
      OffsetFacts(offsets[0], windowLog);
      OffsetsSize(offsets[1..], windowLog);
    }
  }

  // ------------------------------------------------------------------ the bits of the state

  /** What the encoder sends ahead of the data. */
  datatype Sent = Sent(last: nat, offsets: seq<nat>, short: Form, shortLengths: seq<nat>, long: Form, longLengths: seq<nat>)

  ghost predicate ValidSent(s: Sent, p: Params)
  {
    && s.last <= 1 && |s.offsets| == p.mtfCount && Offsets(s.offsets, p.windowLog)
    && |s.shortLengths| == SHORT_SYMBOLS && FormOf(s.short, s.shortLengths, ROW)
    && |s.longLengths| == LONG_LENGTHS && FormOf(s.long, s.longLengths, ROW)
    && Bounded(s.shortLengths, MAX_CODEWORD_LENGTH) && Bounded(s.longLengths, MAX_CODEWORD_LENGTH)
  }

  ghost function StateBits(s: Sent, p: Params): Bits
    requires ValidSent(s, p)
  {
    MtfBits(s.last, s.offsets) + TableBits(s.short, s.shortLengths, ROW) + TableBits(s.long, s.longLengths, ROW)
  }

  /** For every window, offsets and tables the size fits the 13-bit field of the flag word. */
  lemma StateFits(s: Sent, p: Params)
    requires ValidParams(p) && ValidSent(s, p)
    ensures |StateBits(s, p)| < 0x2000
  {
    hide TableBits, OffsetsBits, FormOf;
    OffsetsSize(s.offsets, p.windowLog);
    TableBitsSize(s.short, s.shortLengths, ROW);
    TableBitsSize(s.long, s.longLengths, ROW);
  }

  // ------------------------------------------------------------------ writing

  /** Lines 1393-1410. The offsets are kept negated. */
  method WriteMtf(writer: BitWriter, lastPtr: int, offsets: seq<int>, ghost windowLog: nat) returns (ghost last: nat, ghost sent: seq<nat>)
    requires writer.Valid() && windowLog <= 23
    requires forall i :: 0 <= i < |offsets| ==> offsets[i] < 0 && -offsets[i] < Pow2(windowLog)
    modifies writer
    ensures writer.Valid() && last == lastPtr % 2 && |sent| == |offsets| && Offsets(sent, windowLog)
    ensures forall i :: 0 <= i < |offsets| ==> sent[i] == -offsets[i]
    ensures writer.Emitted() == old(writer.Emitted()) + MtfBits(last, sent)
  {
    hide Lsb, WordBits, Pow2, OffsetsBits;
    last := lastPtr % 2;
    sent := seq(|offsets|, i requires 0 <= i < |offsets| => -offsets[i]);
    if |offsets| > 0 {
      OneBit(last);
      FlushWidth();
      BitsAssoc(writer.Emitted(), Lsb(last, 1), OffsetsBits(sent));
      ghost var goal := writer.Emitted() + MtfBits(last, sent);
      writer.Write(lastPtr % 2, 1);
      var i := 0;
      assert sent[0..] == sent;
      while i < |offsets|
        invariant i <= |offsets| && writer.Valid() && writer.Emitted() + OffsetsBits(sent[i..]) == goal
      {
        OffsetNext(sent, i, writer.Emitted());
        OffsetFacts(sent[i], windowLog);
        WriteOffset(writer, -offsets[i]);
        i := i + 1;
      }
      OffsetsEnd(sent[i..], writer.Emitted());
    } else {
      assert writer.Emitted() + [] == writer.Emitted();
    }
  }

  lemma OneBit(b: nat)
    requires b < 2
    ensures b < Pow2(1)
  {
  }

  lemma OffsetNext(offsets: seq<nat>, i: nat, head: Bits)
    requires i < |offsets| && forall j :: 0 <= j < |offsets| ==> 0 < offsets[j]
    ensures head + OffsetsBits(offsets[i..]) == (head + OffsetBits(offsets[i])) + OffsetsBits(offsets[i + 1..])
  {
    hide OffsetBits;
    assert offsets[i..][1..] == offsets[i + 1..];
  }

  lemma OffsetsEnd(none: seq<nat>, head: Bits)
    requires none == []
    ensures head + OffsetsBits(none) == head
  {
  }

  method WriteOffset(writer: BitWriter, o: nat)
    requires writer.Valid() && 0 < o && TopBit(o) < Pow2(5) && o - Pow2(TopBit(o)) < Pow2(TopBit(o))
    modifies writer
    ensures writer.Valid() && writer.Emitted() == old(writer.Emitted()) + OffsetBits(o)
  {
    hide Lsb, WordBits, Pow2;
    FiveBits(5);
    FlushWidth();
    TopBitIs(o);
    var top := GetMsb(o);
    // the top bit is set, so the exclusive or with it subtracts it
    var rest := o - Pow2(top);
    BitsAssoc(writer.Emitted(), Lsb(top, 5), Lsb(rest, top));
    writer.Write(top, 5);
    writer.Write(rest, top);
  }

  /** What is needed of the code statistics of a block. */
  ghost predicate ValidCounts(counts: seq<nat>, size: nat)
  {
    |counts| == size && CountSum(counts) < 0x1_0000_0000
  }

  /** One of the two tables, for the alphabets of a block. */
  method WriteTable(writer: BitWriter, counts: seq<nat>, masks: array<nat>) returns (cost: nat, ghost form: Form)
    requires writer.Valid() && ValidCounts(counts, masks.Length) && LengthsInRange(masks[..])
    requires 2 <= |counts| < 0x1_0000_0000 && TopBit(|counts|) < MAX_CODEWORD_LENGTH
    modifies writer, masks
    ensures writer.Valid() && Encoded(counts, MAX_CODEWORD_LENGTH, ROW, masks[..], form)
    ensures LengthsInRange(masks[..]) && Bounded(MaskLengths(masks[..]), MAX_CODEWORD_LENGTH)
    ensures |MaskLengths(masks[..])| == |counts| && FormOf(form, MaskLengths(masks[..]), ROW)
    ensures writer.Emitted() == old(writer.Emitted()) + TableBits(form, MaskLengths(masks[..]), ROW)
    ensures cost == |TableBits(form, MaskLengths(masks[..]), ROW)| + CodeCost(counts, MaskLengths(masks[..]))
    ensures Chosen(counts, MAX_CODEWORD_LENGTH, ROW, form, MaskLengths(masks[..]))
  {
    hide CountSum, LengthsInRange, Encoded, FormOf, TableBits, MaskLengths, WordBits, CodeCost, Bounded, Pow2, TopBit,
      Describes, Chosen, TotalCost, StoredLengths;
    RowSize(ROW_LOG);
    cost, form := Xpress9HuffmanCreateAndEncodeTable(writer, counts, MAX_CODEWORD_LENGTH, masks, ROW, ROW_LOG);
    EncodedRange(counts, ROW, masks[..], form);
    TotalCostIs(counts, form, MaskLengths(masks[..]), ROW);
  }

  class Lz77Encoder {
    const params: Params
    var lastPtr: int
    var offsets: seq<int>
    var shortCounts: seq<nat>
    var longCounts: seq<nat>
    var storedBits: nat
    var shortMasks: array<nat>
    var longMasks: array<nat>
    var flushing: bool
    var flags: nat
    var computedBits: nat
    var writer: BitWriter

    ghost predicate Valid()
      reads this, shortMasks, longMasks
    {
      && ValidParams(params) && |offsets| == params.mtfCount
      && (forall i :: 0 <= i < |offsets| ==> offsets[i] < 0 && -offsets[i] < Pow2(params.windowLog))
      && ValidCounts(shortCounts, SHORT_SYMBOLS) && ValidCounts(longCounts, LONG_LENGTHS)
      && shortMasks != longMasks
      && shortMasks.Length == SHORT_SYMBOLS && LengthsInRange(shortMasks[..])
      && longMasks.Length == LONG_LENGTHS && LengthsInRange(longMasks[..])
    }

    /** sent is what the encoder's state says. */
    ghost predicate Sends(sent: Sent)
      reads this, shortMasks, longMasks
    {
      && ValidSent(sent, params) && sent.last == lastPtr % 2
      && |sent.offsets| == |offsets| && (forall i :: 0 <= i < |offsets| ==> sent.offsets[i] == -offsets[i])
      && sent.shortLengths == MaskLengths(shortMasks[..]) && sent.longLengths == MaskLengths(longMasks[..])
      && Encoded(shortCounts, MAX_CODEWORD_LENGTH, ROW, shortMasks[..], sent.short)
      && Encoded(longCounts, MAX_CODEWORD_LENGTH, ROW, longMasks[..], sent.long)
    }

    constructor (params: Params, lastPtr: int, offsets: seq<int>, shortCounts: seq<nat>, longCounts: seq<nat>, storedBits: nat)
      requires ValidParams(params) && |offsets| == params.mtfCount
      requires forall i :: 0 <= i < |offsets| ==> offsets[i] < 0 && -offsets[i] < Pow2(params.windowLog)
      requires ValidCounts(shortCounts, SHORT_SYMBOLS) && ValidCounts(longCounts, LONG_LENGTHS)
      ensures Valid() && fresh(shortMasks) && fresh(longMasks) && !flushing
      ensures this.params == params && this.lastPtr == lastPtr && this.offsets == offsets
      ensures this.shortCounts == shortCounts && this.longCounts == longCounts && this.storedBits == storedBits
    {
      this.params, this.lastPtr, this.offsets := params, lastPtr, offsets;
      this.shortCounts, this.longCounts, this.storedBits := shortCounts, longCounts, storedBits;
      shortMasks := new nat[SHORT_SYMBOLS](_ => 0);
      longMasks := new nat[LONG_LENGTHS](_ => 0);
      flushing, flags, computedBits := false, 0, 0;
      writer := new BitWriter();
      new;
      hide CountSum, Pow2, LengthsInRange;
      ZeroMasks(shortMasks[..]);
      ZeroMasks(longMasks[..]);
    }

    /** The flag word holds the exact size of the state, and the predicted size of the block is that of
        the 32-byte header, the state, all coded symbols and the bits stored without a code. */
    method StartFlushing() returns (ghost sent: Sent)
      requires Valid() && !flushing
      modifies this, shortMasks, longMasks
      ensures flushing && Valid() && Sends(sent)
      ensures Chosen(shortCounts, MAX_CODEWORD_LENGTH, ROW, sent.short, sent.shortLengths)
      ensures Chosen(longCounts, MAX_CODEWORD_LENGTH, ROW, sent.long, sent.longLengths)
      ensures shortMasks == old(shortMasks) && longMasks == old(longMasks)
      ensures lastPtr == old(lastPtr) && offsets == old(offsets) && storedBits == old(storedBits)
      ensures shortCounts == old(shortCounts) && longCounts == old(longCounts)
      ensures fresh(writer) && writer.Valid() && writer.Emitted() == StateBits(sent, params)
      ensures Unpacked(flags) == (|StateBits(sent, params)|, params) && flags / 0x100000 == 0
      ensures computedBits == 256 + |StateBits(sent, params)|
                + CodeCost(shortCounts, sent.shortLengths) + CodeCost(longCounts, sent.longLengths) + storedBits
    {
      hide CountSum, LengthsInRange, Encoded, FormOf, TableBits, MaskLengths, WordBits, Lsb, OffsetsBits, Offsets, Flags,
        Unpacked, CodeCost, Bounded, Pow2, LengthOf, TopBit, Describes, Chosen, TotalCost, MtfBits, StoredLengths;
      AlphabetBits();
      var bits := new BitWriter();
      ghost var last, distances := WriteMtf(bits, lastPtr, offsets, params.windowLog);
      assert bits.Emitted() == MtfBits(last, distances);
      var headerCost := 256 + bits.Tell();
      ghost var mtf := bits.Emitted();
      ghost var short, long;
      var shortCost, longCost;
      shortCost, short := WriteTable(bits, shortCounts, shortMasks);
      longCost, long := WriteTable(bits, longCounts, longMasks);
      sent := Sent(last, distances, short, MaskLengths(shortMasks[..]), long, MaskLengths(longMasks[..]));
      var tableBits := bits.Tell();
      flushing := true;
      computedBits := headerCost + shortCost + longCost + storedBits;
      writer := bits;
      StateFits(sent, params);
      FlagsCarry(params, tableBits);
      flags := Flags(params, tableBits);
    }
  }

  lemma ZeroMasks(masks: seq<nat>)
    requires forall i :: 0 <= i < |masks| ==> masks[i] == 0
    ensures LengthsInRange(masks)
  {
  }

  lemma AlphabetBits()
    ensures TopBit(SHORT_SYMBOLS) < MAX_CODEWORD_LENGTH && TopBit(LONG_LENGTHS) < MAX_CODEWORD_LENGTH
  {
    TopBitBound(SHORT_SYMBOLS, 10);
    TopBitBound(LONG_LENGTHS, 10);
    assert Pow2(10) == 1024;
  }

  lemma RowSize(n: nat)
    requires n == ROW_LOG
    ensures Pow2(n) == ROW
  {
    assert Pow2(4) == 16;
  }

  lemma EncodedRange(counts: seq<nat>, boundary: nat, masks: seq<nat>, form: Form)
    requires Encoded(counts, MAX_CODEWORD_LENGTH, boundary, masks, form)
    ensures |masks| == |counts| && LengthsInRange(masks) && Bounded(MaskLengths(masks), MAX_CODEWORD_LENGTH)
    ensures FormOf(form, MaskLengths(masks), boundary) && |MaskLengths(masks)| == |masks|
  {
    CodebookRange(masks, MAX_CODEWORD_LENGTH);
  }
}
