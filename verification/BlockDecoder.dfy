/** Reading the start of a compressed block (Xpress9DecLz77.c:342-443, 650-715, 789-802). */
module BlockDecoder {
  import opened Powers
  import opened BitStrings
  import opened CodeLists
  import opened LengthLists
  import opened DecodeTables
  import opened DecodeHuffman
  import opened Codewords
  import opened HuffmanCodes
  import opened BitIo
  import opened SymbolIo
  import opened EncodeTable
  import opened ParseLengths
  import opened DecodeLengthTable
  import opened TableRoundTrip
  import opened StoredCode
  import opened CreateAndEncode
  import opened BlockState

  const ROOT_BITS: nat := 12
  const TAIL_BITS: nat := 6

  // ------------------------------------------------------------------ decode tables

  lemma RootEntries(n: nat)
    requires n == ROOT_BITS
    ensures Pow2(n) == 4096
  {
    assert Pow2(12) == 4096;
  }

  lemma TailEntries(n: nat)
    requires n == TAIL_BITS
    ensures Pow2(n) == 64
  {
    assert Pow2(6) == 64;
  }

  lemma RoomAlways(longest: nat, count: nat)
    requires longest <= 27 && count <= 704
    ensures 4096 + 2 * count + 2 * 64 * (longest - 12) <= TABLE_ENTRIES
  {
  }

  /** The decoder's tables have room for every code of its two alphabets. */
  lemma TablesFit(lengths: seq<nat>)
    requires |lengths| <= SHORT_SYMBOLS && Bounded(lengths, MAX_CODEWORD_LENGTH) && Acceptable(lengths)
    ensures Roomy(lengths, TABLE_ENTRIES, ROOT_BITS, TAIL_BITS)
  {
    hide Listed, Complete;
    var list := Listed(lengths, UNIT);
    ListedElements(lengths, UNIT);
    SymbolCount(lengths);
    if |list| != 1 { NotEmpty(list); }
    RootEntries(ROOT_BITS);
    TailEntries(TAIL_BITS);
    RoomAlways(list[0].bits, |list|);
  }

  /** The lengths of a codebook are those of a usable code. */
  lemma CodebookUsable(masks: seq<nat>, max: nat, root: nat, tail: nat)
    requires Codebook(masks, max)
    ensures Acceptable(MaskLengths(masks)) && Usable(MaskLengths(masks), root, tail, tail)
  {
    hide Listed, Masks;
    var list := Listed(MaskLengths(masks), UNIT);
    if |list| != 1 { NotEmpty(list); }
  }

  // ------------------------------------------------------------------ recent offsets

  /** The k-th offset and those after it are next in the stream. */
  lemma OffsetShown(offsets: seq<nat>, k: nat, windowLog: nat, mem: Bits, pos: nat)
    requires k < |offsets| && Offsets(offsets, windowLog) && Shows(mem, pos, OffsetsBits(offsets[k..]))
    ensures TopBit(offsets[k]) < windowLog && Peek(mem, pos, 5) == TopBit(offsets[k])
    ensures Peek(mem, pos + 5, TopBit(offsets[k])) + Pow2(TopBit(offsets[k])) == offsets[k]
    ensures Shows(mem, pos + 5 + TopBit(offsets[k]), OffsetsBits(offsets[k + 1..]))
    ensures |OffsetsBits(offsets[k..])| == 5 + TopBit(offsets[k]) + |OffsetsBits(offsets[k + 1..])|
  {
    hide Shows, Peek, Lsb, TopBit, Pow2;
    var o := offsets[k];
    OffsetFacts(o, windowLog);
    TopBitIs(o);
    assert offsets[k..][1..] == offsets[k + 1..];
    ShowsParts(mem, pos, OffsetBits(o), OffsetsBits(offsets[k + 1..]));
    ShowsParts(mem, pos, Lsb(TopBit(o), 5), Lsb(o - Pow2(TopBit(o)), TopBit(o)));
    PeekShown(mem, pos, TopBit(o), 5);
    PeekShown(mem, pos + 5, o - Pow2(TopBit(o)), TopBit(o));
  }

  class Lz77Decoder {
    var tableBits: nat
    var params: Params
    var lastPtr: nat
    var offsets: seq<nat>
    const shortTable: array<int>
    const longTable: array<int>
    var shortRoot: int
    var longRoot: int

    ghost predicate Valid()
      reads this
    {
      shortTable != longTable && shortTable.Length == TABLE_ENTRIES && longTable.Length == TABLE_ENTRIES
    }

    constructor ()
      ensures Valid() && fresh(shortTable) && fresh(longTable)
    {
      shortTable := new int[TABLE_ENTRIES](_ => 0);
      longTable := new int[TABLE_ENTRIES](_ => 0);
      tableBits, params, lastPtr, offsets, shortRoot, longRoot := 0, Params(16, 0, 3, 2), 0, [], 0, 0;
    }

    /** Lines 655-711: the first block of a session sets the parameters, later ones must repeat them. */
    method UnpackFlags(flags: nat, firstBlock: bool) returns (ok: bool)
      modifies this`tableBits, this`params
      ensures ok <==> flags / 0x100000 == 0 && (if firstBlock then Unpacked(flags).1.mtfCount <= 4 else params == Unpacked(flags).1)
      ensures tableBits == Unpacked(flags).0
      ensures params == if firstBlock && Unpacked(flags).1.mtfCount <= 4 then Unpacked(flags).1 else old(params)
    {
      tableBits := flags % 0x2000;
      var found := Unpacked(flags).1;
      if firstBlock {
        if found.mtfCount > 4 { return false; }
        params := found;
      } else if params != found {
        return false;
      }
      ok := flags / 0x100000 == 0;
    }

    /** Lines 363-383. For a stream that starts with the bits of sent offsets, they are read back. */
    method ReadMtf(reader: BitReader, ghost last: nat, ghost sent: seq<nat>) returns (ok: bool)
      requires Valid() && reader.Valid() && reader as object != this && params.windowLog <= 23
      modifies this`lastPtr, this`offsets, reader
      ensures reader.Valid()
      ensures old(ShowsMtf(params, last, sent, WordBits(reader.memory), reader.Consumed())) ==>
                ok && reader.Consumed() == old(reader.Consumed()) + |MtfBits(last, sent)|
                && (sent != [] ==> lastPtr == last && offsets == sent)
      ensures ok ==> params.mtfCount == 0 || |offsets| == params.mtfCount
    {
      hide WordBits, Lsb, Peek, Shows, OffsetsBits, Pow2;
      ok := true;
      if params.mtfCount > 0 {
        ghost var shown := ShowsMtf(params, last, sent, WordBits(reader.memory), reader.Consumed());
        if shown { MtfShown(last, sent, WordBits(reader.memory), reader.Consumed()); }
        FlushWidth();
        lastPtr := Read(reader, 1);
        ok, offsets := ReadOffsets(reader, params.mtfCount, params.windowLog, sent);
      }
    }
  
    /** Xpress9DecodeState: tables that it accepts decode their codes; for the state that an encoder sent
        everything is restored and the reader stands behind it. */
    method DecodeState(reader: BitReader, ghost sent: Sent) returns (ok: bool, ghost short: seq<nat>, ghost long: seq<nat>)
      requires Valid() && reader.Valid() && reader as object != this && params.windowLog <= 23
      modifies this`lastPtr, this`offsets, this`shortRoot, this`longRoot, shortTable, longTable, reader
      ensures reader.Valid()
      ensures ok ==> shortRoot >= 0 && Ready(shortTable[..], shortRoot, ROOT_BITS, TAIL_BITS, short)
      ensures ok ==> longRoot >= 0 && Ready(longTable[..], longRoot, ROOT_BITS, TAIL_BITS, long)
      ensures old(ShowsState(params, sent, WordBits(reader.memory), reader.Consumed())) ==>
                ok && short == sent.shortLengths && long == sent.longLengths
                && (sent.offsets != [] ==> lastPtr == sent.last && offsets == sent.offsets)
                && reader.Consumed() == old(reader.Consumed()) + |StateBits(sent, params)|
    {
      hide WordBits, ShowsMtf, ShowsTable, TableBits, MtfBits, FormOf, Ready, Acceptable, Bounded, Shows, Offsets;
      if ShowsState(params, sent, WordBits(reader.memory), reader.Consumed()) {
        StateShown(params, sent, WordBits(reader.memory), reader.Consumed());
      }
      short, long := [], [];
      ok := ReadMtf(reader, sent.last, sent.offsets);
      if !ok { return; }
      ok, shortRoot, short := ReadTable(reader, SHORT_SYMBOLS, shortTable, sent.short, sent.shortLengths);
      if !ok { return; }
      ok, longRoot, long := ReadTable(reader, LONG_LENGTHS, longTable, sent.long, sent.longLengths);
    }

    /** Lines 797-802: the consumed bits against the 13-bit field of the header. */
    method CheckTableBits(reader: BitReader) returns (ok: bool)
      requires reader.Valid()
      ensures ok <==> reader.Consumed() == tableBits
    {
      ok := reader.Consumed() == tableBits;
    }
  }

  ghost predicate ShowsState(params: Params, sent: Sent, mem: Bits, pos: nat)
  {
    && ValidSent(sent, params) && Acceptable(sent.shortLengths) && Acceptable(sent.longLengths)
    && Shows(mem, pos, StateBits(sent, params))
  }

  lemma StateShown(params: Params, sent: Sent, mem: Bits, pos: nat)
    requires ShowsState(params, sent, mem, pos)
    ensures ShowsMtf(params, sent.last, sent.offsets, mem, pos)
    ensures var p := pos + |MtfBits(sent.last, sent.offsets)|;
      ShowsTable(sent.short, sent.shortLengths, mem, p)
      && ShowsTable(sent.long, sent.longLengths, mem, p + |TableBits(sent.short, sent.shortLengths, ROW)|)
  {
    hide FormOf, TableBits, MtfBits, Acceptable, Shows, Bounded, Pow2;
    var m, a, b := MtfBits(sent.last, sent.offsets), TableBits(sent.short, sent.shortLengths, ROW), TableBits(sent.long, sent.longLengths, ROW);
    ShowsParts(mem, pos, m + a, b);
    ShowsParts(mem, pos, m, a);
  }

  ghost predicate ShowsMtf(params: Params, last: nat, sent: seq<nat>, mem: Bits, pos: nat)
  {
    last <= 1 && |sent| == params.mtfCount && Offsets(sent, params.windowLog) && Shows(mem, pos, MtfBits(last, sent))
  }

  ghost predicate ShowsOffsets(windowLog: nat, sent: seq<nat>, k: nat, mem: Bits, pos: nat)
  {
    k <= |sent| && Offsets(sent, windowLog) && Shows(mem, pos, OffsetsBits(sent[k..]))
  }

  method ReadOffset(reader: BitReader, windowLog: nat, ghost sent: seq<nat>, ghost k: nat) returns (ok: bool, o: nat)
    requires reader.Valid() && windowLog <= 23
    modifies reader
    ensures reader.Valid()
    ensures old(ShowsOffsets(windowLog, sent, k, WordBits(reader.memory), reader.Consumed())) && k < |sent| ==>
              ok && o == sent[k] && ShowsOffsets(windowLog, sent, k + 1, WordBits(reader.memory), reader.Consumed())
              && reader.Consumed() + |OffsetsBits(sent[k + 1..])| == old(reader.Consumed()) + |OffsetsBits(sent[k..])|
  {
    hide WordBits, Lsb, Peek, Shows, OffsetsBits, Pow2, Offsets;
    FlushWidth();
    if ShowsOffsets(windowLog, sent, k, WordBits(reader.memory), reader.Consumed()) && k < |sent| {
      OffsetShown(sent, k, windowLog, WordBits(reader.memory), reader.Consumed());
    }
    var top := Read(reader, 5);
    ok, o := top < windowLog, 0;
    if !ok { return; }
    var rest := Read(reader, top);
    o := rest + Pow2(top);
  }

  method ReadOffsets(reader: BitReader, count: nat, windowLog: nat, ghost sent: seq<nat>) returns (ok: bool, offsets: seq<nat>)
    requires reader.Valid() && windowLog <= 23
    modifies reader
    ensures reader.Valid() && (ok ==> |offsets| == count)
    ensures old(ShowsOffsets(windowLog, sent, 0, WordBits(reader.memory), reader.Consumed())) && count == |sent| ==>
              ok && offsets == sent && reader.Consumed() == old(reader.Consumed()) + |OffsetsBits(sent)|
  {
    hide WordBits, Shows, OffsetsBits, Pow2;
    ghost var mem, pos := WordBits(reader.memory), reader.Consumed();
    ghost var shown := ShowsOffsets(windowLog, sent, 0, mem, pos) && count == |sent|;
    ok, offsets := true, [];
    assert sent[0..] == sent;
    while |offsets| < count
      invariant |offsets| <= count && reader.Valid()
      invariant shown ==> offsets == sent[..|offsets|]
      invariant shown ==> ShowsOffsets(windowLog, sent, |offsets|, mem, reader.Consumed())
      invariant shown ==> reader.Consumed() + |OffsetsBits(sent[|offsets|..])| == pos + |OffsetsBits(sent)|
    {
      var o;
      ok, o := ReadOffset(reader, windowLog, sent, |offsets|);
      if !ok { return; }
      offsets := offsets + [o];
    }
    if shown { OffsetsDone(sent, |offsets|); }
  }

  // ------------------------------------------------------------------ one table

  /** The stream holds a table for lengths that some code of the encoder has. */
  ghost predicate ShowsTable(form: Form, lengths: seq<nat>, mem: Bits, pos: nat)
  {
    && FormOf(form, lengths, ROW) && Bounded(lengths, MAX_CODEWORD_LENGTH) && Acceptable(lengths)
    && Shows(mem, pos, TableBits(form, lengths, ROW))
  }

  lemma TableShown(form: Form, lengths: seq<nat>, mem: Bits, pos: nat, size: nat)
    requires ShowsTable(form, lengths, mem, pos) && |lengths| == size > 0
    ensures FormOf(form, lengths, ROW) && Bounded(lengths, MAX_CODEWORD_LENGTH) && Acceptable(lengths)
    ensures ParseTable(mem, pos, size, ROW, MAX_CODEWORD_LENGTH) == Good(lengths, pos + |TableBits(form, lengths, ROW)|)
  {
    hide ParseTable, TableBits, FormOf;
    WrittenTableReads(form, lengths, ROW, MAX_CODEWORD_LENGTH, mem, pos);
  }

  /** Lines 386-411 and 413-437: a length table and the decode tables made from it. */
  method ReadTable(reader: BitReader, size: nat, table: array<int>, ghost form: Form, ghost lengths: seq<nat>)
    returns (ok: bool, base: int, ghost found: seq<nat>)
    requires reader.Valid() && 0 < size <= SHORT_SYMBOLS && table.Length == TABLE_ENTRIES
    modifies reader, table
    ensures reader.Valid() && (ok ==> base >= 0 && Ready(table[..], base, ROOT_BITS, TAIL_BITS, found))
    ensures old(ShowsTable(form, lengths, WordBits(reader.memory), reader.Consumed())) && |lengths| == size ==>
              ok && found == lengths && FormOf(form, lengths, ROW)
              && reader.Consumed() == old(reader.Consumed()) + |TableBits(form, lengths, ROW)|
  {
    hide WordBits, ShowsTable, ParseTable, TableBits, FormOf, Ready, Acceptable, Roomy, Pow2, Bounded;
    RowSize(ROW_LOG);
    RootEntries(ROOT_BITS);
    ghost var mem, pos := WordBits(reader.memory), reader.Consumed();
    ghost var shown := ShowsTable(form, lengths, mem, pos) && |lengths| == size;
    if shown { TableShown(form, lengths, mem, pos, size); }
    var bits := new nat[size](_ => 0);
    ok := HuffmanDecodeLengthTable(reader, bits, ROW, MAX_CODEWORD_LENGTH, ROW_LOG);
    found := bits[..];
    base := -1;
    if !ok { return; }
    base := HuffmanCreateDecodeTables(bits[..], table, ROOT_BITS, TAIL_BITS);
    if shown { TablesFit(lengths); }
    ok := base >= 0;
  }

  lemma OffsetsDone(sent: seq<nat>, n: nat)
    requires n == |sent|
    ensures OffsetsBits(sent[n..]) == [] && sent[..n] == sent
  {
  }

  lemma MtfShown(last: nat, sent: seq<nat>, mem: Bits, pos: nat)
    requires last <= 1 && sent != [] && (forall i :: 0 <= i < |sent| ==> 0 < sent[i])
    requires Shows(mem, pos, MtfBits(last, sent))
    ensures Peek(mem, pos, 1) == last && Shows(mem, pos + 1, OffsetsBits(sent[0..]))
    ensures sent[0..] == sent && |MtfBits(last, sent)| == 1 + |OffsetsBits(sent)|
  {
    hide Lsb, Peek, Shows, OffsetsBits;
    OneBit(last);
    assert sent[0..] == sent;
    ShowsParts(mem, pos, Lsb(last, 1), OffsetsBits(sent));
    PeekShown(mem, pos, last, 1);
  }
}
