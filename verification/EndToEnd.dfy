/** A block from the encoder to the decoder: state, symbols and plain bits, flush, header and back. Which items are sent
    and in which order is up to the second pass, which is not part of this model; any sequence of them decodes. */
module EndToEnd {
  import opened Powers
  import opened BitStrings
  import opened DecodeTables
  import opened DecodeHuffman
  import opened Codewords
  import opened HuffmanCodes
  import opened BitIo
  import opened SymbolIo
  import opened BlockItems
  import opened TableRoundTrip
  import opened CreateAndEncode
  import opened BlockState
  import opened BlockDecoder

  /** Only symbols that were counted are sent, and plain bits of at most 32 at a time. */
  ghost predicate Counted(shortCounts: seq<nat>, longCounts: seq<nat>, items: seq<Item>)
  {
    forall i :: 0 <= i < |items| ==> ItemCounted(shortCounts, longCounts, items[i])
  }

  ghost predicate ItemCounted(shortCounts: seq<nat>, longCounts: seq<nat>, item: Item)
  {
    match item
    case Short(symbol) => symbol < |shortCounts| && shortCounts[symbol] > 0
    case Long(symbol) => symbol < |longCounts| && longCounts[symbol] > 0
    case Extra(value, bits) => bits <= FLUSH && value < Pow2(bits)
  }

  lemma EncodedIsUsable(counts: seq<nat>, masks: seq<nat>, form: Form)
    requires Encoded(counts, MAX_CODEWORD_LENGTH, ROW, masks, form)
    ensures Codebook(masks, MAX_CODEWORD_LENGTH) && Acceptable(MaskLengths(masks))
    ensures Usable(MaskLengths(masks), ROOT_BITS, TAIL_BITS, TAIL_BITS)
    ensures forall s :: 0 <= s < |counts| && counts[s] > 0 ==> Coded?(masks, s)
  {
    hide Usable, Codebook, LengthOf;
    CodebookUsable(masks, MAX_CODEWORD_LENGTH, ROOT_BITS, TAIL_BITS);
  }

  lemma CountedIsSendable(shortCounts: seq<nat>, longCounts: seq<nat>, shortMasks: seq<nat>, longMasks: seq<nat>, items: seq<Item>)
    requires Counted(shortCounts, longCounts, items)
    requires forall s :: 0 <= s < |shortCounts| && shortCounts[s] > 0 ==> Coded?(shortMasks, s)
    requires forall s :: 0 <= s < |longCounts| && longCounts[s] > 0 ==> Coded?(longMasks, s)
    ensures ItemsSendable(shortMasks, longMasks, items)
  {
    hide Coded?, Pow2;
    forall i | 0 <= i < |items|
      ensures ItemSendable(shortMasks, longMasks, items[i])
    {
      assert ItemCounted(shortCounts, longCounts, items[i]);
    }
  }

  lemma StreamShows(a: Bits, b: Bits, mem: Bits)
    requires a + b <= mem
    ensures Shows(mem, 0, a) && Shows(mem, |a|, b)
  {
    WindowOfPrefix(mem, a, b);
    assert ([] + a) + b <= mem && [] + a == a;
    assert a <= mem by { assert mem[..|a|] == (a + b)[..|a|]; }
    WindowOfPrefix(mem, [], a);
  }

  /** The words after the encoder's flush, followed by anything. */
  method Transmit(writer: BitWriter, rest: seq<nat>) returns (reader: BitReader)
    requires writer.Valid() && AreWords(rest)
    ensures fresh(reader) && reader.Valid() && reader.Consumed() == 0
    ensures writer.Emitted() <= WordBits(reader.memory)
  {
    hide WordBits, Lsb, Pow2;
    var memory, bytes := writer.Flush();
    WordBitsJoin(memory, rest);
    reader := new BitReader(memory + rest);
  }

  /** The bits of a block: its state and its items. */
  ghost function BlockBits(sent: Sent, p: Params, shortMasks: seq<nat>, longMasks: seq<nat>, items: seq<Item>): Bits
    requires ValidSent(sent, p) && ItemsSendable(shortMasks, longMasks, items)
  {
    StateBits(sent, p) + ItemsBits(shortMasks, longMasks, items)
  }

  /** The codes that the decoder needs to know of. */
  ghost predicate Agreed(sent: Sent, p: Params, shortMasks: seq<nat>, longMasks: seq<nat>)
  {
    && ValidParams(p) && ValidSent(sent, p)
    && sent.shortLengths == MaskLengths(shortMasks) && sent.longLengths == MaskLengths(longMasks)
    && Codebook(shortMasks, MAX_CODEWORD_LENGTH) && Codebook(longMasks, MAX_CODEWORD_LENGTH)
  }

  method SendBlock(encoder: Lz77Encoder, items: seq<Item>) returns (ghost sent: Sent)
    requires encoder.Valid() && !encoder.flushing && Counted(encoder.shortCounts, encoder.longCounts, items)
    modifies encoder, encoder.shortMasks, encoder.longMasks
    ensures encoder.lastPtr == old(encoder.lastPtr) && encoder.offsets == old(encoder.offsets) && encoder.Sends(sent)
    ensures |encoder.offsets| == encoder.params.mtfCount
    ensures Agreed(sent, encoder.params, encoder.shortMasks[..], encoder.longMasks[..])
    ensures ItemsSendable(encoder.shortMasks[..], encoder.longMasks[..], items)
    ensures encoder.writer.Valid()
    ensures encoder.writer.Emitted() == BlockBits(sent, encoder.params, encoder.shortMasks[..], encoder.longMasks[..], items)
    ensures encoder.flags == Flags(encoder.params, |StateBits(sent, encoder.params)|)
  {
    hide Encoded, Codebook, MaskLengths, ItemsSendable, ItemsBits, WordBits, StateBits, Unpacked, ValidSent, CountSum, Counted,
      Coded?, Flags;
    sent := encoder.StartFlushing();
    FlagsAreUnpacked(encoder.flags, encoder.params, |StateBits(sent, encoder.params)|);
    EncodedIsUsable(encoder.shortCounts, encoder.shortMasks[..], sent.short);
    EncodedIsUsable(encoder.longCounts, encoder.longMasks[..], sent.long);
    CountedIsSendable(encoder.shortCounts, encoder.longCounts, encoder.shortMasks[..], encoder.longMasks[..], items);
    SendItems(encoder.writer, encoder.shortMasks[..], encoder.longMasks[..], items, MAX_CODEWORD_LENGTH);
  }

  lemma BlockShows(sent: Sent, p: Params, shortMasks: seq<nat>, longMasks: seq<nat>, items: seq<Item>, mem: Bits)
    requires Agreed(sent, p, shortMasks, longMasks) && ItemsSendable(shortMasks, longMasks, items)
    requires BlockBits(sent, p, shortMasks, longMasks, items) <= mem
    ensures ShowsState(p, sent, mem, 0)
    ensures Shows(mem, |StateBits(sent, p)|, ItemsBits(shortMasks, longMasks, items))
  {
    hide StateBits, ItemsBits, ItemsSendable, Shows, ValidSent, Codebook, LengthOf;
    StreamShows(StateBits(sent, p), ItemsBits(shortMasks, longMasks, items), mem);
    CodebookUsable(shortMasks, MAX_CODEWORD_LENGTH, ROOT_BITS, TAIL_BITS);
    CodebookUsable(longMasks, MAX_CODEWORD_LENGTH, ROOT_BITS, TAIL_BITS);
  }

  /** The header checks of the first block, for a stream that starts with the state an encoder sent and a flag word with
      its parameters: the decoder takes the state from it, and goes on exactly if the word is the one that the encoder packs,
      for any other table size is not what the state took. */
  method ReadHeader(decoder: Lz77Decoder, reader: BitReader, flags: nat, ghost sent: Sent, ghost p: Params)
    returns (ok: bool, ghost short: seq<nat>, ghost long: seq<nat>)
    requires decoder.Valid() && reader.Valid() && reader.Consumed() == 0 && reader as object != decoder
    requires ValidParams(p) && ShowsState(p, sent, WordBits(reader.memory), 0)
    requires Unpacked(flags).1 == p && flags / 0x100000 == 0
    modifies decoder, decoder.shortTable, decoder.longTable, reader
    ensures ok <==> flags == Flags(p, |StateBits(sent, p)|)
    ensures reader.Valid() && reader.Consumed() == |StateBits(sent, p)| && decoder.params == p
    ensures short == sent.shortLengths && decoder.shortRoot >= 0
            && Ready(decoder.shortTable[..], decoder.shortRoot, ROOT_BITS, TAIL_BITS, short)
    ensures long == sent.longLengths && decoder.longRoot >= 0
            && Ready(decoder.longTable[..], decoder.longRoot, ROOT_BITS, TAIL_BITS, long)
    ensures sent.offsets != [] ==> decoder.lastPtr == sent.last && decoder.offsets == sent.offsets
  {
    hide StateBits, WordBits, Unpacked, Ready, ValidSent, Flags, Shows, Acceptable;
    short, long := [], [];
    HeaderWord(flags, sent, p);
    ok := decoder.UnpackFlags(flags, true);
    if !ok { return; }
    ok, short, long := decoder.DecodeState(reader, sent);
    if !ok { return; }
    ok := decoder.CheckTableBits(reader);
  }

  lemma HeaderWord(flags: nat, sent: Sent, p: Params)
    requires ValidParams(p) && ValidSent(sent, p) && Unpacked(flags).1 == p && flags / 0x100000 == 0
    ensures Unpacked(flags).0 == |StateBits(sent, p)| <==> flags == Flags(p, |StateBits(sent, p)|)
    ensures p.mtfCount <= 4 && p.windowLog <= 23
  {
    hide StateBits, ValidSent, Unpacked, Flags;
    StateFits(sent, p);
    FlagsCarry(p, |StateBits(sent, p)|);
    FlagsAreUnpacked(flags, p, Unpacked(flags).0);
  }

  /** The decoder's side, for a stream that starts with a block. */
  method ReceiveBlock(decoder: Lz77Decoder, reader: BitReader, flags: nat, kinds: seq<Kind>,
                      ghost sent: Sent, ghost p: Params, ghost shortMasks: seq<nat>, ghost longMasks: seq<nat>,
                      ghost items: seq<Item>)
    returns (ok: bool, received: seq<int>)
    requires decoder.Valid() && reader.Valid() && reader.Consumed() == 0 && reader as object != decoder
    requires kinds == Kinds(items)
    requires Agreed(sent, p, shortMasks, longMasks) && ItemsSendable(shortMasks, longMasks, items)
    requires BlockBits(sent, p, shortMasks, longMasks, items) <= WordBits(reader.memory)
    requires flags == Flags(p, |StateBits(sent, p)|)
    modifies decoder, decoder.shortTable, decoder.longTable, reader
    ensures ok && |received| == |items| && forall i :: 0 <= i < |items| ==> received[i] == Payload(items[i])
    ensures decoder.params == p && (sent.offsets != [] ==> decoder.lastPtr == sent.last && decoder.offsets == sent.offsets)
  {
    hide Agreed, BlockBits, ShowsState, StateBits, ItemsBits, ItemsSendable, Shows, WordBits, Unpacked, Codebook, LengthOf,
      MaskLengths, Ready, Usable, Window, ValidSent, Flags;
    received := [];
    AgreedParts(sent, p, shortMasks, longMasks);
    BlockShows(sent, p, shortMasks, longMasks, items, WordBits(reader.memory));
    StateFits(sent, p);
    FlagsCarry(p, |StateBits(sent, p)|);
    ghost var short, long;
    ok, short, long := ReadHeader(decoder, reader, flags, sent, p);
    if !ok { return; }
    TableWidths();
    ShowsIs(WordBits(reader.memory), reader.Consumed(), ItemsBits(shortMasks, longMasks, items));
    var tables := Tables(decoder.shortTable, decoder.shortRoot, decoder.longTable, decoder.longRoot, ROOT_BITS, TAIL_BITS);
    received := ReceiveItems(reader, tables, kinds, shortMasks, longMasks, MAX_CODEWORD_LENGTH, items);
  }

  lemma ShowsIs(mem: Bits, pos: nat, w: Bits)
    requires Shows(mem, pos, w)
    ensures Window(mem, pos, |w|) == w
  {
  }

  lemma TableWidths()
    ensures ROOT_BITS <= FLUSH && TAIL_BITS <= FLUSH
  {
  }

  lemma AgreedParts(sent: Sent, p: Params, shortMasks: seq<nat>, longMasks: seq<nat>)
    requires Agreed(sent, p, shortMasks, longMasks)
    ensures ValidSent(sent, p) && ValidParams(p)
    ensures sent.shortLengths == MaskLengths(shortMasks) && sent.longLengths == MaskLengths(longMasks)
    ensures Codebook(shortMasks, MAX_CODEWORD_LENGTH) && Codebook(longMasks, MAX_CODEWORD_LENGTH)
    ensures Usable(MaskLengths(shortMasks), ROOT_BITS, TAIL_BITS, TAIL_BITS)
    ensures Usable(MaskLengths(longMasks), ROOT_BITS, TAIL_BITS, TAIL_BITS)
  {
    hide Codebook, ValidSent, Usable;
    CodebookUsable(shortMasks, MAX_CODEWORD_LENGTH, ROOT_BITS, TAIL_BITS);
    CodebookUsable(longMasks, MAX_CODEWORD_LENGTH, ROOT_BITS, TAIL_BITS);
  }

  lemma SameOffsets(encoder: Lz77Encoder, sent: Sent)
    requires encoder.Sends(sent)
    ensures sent.last == encoder.lastPtr % 2 && |sent.offsets| == |encoder.offsets|
    ensures forall i :: 0 <= i < |encoder.offsets| ==> sent.offsets[i] == -encoder.offsets[i]
  {
  }

  /** Every block, whatever the counts, recent offsets and parameters, is decoded to what was sent: the header is
      accepted, its table size is what the decoder consumes, and short symbols, long lengths and plain bits come back
      in whatever order they were sent. */
  method BlockRoundTrip(encoder: Lz77Encoder, items: seq<Item>, rest: seq<nat>)
    returns (ok: bool, decoder: Lz77Decoder, received: seq<int>)
    requires encoder.Valid() && !encoder.flushing && AreWords(rest)
    requires Counted(encoder.shortCounts, encoder.longCounts, items)
    modifies encoder, encoder.shortMasks, encoder.longMasks
    ensures ok && |received| == |items| && forall i :: 0 <= i < |items| ==> received[i] == Payload(items[i])
    ensures decoder.params == encoder.params
    ensures encoder.params.mtfCount > 0 ==> decoder.lastPtr == old(encoder.lastPtr) % 2
    ensures encoder.params.mtfCount > 0 ==> |decoder.offsets| == |old(encoder.offsets)|
    ensures encoder.params.mtfCount > 0 ==>
              forall i :: 0 <= i < |decoder.offsets| ==> decoder.offsets[i] == -old(encoder.offsets)[i]
  {
    hide *;
    ghost var sent := SendBlock(encoder, items);
    SameOffsets(encoder, sent);
    AgreedParts(sent, encoder.params, encoder.shortMasks[..], encoder.longMasks[..]);
    var reader := Transmit(encoder.writer, rest);
    decoder := new Lz77Decoder();
    ok, received := ReceiveBlock(decoder, reader, encoder.flags, Kinds(items), sent, encoder.params,
      encoder.shortMasks[..], encoder.longMasks[..], items);
  }
}
