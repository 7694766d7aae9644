/** HUFFMAN_WRITE_SYMBOL and HUFFMAN_DECODE_SYMBOL (Xpress9Internal.h:537-544 and 581-601): symbols of a
    codebook on a bit stream. */
module SymbolIo {
  import opened Powers
  import opened BitStrings
  import opened CodeLists
  import opened LengthLists
  import opened DecodeTables
  import opened DecodeHuffman
  import opened Codewords
  import opened HuffmanCodes
  import opened BitIo

  /** The bits of a packed codeword. */
  function SymbolBits(mask: nat): (s: Bits)
    ensures |s| == LengthOf(mask)
  {
    Lsb(ValueOf(mask), LengthOf(mask))
  }

  method WriteSymbol(writer: BitWriter, mask: nat)
    requires writer.Valid() && ValueOf(mask) < Pow2(LengthOf(mask))
    modifies writer
    ensures writer.Valid() && writer.Emitted() == old(writer.Emitted()) + SymbolBits(mask)
  {
    writer.Write(ValueOf(mask), LengthOf(mask));
  }

  ghost predicate Coded?(masks: seq<nat>, s: nat) { s < |masks| && LengthOf(masks[s]) > 0 }

  /** The bits written for a symbol are its canonical codeword. */
  lemma SymbolWord(masks: seq<nat>, max: nat, s: nat) returns (k: nat)
    requires Codebook(masks, max) && Coded?(masks, s)
    ensures var list := Listed(MaskLengths(masks), UNIT);
      k < |list| && list[k] == Coded(s, LengthOf(masks[s])) && SymbolBits(masks[s]) == Word(list, k)
    ensures ValueOf(masks[s]) < Pow2(LengthOf(masks[s]))
  {
    hide Listed, Reverse, CodeLists.Code, Complete, Lsb, Msb;
    var lengths := MaskLengths(masks);
    var list := Listed(lengths, UNIT);
    ListedElements(lengths, UNIT);
    assert lengths[s] == LengthOf(masks[s]);
    assert Coded(s, lengths[s]) in list;
    k :| 0 <= k < |list| && list[k] == Coded(s, lengths[s]);
    assert MaskOf(masks, list, k);
    PackedLength(Reverse(CodeLists.Code(list, k), lengths[s]), lengths[s]);
    ReverseBits(CodeLists.Code(list, k), lengths[s]);
  }

  /** A stream that shows the bits of a symbol decodes to it. */
  lemma SymbolShown(masks: seq<nat>, max: nat, s: nat, mem: Bits, pos: nat)
    requires Codebook(masks, max) && Coded?(masks, s)
    requires Window(mem, pos, LengthOf(masks[s])) == SymbolBits(masks[s])
    ensures Lengths(Listed(MaskLengths(masks), UNIT))
    ensures Next(Listed(MaskLengths(masks), UNIT), mem, pos) == Symbol(s, pos + LengthOf(masks[s]))
  {
    hide Next, Listed, Word, SymbolBits, Window, Complete, Masks;
    ListIsSorted(MaskLengths(masks));
    var k := SymbolWord(masks, max, s);
    CodewordIsNext(Listed(MaskLengths(masks), UNIT), k, mem, pos);
  }

  /** HUFFMAN_DECODE_SYMBOL follows the relative jumps of the tables. */
  method DecodeSymbol(reader: BitReader, table: array<int>, base: nat, root: nat, tail: nat) returns (symbol: int)
    requires reader.Valid() && root <= FLUSH && tail <= FLUSH
    requires Walk(table[..], base, root, tail, WordBits(reader.memory), reader.Consumed()).Symbol?
    modifies reader
    ensures reader.Valid()
    ensures Symbol(symbol, reader.Consumed())
            == old(Walk(table[..], base, root, tail, WordBits(reader.memory), reader.Consumed()))
  {
    hide Window, FromLsb, WordBits, Pow2;
    ghost var mem := WordBits(reader.memory);
    ghost var t := table[..];
    ghost var result := Walk(t, base, root, tail, mem, reader.Consumed());
    var at: int := base;
    var slot := reader.Lookup(root);
    symbol := table[at + slot];
    ghost var width: nat := root;
    while symbol < 0
      invariant reader.Valid() && 0 <= at && width <= FLUSH
      invariant result == Walk(t, at, width, tail, mem, reader.Consumed())
      invariant slot == FromLsb(Window(mem, reader.Consumed(), width)) && at + slot < |t| && symbol == t[at + slot]
      decreases at
    {
      reader.Skip(symbol % 16);
      at := at + (symbol - symbol % 16);
      width := tail;
      slot := reader.Lookup(tail);
      symbol := table[at + slot];
    }
    reader.Skip(symbol % 16);
    symbol := symbol / 16;
  }

  /** The tables can be used with this tail width: the code is not a lone symbol longer than a table
      entry can say, and no codeword needs a second table unless the tail width is the one built for. */
  ghost predicate Usable(lengths: seq<nat>, root: nat, tail: nat, built: nat)
  {
    && Acceptable(lengths)
    && var list := Listed(lengths, UNIT);
    && (|list| > 1 || list[0].bits <= 15)
    && (tail == built || list[0].bits <= root <= 15)
  }

  lemma ReadyWalk(t: seq<int>, base: int, root: nat, tail: nat, built: nat, lengths: seq<nat>, mem: Bits, pos: nat)
    requires Ready(t, base, root, built, lengths) && Usable(lengths, root, tail, built)
    ensures Walk(t, base, root, tail, mem, pos) == Next(Listed(lengths, UNIT), mem, pos)
    ensures Next(Listed(lengths, UNIT), mem, pos).Symbol?
  {
    hide Walk, Listed, Next;
    assert Decodes(t, base, root, tail, Listed(lengths, UNIT));
    var k := NextExists(Listed(lengths, UNIT), mem, pos);
  }

  lemma WindowParts(mem: Bits, pos: nat, a: Bits, b: Bits)
    requires Window(mem, pos, |a + b|) == a + b
    ensures Window(mem, pos, |a|) == a && Window(mem, pos + |a|, |b|) == b
  {
    hide Window;
    WindowConcat(mem, pos, |a|, |b|);
    assert Window(mem, pos, |a|) == (a + b)[..|a|] && Window(mem, pos + |a|, |b|) == (a + b)[|a|..];
  }
}
