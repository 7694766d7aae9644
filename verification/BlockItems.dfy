/** The items of a block behind its header: short symbols, long lengths and plain bits, in any order
    (HUFFMAN_WRITE_SYMBOL, HUFFMAN_DECODE_SYMBOL, BIOWR and BIORD, Xpress9Internal.h:314-431, 537-601). What comes next
    the decoder knows from what it has decoded; here it is told. */
module BlockItems {
  import opened Powers
  import opened BitStrings
  import opened CodeLists
  import opened LengthLists
  import opened DecodeTables
  import opened DecodeHuffman
  import opened Codewords
  import opened HuffmanCodes
  import opened BitIo
  import opened SymbolIo

  datatype Item = Short(symbol: nat) | Long(symbol: nat) | Extra(value: nat, bits: nat)

  datatype Kind = ShortKind | LongKind | ExtraKind(bits: nat)

  function KindOf(item: Item): Kind
  {
    match item
    case Short(_) => ShortKind
    case Long(_) => LongKind
    case Extra(_, bits) => ExtraKind(bits)
  }

  function Kinds(items: seq<Item>): (kinds: seq<Kind>)
    ensures |kinds| == |items|
  {
    seq(|items|, i requires 0 <= i < |items| => KindOf(items[i]))
  }

  /** What the decoder gets for an item. */
  function Payload(item: Item): nat
  {
    match item
    case Short(symbol) => symbol
    case Long(symbol) => symbol
    case Extra(value, _) => value
  }

  ghost predicate ItemSendable(shortMasks: seq<nat>, longMasks: seq<nat>, item: Item)
  {
    match item
    case Short(symbol) => Coded?(shortMasks, symbol)
    case Long(symbol) => Coded?(longMasks, symbol)
    case Extra(value, bits) => bits <= FLUSH && value < Pow2(bits)
  }

  ghost predicate ItemsSendable(shortMasks: seq<nat>, longMasks: seq<nat>, items: seq<Item>)
  {
    forall i :: 0 <= i < |items| ==> ItemSendable(shortMasks, longMasks, items[i])
  }

  ghost function ItemBits(shortMasks: seq<nat>, longMasks: seq<nat>, item: Item): Bits
    requires ItemSendable(shortMasks, longMasks, item)
  {
    match item
    case Short(symbol) => SymbolBits(shortMasks[symbol])
    case Long(symbol) => SymbolBits(longMasks[symbol])
    case Extra(value, bits) => Lsb(value, bits)
  }

  ghost function ItemsBits(shortMasks: seq<nat>, longMasks: seq<nat>, items: seq<Item>): Bits
    requires ItemsSendable(shortMasks, longMasks, items)
  {
    if items == [] then []
    else ItemBits(shortMasks, longMasks, items[0]) + ItemsBits(shortMasks, longMasks, items[1..])
  }

  method SendItem(writer: BitWriter, shortMasks: seq<nat>, longMasks: seq<nat>, item: Item, ghost max: nat)
    requires writer.Valid() && Codebook(shortMasks, max) && Codebook(longMasks, max)
    requires ItemSendable(shortMasks, longMasks, item)
    modifies writer
    ensures writer.Valid() && writer.Emitted() == old(writer.Emitted()) + ItemBits(shortMasks, longMasks, item)
  {
    hide Codebook, Lsb, SymbolBits, WordBits;
    match item {
      case Short(symbol) =>
        ghost var k := SymbolWord(shortMasks, max, symbol);
        WriteSymbol(writer, shortMasks[symbol]);
      case Long(symbol) =>
        ghost var k := SymbolWord(longMasks, max, symbol);
        WriteSymbol(writer, longMasks[symbol]);
      case Extra(value, bits) => writer.Write(value, bits);
    }
  }

  method SendItems(writer: BitWriter, shortMasks: seq<nat>, longMasks: seq<nat>, items: seq<Item>, ghost max: nat)
    requires writer.Valid() && Codebook(shortMasks, max) && Codebook(longMasks, max)
    requires ItemsSendable(shortMasks, longMasks, items)
    modifies writer
    ensures writer.Valid() && writer.Emitted() == old(writer.Emitted()) + ItemsBits(shortMasks, longMasks, items)
  {
    hide Codebook, ItemSendable, ItemBits;
    var i := 0;
    while i < |items|
      invariant i <= |items| && writer.Valid()
      invariant writer.Emitted() + ItemsBits(shortMasks, longMasks, items[i..])
                == old(writer.Emitted()) + ItemsBits(shortMasks, longMasks, items)
    {
      assert items[i..][1..] == items[i + 1..];
      BitsAssoc(writer.Emitted(), ItemBits(shortMasks, longMasks, items[i]), ItemsBits(shortMasks, longMasks, items[i + 1..]));
      SendItem(writer, shortMasks, longMasks, items[i], max);
      i := i + 1;
    }
    assert writer.Emitted() + [] == writer.Emitted();
  }

  /** The decoding tables of the two alphabets. */
  datatype Tables = Tables(shortTable: array<int>, shortRoot: nat, longTable: array<int>, longRoot: nat, root: nat, tail: nat)

  ghost predicate TablesReady(t: Tables, shortMasks: seq<nat>, longMasks: seq<nat>, max: nat)
    reads t.shortTable, t.longTable
  {
    && t.root <= FLUSH && t.tail <= FLUSH && Codebook(shortMasks, max) && Codebook(longMasks, max)
    && Usable(MaskLengths(shortMasks), t.root, t.tail, t.tail) && Usable(MaskLengths(longMasks), t.root, t.tail, t.tail)
    && Ready(t.shortTable[..], t.shortRoot, t.root, t.tail, MaskLengths(shortMasks))
    && Ready(t.longTable[..], t.longRoot, t.root, t.tail, MaskLengths(longMasks))
  }

  method ReceiveSymbol(reader: BitReader, table: array<int>, base: nat, root: nat, tail: nat,
                       ghost masks: seq<nat>, ghost max: nat, ghost symbol: nat)
    returns (received: int)
    requires reader.Valid() && root <= FLUSH && tail <= FLUSH
    requires Codebook(masks, max) && Coded?(masks, symbol)
    requires Ready(table[..], base, root, tail, MaskLengths(masks)) && Usable(MaskLengths(masks), root, tail, tail)
    requires var w := SymbolBits(masks[symbol]); Window(WordBits(reader.memory), reader.Consumed(), |w|) == w
    modifies reader
    ensures reader.Valid() && received == symbol && reader.Consumed() == old(reader.Consumed()) + |SymbolBits(masks[symbol])|
  {
    hide Codebook, Ready, Usable, Window, Walk, Next, Listed, WordBits, MaskLengths, LengthOf, Lsb;
    ghost var mem, pos := WordBits(reader.memory), reader.Consumed();
    SymbolShown(masks, max, symbol, mem, pos);
    ReadyWalk(table[..], base, root, tail, tail, MaskLengths(masks), mem, pos);
    received := DecodeSymbol(reader, table, base, root, tail);
  }

  /** One item, by the table of its alphabet or as plain bits. */
  method ReceiveItem(reader: BitReader, t: Tables, kind: Kind, ghost shortMasks: seq<nat>, ghost longMasks: seq<nat>,
                     ghost max: nat, ghost item: Item)
    returns (received: int)
    requires reader.Valid() && TablesReady(t, shortMasks, longMasks, max) && kind == KindOf(item)
    requires ItemSendable(shortMasks, longMasks, item)
    requires var w := ItemBits(shortMasks, longMasks, item); Window(WordBits(reader.memory), reader.Consumed(), |w|) == w
    modifies reader
    ensures reader.Valid() && received == Payload(item)
    ensures reader.Consumed() == old(reader.Consumed()) + |ItemBits(shortMasks, longMasks, item)|
  {
    hide Codebook, Ready, Usable, Window, WordBits, MaskLengths, LengthOf, SymbolBits, Lsb, FromLsb, Pow2;
    match kind {
      case ShortKind =>
        received := ReceiveSymbol(reader, t.shortTable, t.shortRoot, t.root, t.tail, shortMasks, max, item.symbol);
      case LongKind =>
        received := ReceiveSymbol(reader, t.longTable, t.longRoot, t.root, t.tail, longMasks, max, item.symbol);
      case ExtraKind(bits) =>
        FromLsbOfLsb(item.value, bits);
        received := reader.Lookup(bits);
        reader.Skip(bits);
    }
  }

  lemma ItemsNext(shortMasks: seq<nat>, longMasks: seq<nat>, items: seq<Item>, mem: Bits, pos: nat)
    requires ItemsSendable(shortMasks, longMasks, items) && items != []
    requires var w := ItemsBits(shortMasks, longMasks, items); Window(mem, pos, |w|) == w
    ensures var a, b := ItemBits(shortMasks, longMasks, items[0]), ItemsBits(shortMasks, longMasks, items[1..]);
      Window(mem, pos, |a|) == a && Window(mem, pos + |a|, |b|) == b && |a| + |b| == |ItemsBits(shortMasks, longMasks, items)|
  {
    hide ItemSendable, ItemBits, Window;
    WindowParts(mem, pos, ItemBits(shortMasks, longMasks, items[0]), ItemsBits(shortMasks, longMasks, items[1..]));
  }

  /** Every sequence of items comes back, in its order. */
  method ReceiveItems(reader: BitReader, t: Tables, kinds: seq<Kind>, ghost shortMasks: seq<nat>, ghost longMasks: seq<nat>,
                      ghost max: nat, ghost items: seq<Item>)
    returns (received: seq<int>)
    requires reader.Valid() && TablesReady(t, shortMasks, longMasks, max) && kinds == Kinds(items)
    requires ItemsSendable(shortMasks, longMasks, items)
    requires var w := ItemsBits(shortMasks, longMasks, items); Window(WordBits(reader.memory), reader.Consumed(), |w|) == w
    modifies reader
    ensures reader.Valid() && |received| == |items| && forall i :: 0 <= i < |items| ==> received[i] == Payload(items[i])
    ensures reader.Consumed() == old(reader.Consumed()) + |ItemsBits(shortMasks, longMasks, items)|
  {
    hide ItemSendable, ItemBits, ItemsBits, Window, WordBits, TablesReady;
    received := [];
    ghost var mem := WordBits(reader.memory);
    ghost var end := reader.Consumed() + |ItemsBits(shortMasks, longMasks, items)|;
    while |received| < |kinds|
      invariant |received| <= |items| && reader.Valid() && TablesReady(t, shortMasks, longMasks, max)
      invariant forall i :: 0 <= i < |received| ==> received[i] == Payload(items[i])
      invariant var w := ItemsBits(shortMasks, longMasks, items[|received|..]);
        Window(mem, reader.Consumed(), |w|) == w && reader.Consumed() + |w| == end
    {
      var i := |received|;
      ItemsNext(shortMasks, longMasks, items[i..], mem, reader.Consumed());
      var value := ReceiveItem(reader, t, kinds[i], shortMasks, longMasks, max, items[i]);
      assert items[i..][1..] == items[i + 1..];
      received := received + [value];
    }
    NoItems(shortMasks, longMasks, items[|received|..]);
  }

  lemma NoItems(shortMasks: seq<nat>, longMasks: seq<nat>, items: seq<Item>)
    requires items == []
    ensures ItemsBits(shortMasks, longMasks, items) == []
  {
  }
}
