/** HuffmanDecodeLengthTable (Xpress9DecHuffman.c:405-622). */
module DecodeLengthTable {
  import opened Powers
  import opened BitStrings
  import opened XorWords
  import opened CodeLists
  import opened LengthLists
  import opened DecodeTables
  import opened DecodeHuffman
  import opened BitIo
  import opened SymbolIo
  import opened TableTokens
  import opened ParseLengths

  method GetMsb(n: nat) returns (b: nat)
    ensures b == TopBit(n)
  {
    b := 0;
    var v := n;
    while v > 1
      invariant b + TopBit(v) == TopBit(n)
    {
      b, v := b + 1, v / 2;
    }
  }

  /** Lines 430-450 and, for the encoder's code values, the same lengths. */
  method FillStored(bits: array<nat>)
    requires bits.Length > 0
    modifies bits
    ensures bits[..] == StoredLengths(bits.Length)
  {
    hide TopBit, Pow2;
    var size := bits.Length;
    var b := GetMsb(size);
    TopBitIs(size);
    var k := Pow2(b + 1) - size;
    assert k == Threshold(size);
    var i := 0;
    while i < k
      invariant 0 <= i <= k && forall s :: 0 <= s < i ==> bits[s] == b
    {
      bits[i] := b;
      i := i + 1;
    }
    while i < size
      invariant k <= i <= size
      invariant forall s :: 0 <= s < i ==> bits[s] == if s < k then b else b + 1
    {
      bits[i] := b + 1;
      i := i + 1;
    }
  }

  method Read(reader: BitReader, n: nat) returns (v: nat)
    requires reader.Valid() && n <= FLUSH
    modifies reader
    ensures reader.Valid() && reader.Consumed() == old(reader.Consumed()) + n
    ensures v == Peek(WordBits(reader.memory), old(reader.Consumed()), n)
  {
    v := reader.Lookup(n);
    reader.Skip(n);
  }

  /** Lines 462-489. */
  method ReadSmallTable(reader: BitReader) returns (ok: bool, small: seq<nat>)
    requires reader.Valid()
    modifies reader
    ensures reader.Valid()
    ensures old(ParseSmall(WordBits(reader.memory), reader.Consumed(), [], 4))
            == if ok then Good(small, reader.Consumed()) else Bad
  {
    hide Peek, WordBits;
    ghost var mem := WordBits(reader.memory);
    ghost var goal := ParseSmall(mem, reader.Consumed(), [], 4);
    ok, small := true, [];
    var prev: nat := 4;
    while |small| < TABLE_SIZE
      invariant reader.Valid() && goal == ParseSmall(mem, reader.Consumed(), small, prev)
      decreases TABLE_SIZE - |small|
    {
      var k := Read(reader, 1);
      if k == 0 {
        small := small + [prev];
      } else {
        k := Read(reader, 3);
        if k >= prev {
          k := k + 1;
          if k > 8 { ok := false; return; }
        }
        small := small + [k];
        prev := k;
      }
    }
  }

  /** Lines 531-538, 560-568: zeros written one at a time. */
  method WriteZeroes(bits: array<nat>, from: nat, to: nat)
    requires from <= to <= bits.Length
    modifies bits
    ensures bits[..to] == old(bits[..from]) + Zeroes(to - from)
  {
    var i := from;
    while i < to
      invariant from <= i <= to && bits[..i] == old(bits[..from]) + Zeroes(i - from)
    {
      bits[i] := 0;
      i := i + 1;
    }
  }

  /** Lines 529-538: zeros up to the end of the row. */
  method FillRow(bits: array<nat>, from: nat, boundary: nat) returns (i: nat)
    requires from < bits.Length && boundary > 0
    modifies bits
    ensures from < i <= bits.Length && i == RowEnd(from, bits.Length, boundary)
    ensures bits[..i] == old(bits[..from]) + Zeroes(i - from)
  {
    hide NextRow, AtBoundary;
    RowBoundary(from, boundary);
    bits[from] := 0;
    i := from + 1;
    InsideRow(from, i, boundary);
    while AtBoundary(i, boundary) != 0 && i < bits.Length
      invariant from < i <= bits.Length && i <= NextRow(from, boundary)
      invariant AtBoundary(i, boundary) == 0 ==> i == NextRow(from, boundary)
      invariant bits[..from] == old(bits[..from]) && forall s :: from <= s < i ==> bits[s] == 0
      decreases bits.Length - i
    {
      bits[i] := 0;
      i := i + 1;
      InsideRow(from, i, boundary);
    }
    assert bits[..i] == bits[..from] + Zeroes(i - from);
  }

  /** i & (boundary - 1). */
  function AtBoundary(i: nat, boundary: nat): nat
    requires boundary > 0
  {
    i % boundary
  }

  lemma InsideRow(k: nat, j: nat, boundary: nat)
    requires boundary > 0 && k < j
    ensures j < NextRow(k, boundary) ==> AtBoundary(j, boundary) != 0
  {
    TableTokens.InsideRow(k, j, boundary);
  }

  lemma RowBoundary(k: nat, boundary: nat)
    requires boundary > 0
    ensures AtBoundary(NextRow(k, boundary), boundary) == 0
  {
    NextRowIs(k, boundary);
  }

  lemma SameRow(i: nat, n: nat, size: nat, boundary: nat, m: nat)
    requires boundary == Pow2(m)
    ensures RunFits(i, n, size, boundary) <==> !(i + n > size || Xor(i, i + n) >= boundary)
  {
    XorBlock(i, i + n, m);
  }

  /** Lines 540-568: the length of a run of zeros. */
  method ReadRun(reader: BitReader, i: nat, size: nat, boundary: nat, ghost m: nat) returns (ok: bool, n: nat)
    requires reader.Valid() && boundary == Pow2(m)
    modifies reader
    ensures reader.Valid()
    ensures old(ParseRun(WordBits(reader.memory), reader.Consumed(), i, size, boundary))
            == if ok then Run(n, reader.Consumed()) else NoRun
  {
    hide Peek, WordBits, RunFits, Xor, Pow2;
    ghost var mem := WordBits(reader.memory);
    ghost var goal := ParseRun(mem, reader.Consumed(), i, size, boundary);
    ok := true;
    var k := Read(reader, 2);
    n := k + ZERO_REPT_MIN_COUNT;
    if k == 3 {
      k := 7;
      while k == 7
        invariant reader.Valid()
        invariant goal == if k == 7 then ParseGroups(mem, reader.Consumed(), i, n, size, boundary) else Run(n, reader.Consumed())
        invariant k != 7 ==> RunFits(i, n, size, boundary)
        decreases k == 7, size - n
      {
        k := Read(reader, 3);
        n := n + k;
        SameRow(i, n, size, boundary, m);
        if i + n > size || Xor(i, i + n) >= boundary { ok := false; return; }
      }
    }
    SameRow(i, n, size, boundary, m);
    if i + n > size || Xor(i, i + n) >= boundary { ok := false; }
  }

  lemma AppendOne(bits: seq<nat>, i: nat, x: nat, was: seq<nat>)
    requires i < |bits| && bits[i] == x && bits[..i] == was
    ensures bits[..i + 1] == was + [x]
  {
  }

  /** Lines 505-605: one symbol of the description. */
  method ApplySymbol(reader: BitReader, symbol: int, bits: array<nat>, i0: nat, prev0: nat, boundary: nat, max: nat, ghost m: nat)
    returns (ok: bool, i: nat, prev: nat)
    requires reader.Valid() && boundary == Pow2(m) && i0 < bits.Length
    modifies reader, bits
    ensures reader.Valid() && (ok ==> i <= bits.Length)
    ensures old(Step(symbol, WordBits(reader.memory), reader.Consumed(), bits[..i0], prev0, bits.Length, boundary, max))
            == if ok then Filled(bits[..i], prev, reader.Consumed()) else Stuck
  {
    hide Peek, WordBits, Pow2, NextRow, Block, ParseRun, RowEnd;
    ok, i, prev := true, i0, prev0;
    ghost var was := bits[..i];
    if symbol == FILL {
      i := FillRow(bits, i, boundary);
    } else if symbol == ZERO_REPT {
      RunIsBounded(WordBits(reader.memory), reader.Consumed(), i, bits.Length, boundary);
      var n;
      ok, n := ReadRun(reader, i, bits.Length, boundary, m);
      if !ok { return; }
      WriteZeroes(bits, i, i + n);
      i := i + n;
    } else if symbol == PREV {
      bits[i] := prev;
      AppendOne(bits[..], i, prev, was);
      i := i + 1;
    } else if symbol == ROW_0 {
      if i < boundary { ok := false; return; }
      bits[i] := bits[i - boundary];
      if bits[i] == 0 { ok := false; return; }
      prev := bits[i];
      AppendOne(bits[..], i, prev, was);
      i := i + 1;
    } else if symbol == ROW_1 {
      if i < boundary { ok := false; return; }
      bits[i] := bits[i - boundary] + 1;
      if bits[i] > max || bits[i] == 0 { ok := false; return; }
      prev := bits[i];
      AppendOne(bits[..], i, prev, was);
      i := i + 1;
    } else {
      // the symbol is compared as an unsigned number, so a negative one is too large as well
      if symbol < 0 || symbol > max { ok := false; return; }
      bits[i] := symbol;
      AppendOne(bits[..], i, symbol, was);
      i := i + 1;
      if symbol != 0 { prev := symbol; }
    }
  }

  lemma SmallIsRoomy(small: seq<nat>)
    requires |small| == TABLE_SIZE && Bounded(small, 8) && Acceptable(small)
    ensures Roomy(small, 288, 8, 4) && Usable(small, 8, 1, 4)
  {
    hide Listed, Complete;
    var list := Listed(small, UNIT);
    ListedElements(small, UNIT);
    if |list| != 1 { NotEmpty(list); }
    assert list[0].bits <= 8;
    RootSize(8);
  }

  lemma NotEmpty(list: seq<Coded>)
    requires Complete(list)
    ensures list != []
  {
  }

  lemma RootSize(n: nat)
    requires n == 8
    ensures Pow2(n) == 256
  {
    assert Pow2(8) == 256;
  }

  lemma ItemsStep(list: seq<Coded>, mem: Bits, pos: nat, done: seq<nat>, prev: nat, size: nat, boundary: nat, max: nat)
    requires boundary > 0 && Lengths(list) && |done| < size && Next(list, mem, pos).Symbol?
    ensures var s := Step(Next(list, mem, pos).symbol, mem, Next(list, mem, pos).pos, done, prev, size, boundary, max);
      ParseItems(list, mem, pos, done, prev, size, boundary, max)
      == if s.Filled? then ParseItems(list, mem, s.pos, s.done, s.prev, size, boundary, max) else Bad
    ensures var s := Step(Next(list, mem, pos).symbol, mem, Next(list, mem, pos).pos, done, prev, size, boundary, max);
      s.Filled? ==> |done| < |s.done| <= size
  {
    hide Next, Step;
  }

  lemma ItemsEnd(list: seq<Coded>, mem: Bits, pos: nat, done: seq<nat>, prev: nat, size: nat, boundary: nat, max: nat)
    requires boundary > 0 && Lengths(list) && |done| == size
    ensures ParseItems(list, mem, pos, done, prev, size, boundary, max) == Good(done, pos)
  {
  }

  /** Lines 500-608. */
  method ReadDescription(reader: BitReader, table: array<int>, base: nat, bits: array<nat>, boundary: nat, max: nat,
                         ghost m: nat, ghost small: seq<nat>) returns (ok: bool)
    requires reader.Valid() && boundary == Pow2(m) && bits as object != table
    requires Ready(table[..], base, 8, 4, small) && Usable(small, 8, 1, 4)
    modifies reader, bits
    ensures reader.Valid() && Lengths(Listed(small, UNIT))
    ensures old(ParseItems(Listed(small, UNIT), WordBits(reader.memory), reader.Consumed(), [], 8, bits.Length, boundary, max))
            == if ok then Good(bits[..], reader.Consumed()) else Bad
  {
    hide Window, WordBits, FromLsb, ParseItems, Step, Next, Ready, Usable, Walk, Listed, Pow2;
    ghost var mem := WordBits(reader.memory);
    ghost var list := Listed(small, UNIT);
    ListIsSorted(small);
    PowerPositive(m);
    ghost var goal := ParseItems(list, mem, reader.Consumed(), [], 8, bits.Length, boundary, max);
    ghost var t := table[..];
    ok := true;
    var prev: nat, i: nat := 8, 0;
    assert bits[..i] == [];
    while i < bits.Length
      invariant i <= bits.Length && reader.Valid() && table[..] == t
      invariant goal == ParseItems(list, mem, reader.Consumed(), bits[..i], prev, bits.Length, boundary, max)
    {
      ReadyWalk(t, base, 8, 1, 4, small, mem, reader.Consumed());
      ItemsStep(list, mem, reader.Consumed(), bits[..i], prev, bits.Length, boundary, max);
      FlushWidth();
      var symbol := DecodeSymbol(reader, table, base, 8, 1);
      ok, i, prev := ApplySymbol(reader, symbol, bits, i, prev, boundary, max, m);
      if !ok { return; }
    }
    assert bits[..i] == bits[..];
    ItemsEnd(list, mem, reader.Consumed(), bits[..], prev, bits.Length, boundary, max);
  }

  lemma PowerPositive(m: nat)
    ensures Pow2(m) > 0
  {
  }

  lemma FlushWidth()
    ensures FLUSH == 32
  {
  }

  lemma TableOf(mem: Bits, pos: nat, size: nat, boundary: nat, max: nat, k: nat)
    requires boundary > 0 && size > 0 && k == Peek(mem, pos, 3)
    ensures ParseTable(mem, pos, size, boundary, max)
            == if k == 0 then Good(StoredLengths(size), pos + 3)
               else if k != 1 then Bad else ParseDescription(mem, pos + 3, size, boundary, max)
  {
  }

  lemma DescriptionOf(mem: Bits, pos: nat, size: nat, boundary: nat, max: nat)
    requires boundary > 0
    ensures ParseSmall(mem, pos, [], 4).Bad? ==> ParseDescription(mem, pos, size, boundary, max) == Bad
    ensures var s := ParseSmall(mem, pos, [], 4);
      s.Good? ==> |s.lengths| == TABLE_SIZE && Bounded(s.lengths, 8)
    ensures var s := ParseSmall(mem, pos, [], 4);
      s.Good? && !Acceptable(s.lengths) ==> ParseDescription(mem, pos, size, boundary, max) == Bad
    ensures var s := ParseSmall(mem, pos, [], 4);
      s.Good? && Acceptable(s.lengths) ==>
        Lengths(Listed(s.lengths, UNIT)) &&
        ParseDescription(mem, pos, size, boundary, max)
        == ParseItems(Listed(s.lengths, UNIT), mem, s.pos, [], 8, size, boundary, max)
  {
    hide ParseItems, Peek, Listed;
    SmallIsBounded(mem, pos, [], 4);
  }

  lemma ReadyAccepted(t: seq<int>, base: int, root: nat, tail: nat, lengths: seq<nat>)
    requires Ready(t, base, root, tail, lengths)
    ensures Acceptable(lengths)
  {
  }

  /** The table read is exactly what the stream says; failures are the source's error branches. */
  method HuffmanDecodeLengthTable(reader: BitReader, bits: array<nat>, boundary: nat, max: nat, ghost m: nat) returns (ok: bool)
    requires reader.Valid() && boundary == Pow2(m) && bits.Length > 0
    modifies reader, bits
    ensures reader.Valid()
    ensures old(ParseTable(WordBits(reader.memory), reader.Consumed(), bits.Length, boundary, max))
            == if ok then Good(bits[..], reader.Consumed()) else Bad
  {
    hide Window, WordBits, FromLsb, ParseItems, ParseTable, ParseSmall, ParseDescription, StoredLengths, Peek,
      Next, Ready, Usable, Roomy, Acceptable, Walk, Listed, Pow2;
    PowerPositive(m);
    ghost var mem, pos := WordBits(reader.memory), reader.Consumed();
    FlushWidth();
    var k := Read(reader, 3);
    TableOf(mem, pos, bits.Length, boundary, max, k);
    if k == 0 {
      FillStored(bits);
      return true;
    }
    if k != 1 { return false; }
    DescriptionOf(mem, pos + 3, bits.Length, boundary, max);
    var small;
    ok, small := ReadSmallTable(reader);
    if !ok { return; }
    var table := new int[288](_ => 0);
    RootSize(8);
    TableSize();
    var base := HuffmanCreateDecodeTables(small, table, 8, 4);
    if base < 0 {
      if Acceptable(small) { SmallIsRoomy(small); }
      return false;
    }
    ReadyAccepted(table[..], base, 8, 4, small);
    SmallIsRoomy(small);
    ok := ReadDescription(reader, table, base, bits, boundary, max, m, small);
  }

  lemma TableSize()
    ensures TABLE_SIZE == 33
  {
  }
}
