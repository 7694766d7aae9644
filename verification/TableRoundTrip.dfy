/** HuffmanDecodeLengthTable reads back the lengths that Xpress9HuffmanEncodeTable wrote. */
module TableRoundTrip {
  import opened Powers
  import opened BitStrings
  import opened CodeLists
  import opened LengthLists
  import opened DecodeTables
  import opened DecodeHuffman
  import opened Codewords
  import opened HuffmanCodes
  import opened SymbolIo
  import opened TableTokens
  import opened EncodeTable
  import opened ParseLengths

  /** The stream holds w at pos. */
  ghost predicate Shows(mem: Bits, pos: nat, w: Bits) { Window(mem, pos, |w|) == w }

  lemma ShowsParts(mem: Bits, pos: nat, a: Bits, b: Bits)
    requires Shows(mem, pos, a + b)
    ensures Shows(mem, pos, a) && Shows(mem, pos + |a|, b)
  {
    WindowParts(mem, pos, a, b);
  }

  lemma PeekShown(mem: Bits, pos: nat, v: nat, n: nat)
    requires v < Pow2(n) && Shows(mem, pos, Lsb(v, n))
    ensures Peek(mem, pos, n) == v
  {
    FromLsbOfLsb(v, n);
  }

  // ------------------------------------------------------------------ the small table

  lemma SmallParts(lengths: seq<nat>, i: nat, prev: nat, mem: Bits, pos: nat)
    requires i < |lengths| && lengths[i] <= 8 && prev <= 8 && Shows(mem, pos, SmallBits(lengths, i, prev))
    ensures Peek(mem, pos, 1) == if lengths[i] == prev then 0 else 1
    ensures lengths[i] != prev ==> Peek(mem, pos + 1, 3) == if lengths[i] > prev then lengths[i] - 1 else lengths[i]
    ensures var w := if lengths[i] == prev then 1 else 4;
      Shows(mem, pos + w, SmallBits(lengths, i + 1, lengths[i]))
      && |SmallBits(lengths, i, prev)| == w + |SmallBits(lengths, i + 1, lengths[i])|
  {
    hide Lsb, Shows, Peek;
    SmallPowers();
    var rest := SmallBits(lengths, i + 1, lengths[i]);
    if lengths[i] == prev {
      ShowsParts(mem, pos, Lsb(0, 1), rest);
      PeekShown(mem, pos, 0, 1);
    } else {
      var k := if lengths[i] > prev then lengths[i] - 1 else lengths[i];
      ShowsParts(mem, pos, Lsb(1, 1) + Lsb(k, 3), rest);
      ShowsParts(mem, pos, Lsb(1, 1), Lsb(k, 3));
      PeekShown(mem, pos, 1, 1);
      PeekShown(mem, pos + 1, k, 3);
    }
  }

  lemma {:induction false} SmallTableReads(lengths: seq<nat>, i: nat, prev: nat, mem: Bits, pos: nat)
    requires |lengths| == TABLE_SIZE && i <= |lengths| && Bounded(lengths, 8) && prev <= 8
    requires Shows(mem, pos, SmallBits(lengths, i, prev))
    ensures ParseSmall(mem, pos, lengths[..i], prev) == Good(lengths, pos + |SmallBits(lengths, i, prev)|)
    decreases TABLE_SIZE - i
  {
    hide Shows, Peek, SmallBits;
    if i == TABLE_SIZE {
      assert lengths[..i] == lengths;
      NoSmallBits(lengths, prev);
    } else {
      SmallParts(lengths, i, prev, mem, pos);
      assert lengths[..i + 1] == lengths[..i] + [lengths[i]];
      SmallTableReads(lengths, i + 1, lengths[i], mem, pos + if lengths[i] == prev then 1 else 4);
    }
  }

  lemma NoSmallBits(lengths: seq<nat>, prev: nat)
    ensures SmallBits(lengths, |lengths|, prev) == []
  {
  }

  // ------------------------------------------------------------------ runs of zeros

  lemma RunFitsLess(i: nat, n: nat, n': nat, size: nat, boundary: nat)
    requires boundary > 0 && n <= n' && RunFits(i, n', size, boundary)
    ensures RunFits(i, n, size, boundary)
  {
    BlockMonotone(i, i + n, boundary);
    BlockMonotone(i + n, i + n', boundary);
  }

  lemma {:induction false} GroupsRead(extra: nat, mem: Bits, pos: nat, i: nat, n: nat, size: nat, boundary: nat)
    requires boundary > 0 && RunFits(i, n + extra, size, boundary) && Shows(mem, pos, GroupBits(extra))
    ensures ParseGroups(mem, pos, i, n, size, boundary) == Run(n + extra, pos + |GroupBits(extra)|)
    decreases extra
  {
    hide Shows, Peek, Lsb, RunFits;
    SmallPowers();
    if extra < 7 {
      PeekShown(mem, pos, extra, 3);
    } else {
      ShowsParts(mem, pos, Lsb(7, 3), GroupBits(extra - 7));
      PeekShown(mem, pos, 7, 3);
      RunFitsLess(i, n + 7, n + extra, size, boundary);
      GroupsRead(extra - 7, mem, pos + 3, i, n + 7, size, boundary);
    }
  }

  lemma RunReads(extra: nat, mem: Bits, pos: nat, i: nat, size: nat, boundary: nat)
    requires boundary > 0 && RunFits(i, extra + ZERO_REPT_MIN_COUNT, size, boundary) && Shows(mem, pos, RunBits(extra))
    ensures ParseRun(mem, pos, i, size, boundary) == Run(extra + ZERO_REPT_MIN_COUNT, pos + |RunBits(extra)|)
  {
    hide Shows, Peek, Lsb, RunFits, ParseGroups;
    SmallPowers();
    if extra < 3 {
      PeekShown(mem, pos, extra, 2);
    } else {
      ShowsParts(mem, pos, Lsb(3, 2), GroupBits(extra - 3));
      PeekShown(mem, pos, 3, 2);
      GroupsRead(extra - 3, mem, pos + 2, i, 3 + ZERO_REPT_MIN_COUNT, size, boundary);
    }
  }

  // ------------------------------------------------------------------ the description

  /** Everything that stays the same while a table is read. */
  datatype Setting = Setting(small: seq<nat>, lengths: seq<nat>, boundary: nat, max: nat, mem: Bits)

  ghost predicate Valid(c: Setting)
  {
    && c.boundary > 0 && Codebook(c.small, SMALL_MAX) && c.max <= MAX_CODEWORD_LENGTH && Bounded(c.lengths, c.max)
  }

  ghost function Items(c: Setting, pos: nat, i: nat, prev: nat): Parsed
    requires Valid(c) && i <= |c.lengths|
  {
    ListIsSorted(MaskLengths(c.small));
    ParseItems(Listed(MaskLengths(c.small), UNIT), c.mem, pos, c.lengths[..i], prev, |c.lengths|, c.boundary, c.max)
  }

  lemma {:induction false} TokensBitsConcat(masks: seq<nat>, a: seq<Token>, b: seq<Token>)
    requires AllCoded(masks, a + b)
    ensures AllCoded(masks, a) && AllCoded(masks, b)
    ensures TokensBits(masks, a + b) == TokensBits(masks, a) + TokensBits(masks, b)
  {
    hide TokenBits;
    CodedParts(masks, a, b);
    if a == [] {
      assert a + b == b;
    } else {
      assert (a + b)[1..] == a[1..] + b;
      CodedParts(masks, a[..1], a[1..] + b);
      TokensBitsConcat(masks, a[1..], b);
    }
  }

  lemma CodedParts(masks: seq<nat>, a: seq<Token>, b: seq<Token>)
    requires AllCoded(masks, a + b)
    ensures AllCoded(masks, a) && AllCoded(masks, b)
  {
    forall n | 0 <= n < |a| ensures Coded?(masks, SymbolOf(a[n])) { assert (a + b)[n] == a[n]; }
    forall n | 0 <= n < |b| ensures Coded?(masks, SymbolOf(b[n])) { assert (a + b)[|a| + n] == b[n]; }
  }

  /** Reading one token advances by one step of the parser. */
  lemma TokenReads(c: Setting, t: Token, pos: nat, i: nat, prev: nat)
    requires Valid(c) && i < |c.lengths| && Coded?(c.small, SymbolOf(t)) && Shows(c.mem, pos, TokenBits(c.small, t))
    ensures Shows(c.mem, pos + LengthOf(c.small[SymbolOf(t)]), if t.Zeros? then RunBits(t.extra) else [])
    ensures var p := pos + LengthOf(c.small[SymbolOf(t)]);
      var s := Step(SymbolOf(t), c.mem, p, c.lengths[..i], prev, |c.lengths|, c.boundary, c.max);
      s.Filled? && s.done == c.lengths[..|s.done|] ==> Items(c, pos, i, prev) == Items(c, s.pos, |s.done|, s.prev)
  {
    hide Codebook, Listed, Next, Step, MaskLengths, Lsb, LengthOf, ValueOf, RunBits, Window;
    ListIsSorted(MaskLengths(c.small));
    ShowsParts(c.mem, pos, SymbolBits(c.small[SymbolOf(t)]), if t.Zeros? then RunBits(t.extra) else []);
    SymbolShown(c.small, SMALL_MAX, SymbolOf(t), c.mem, pos);
  }

  lemma ZerosAppended(lengths: seq<nat>, i: nat, j: nat)
    requires i <= j <= |lengths| && forall m :: i <= m < j ==> lengths[m] == 0
    ensures lengths[..j] == lengths[..i] + Zeroes(j - i)
  {
  }

  ghost predicate ZeroRun(c: Setting, k: nat, i: nat)
  {
    k <= i <= |c.lengths| && forall m :: k <= m < i ==> c.lengths[m] == 0
  }

  lemma TokenSize(masks: seq<nat>, t: Token)
    requires SymbolOf(t) < |masks|
    ensures |TokenBits(masks, t)| == LengthOf(masks[SymbolOf(t)]) + if t.Zeros? then |RunBits(t.extra)| else 0
  {
  }

  lemma ZeroReads(c: Setting, pos: nat, i: nat, prev: nat)
    requires Valid(c) && ZeroRun(c, i, i + 1) && Coded?(c.small, 0) && Shows(c.mem, pos, TokenBits(c.small, Plain(0)))
    ensures Items(c, pos, i, prev) == Items(c, pos + |TokenBits(c.small, Plain(0))|, i + 1, prev)
  {
    hide Items, Codebook, Shows, TokenBits, LengthOf, RunBits;
    TokenReads(c, Plain(0), pos, i, prev);
    TokenSize(c.small, Plain(0));
    assert c.lengths[..i + 1] == c.lengths[..i] + [0];
  }

  lemma FillReads(c: Setting, pos: nat, k: nat, i: nat, prev: nat)
    requires Valid(c) && ZeroRun(c, k, i) && Block(k, c.boundary) != Block(i, c.boundary)
    requires Coded?(c.small, FILL) && Shows(c.mem, pos, TokenBits(c.small, Plain(FILL)))
    ensures NextRow(k, c.boundary) <= i
    ensures Items(c, pos, k, prev) == Items(c, pos + |TokenBits(c.small, Plain(FILL))|, NextRow(k, c.boundary), prev)
  {
    hide Items, Codebook, Shows, TokenBits, LengthOf, RunBits, Block;
    RowAbove(k, i, c.boundary);
    TokenReads(c, Plain(FILL), pos, k, prev);
    TokenSize(c.small, Plain(FILL));
    ZerosAppended(c.lengths, k, NextRow(k, c.boundary));
  }

  lemma LongRunReads(c: Setting, pos: nat, k: nat, i: nat, prev: nat)
    requires Valid(c) && ZeroRun(c, k, i) && Block(k, c.boundary) == Block(i, c.boundary) && i - k >= ZERO_REPT_MIN_COUNT
    requires var t := Zeros(i - k - ZERO_REPT_MIN_COUNT); Coded?(c.small, SymbolOf(t)) && Shows(c.mem, pos, TokenBits(c.small, t))
    ensures Items(c, pos, k, prev) == Items(c, pos + |TokenBits(c.small, Zeros(i - k - ZERO_REPT_MIN_COUNT))|, i, prev)
  {
    hide Items, Codebook, Shows, TokenBits, LengthOf, RunBits, Block, ParseRun;
    var t := Zeros(i - k - ZERO_REPT_MIN_COUNT);
    TokenReads(c, t, pos, k, prev);
    TokenSize(c.small, t);
    RunReads(t.extra, c.mem, pos + LengthOf(c.small[ZERO_REPT]), k, |c.lengths|, c.boundary);
    ZerosAppended(c.lengths, k, i);
  }

  lemma LengthReads(c: Setting, pos: nat, i: nat, prev: nat)
    requires Valid(c) && i < |c.lengths| && c.lengths[i] != 0
    requires var s := LengthSymbol(c.lengths, i, prev, c.boundary);
      Coded?(c.small, s) && Shows(c.mem, pos, TokenBits(c.small, Plain(s)))
    ensures var s := LengthSymbol(c.lengths, i, prev, c.boundary);
      Items(c, pos, i, prev) == Items(c, pos + |TokenBits(c.small, Plain(s))|, i + 1, c.lengths[i])
  {
    hide Items, Codebook, Shows, TokenBits, LengthOf, RunBits;
    var s := LengthSymbol(c.lengths, i, prev, c.boundary);
    TokenReads(c, Plain(s), pos, i, prev);
    TokenSize(c.small, Plain(s));
    assert c.lengths[..i + 1] == c.lengths[..i] + [c.lengths[i]];
  }

  lemma FirstToken(masks: seq<nat>, t: Token, rest: seq<Token>, mem: Bits, pos: nat)
    requires AllCoded(masks, [t] + rest) && Shows(mem, pos, TokensBits(masks, [t] + rest))
    ensures Coded?(masks, SymbolOf(t)) && AllCoded(masks, rest)
    ensures Shows(mem, pos, TokenBits(masks, t))
    ensures Shows(mem, pos + |TokenBits(masks, t)|, TokensBits(masks, rest))
    ensures |TokensBits(masks, [t] + rest)| == |TokenBits(masks, t)| + |TokensBits(masks, rest)|
  {
    hide TokenBits, Shows, LengthOf;
    CodedParts(masks, [t], rest);
    assert ([t] + rest)[1..] == rest && [t][0] == t;
    ShowsParts(mem, pos, TokenBits(masks, t), TokensBits(masks, rest));
  }

  lemma {:induction false} RepeatReads(c: Setting, n: nat, pos: nat, k: nat, prev: nat)
    requires Valid(c) && ZeroRun(c, k, k + n)
    requires AllCoded(c.small, Repeat(Plain(0), n)) && Shows(c.mem, pos, TokensBits(c.small, Repeat(Plain(0), n)))
    ensures Items(c, pos, k, prev) == Items(c, pos + |TokensBits(c.small, Repeat(Plain(0), n))|, k + n, prev)
    decreases n
  {
    hide Items, Shows, TokenBits, Valid, LengthOf;
    if n > 0 {
      hide TokensBits;
      FirstToken(c.small, Plain(0), Repeat(Plain(0), n - 1), c.mem, pos);
      ZeroReads(c, pos, k, prev);
      RepeatReads(c, n - 1, pos + |TokenBits(c.small, Plain(0))|, k + 1, prev);
    }
  }

  lemma NoBits(masks: seq<nat>)
    ensures TokensBits(masks, []) == []
  {
  }

  lemma {:induction false} ZerosRead(c: Setting, pos: nat, k: nat, i: nat, prev: nat)
    requires Valid(c) && ZeroRun(c, k, i) && AllCoded(c.small, ZeroTokens(k, i, c.boundary))
    requires Shows(c.mem, pos, TokensBits(c.small, ZeroTokens(k, i, c.boundary)))
    ensures Items(c, pos, k, prev) == Items(c, pos + |TokensBits(c.small, ZeroTokens(k, i, c.boundary))|, i, prev)
    decreases i - k
  {
    hide Items, Shows, TokensBits, TokenBits, LengthOf, Codebook, Block, Repeat, NextRow;
    if Block(k, c.boundary) != Block(i, c.boundary) {
      RowAbove(k, i, c.boundary);
      var next := NextRow(k, c.boundary);
      FirstToken(c.small, Plain(FILL), ZeroTokens(next, i, c.boundary), c.mem, pos);
      FillReads(c, pos, k, i, prev);
      ZerosRead(c, pos + |TokenBits(c.small, Plain(FILL))|, next, i, prev);
    } else if i - k < ZERO_REPT_MIN_COUNT {
      RepeatReads(c, i - k, pos, k, prev);
    } else {
      var t := Zeros(i - k - ZERO_REPT_MIN_COUNT);
      assert [t] + [] == [t];
      FirstToken(c.small, t, [], c.mem, pos);
      NoBits(c.small);
      LongRunReads(c, pos, k, i, prev);
    }
  }

  lemma ZeroBranch(c: Setting, pos: nat, i: nat, prev: nat)
    requires Valid(c) && i < |c.lengths| && c.lengths[i] == 0 && AllCoded(c.small, Tokens(c.lengths, i, prev, c.boundary))
    requires Shows(c.mem, pos, TokensBits(c.small, Tokens(c.lengths, i, prev, c.boundary)))
    ensures var j := ZeroEnd(c.lengths, i + 1); var rest := Tokens(c.lengths, j, prev, c.boundary); AllCoded(c.small, rest)
    ensures var j := ZeroEnd(c.lengths, i + 1); var rest := Tokens(c.lengths, j, prev, c.boundary);
      var next := pos + |TokensBits(c.small, Tokens(c.lengths, i, prev, c.boundary))| - |TokensBits(c.small, rest)|;
      next >= pos && Shows(c.mem, next, TokensBits(c.small, rest))
      && Items(c, pos, i, prev) == Items(c, next, j, prev)
  {
    hide Shows, TokensBits, TokenBits, LengthOf, Codebook, ZeroTokens, Items;
    var j := ZeroEnd(c.lengths, i + 1);
    var zeros, rest := ZeroTokens(i, j, c.boundary), Tokens(c.lengths, j, prev, c.boundary);
    TokensBitsConcat(c.small, zeros, rest);
    ShowsParts(c.mem, pos, TokensBits(c.small, zeros), TokensBits(c.small, rest));
    ZerosRead(c, pos, i, j, prev);
  }

  lemma LengthBranch(c: Setting, pos: nat, i: nat, prev: nat)
    requires Valid(c) && i < |c.lengths| && c.lengths[i] != 0 && AllCoded(c.small, Tokens(c.lengths, i, prev, c.boundary))
    requires Shows(c.mem, pos, TokensBits(c.small, Tokens(c.lengths, i, prev, c.boundary)))
    ensures var rest := Tokens(c.lengths, i + 1, c.lengths[i], c.boundary); AllCoded(c.small, rest)
    ensures var rest := Tokens(c.lengths, i + 1, c.lengths[i], c.boundary);
      var next := pos + |TokensBits(c.small, Tokens(c.lengths, i, prev, c.boundary))| - |TokensBits(c.small, rest)|;
      next >= pos && Shows(c.mem, next, TokensBits(c.small, rest))
      && Items(c, pos, i, prev) == Items(c, next, i + 1, c.lengths[i])
  {
    hide Shows, TokensBits, TokenBits, LengthOf, Codebook, LengthSymbol, Items;
    var s := LengthSymbol(c.lengths, i, prev, c.boundary);
    FirstToken(c.small, Plain(s), Tokens(c.lengths, i + 1, c.lengths[i], c.boundary), c.mem, pos);
    LengthReads(c, pos, i, prev);
  }

  lemma EndBranch(c: Setting, pos: nat, prev: nat)
    requires Valid(c)
    ensures Tokens(c.lengths, |c.lengths|, prev, c.boundary) == [] && TokensBits(c.small, []) == []
    ensures Items(c, pos, |c.lengths|, prev) == Good(c.lengths, pos)
  {
    hide Listed, Codebook;
    assert c.lengths[..|c.lengths|] == c.lengths;
  }

  lemma {:induction false} DescriptionReads(c: Setting, pos: nat, i: nat, prev: nat)
    requires Valid(c) && i <= |c.lengths| && AllCoded(c.small, Tokens(c.lengths, i, prev, c.boundary))
    requires Shows(c.mem, pos, TokensBits(c.small, Tokens(c.lengths, i, prev, c.boundary)))
    ensures Items(c, pos, i, prev) == Good(c.lengths, pos + |TokensBits(c.small, Tokens(c.lengths, i, prev, c.boundary))|)
    decreases |c.lengths| - i
  {
    hide Shows, TokensBits, Tokens, TokenBits, LengthOf, Codebook, Items, Bounded;
    var now := |TokensBits(c.small, Tokens(c.lengths, i, prev, c.boundary))|;
    if i == |c.lengths| {
      EndBranch(c, pos, prev);
    } else if c.lengths[i] != 0 {
      LengthBranch(c, pos, i, prev);
      var rest := Tokens(c.lengths, i + 1, c.lengths[i], c.boundary);
      DescriptionReads(c, pos + now - |TokensBits(c.small, rest)|, i + 1, c.lengths[i]);
    } else {
      ZeroBranch(c, pos, i, prev);
      var j := ZeroEnd(c.lengths, i + 1);
      var rest := Tokens(c.lengths, j, prev, c.boundary);
      DescriptionReads(c, pos + now - |TokensBits(c.small, rest)|, j, prev);
    }
  }

  /** A described table reads back, and leaves the reader behind it. */
  lemma TableReads(small: seq<nat>, lengths: seq<nat>, boundary: nat, max: nat, mem: Bits, pos: nat)
    requires Describes(small, lengths, boundary) && max <= MAX_CODEWORD_LENGTH && Bounded(lengths, max)
    requires Shows(mem, pos, Description(small, lengths, boundary))
    ensures ParseDescription(mem, pos, |lengths|, boundary, max)
            == Good(lengths, pos + |Description(small, lengths, boundary)|)
  {
    hide Shows, TokensBits, SmallBits, ParseItems, ParseSmall, LengthOf, Tokens, Listed, Masks;
    var sl := MaskLengths(small);
    var ts := Tokens(lengths, 0, 8, boundary);
    ShowsParts(mem, pos, SmallBits(sl, 0, 4), TokensBits(small, ts));
    assert Bounded(sl, 8);
    SmallTableReads(sl, 0, 4, mem, pos);
    assert sl[..0] == [] && lengths[..0] == [];
    DescriptionReads(Setting(small, lengths, boundary, max, mem), pos + |SmallBits(sl, 0, 4)|, 0, 8);
  }
}
