/** Xpress9HuffmanEncodeTable (Xpress9EncHuffman.c:811-1072): the lengths of a code, described by symbols
    that are themselves Huffman coded. */
module EncodeTable {
  import opened Powers
  import opened BitStrings
  import opened XorWords
  import opened HuffmanTree
  import opened SortSymbols
  import opened SumsOver
  import opened DecodeHuffman
  import opened Codewords
  import opened HuffmanCodes
  import opened BitIo
  import opened SymbolIo
  import opened TableTokens

  const SMALL_MAX: nat := 8

  // ------------------------------------------------------------------ how often each symbol is used

  function Occurs(ts: seq<Token>, s: nat): nat
  {
    if ts == [] then 0 else (if SymbolOf(ts[0]) == s then 1 else 0) + Occurs(ts[1..], s)
  }

  lemma {:induction false} OccursConcat(a: seq<Token>, b: seq<Token>, s: nat)
    ensures Occurs(a + b, s) == Occurs(a, s) + Occurs(b, s)
  {
    if a == [] {
      assert a + b == b;
    } else {
      OccursConcat(a[1..], b, s);
      assert (a + b)[1..] == a[1..] + b;
    }
  }

  lemma {:induction false} OccursRepeat(t: Token, n: nat, s: nat)
    ensures Occurs(Repeat(t, n), s) == if SymbolOf(t) == s then n else 0
  {
    if n > 0 { OccursRepeat(t, n - 1, s); }
  }

  lemma {:induction false} OccursIn(ts: seq<Token>, n: nat)
    requires n < |ts|
    ensures Occurs(ts, SymbolOf(ts[n])) > 0
  {
    if n > 0 { OccursIn(ts[1..], n - 1); }
  }

  lemma {:induction false} OverSum(n: nat, f: nat -> nat, g: nat -> nat, h: nat -> nat)
    requires forall s :: 0 <= s < n ==> f(s) == g(s) + h(s)
    ensures Over(n, f) == Over(n, g) + Over(n, h)
  {
    if n > 0 { OverSum(n - 1, f, g, h); }
  }

  ghost function OccursAt(ts: seq<Token>): nat -> nat { (s: nat) => Occurs(ts, s) }

  lemma {:induction false} OccursTotal(ts: seq<Token>, n: nat)
    requires forall i :: 0 <= i < |ts| ==> SymbolOf(ts[i]) < n
    ensures Over(n, OccursAt(ts)) == |ts|
  {
    if ts == [] {
      OverZero(n, OccursAt(ts));
    } else {
      var x := SymbolOf(ts[0]);
      var one := (s: nat) => if s == x then 1 else 0;
      OccursTotal(ts[1..], n);
      OneUsed([], n, one, x);
      OverSum(n, OccursAt(ts), OccursAt(ts[1..]), one);
    }
  }

  lemma {:induction false} UsedBound(counts: seq<nat>, n: nat)
    requires n <= |counts|
    ensures |Used(counts, n)| <= n && |Used(counts, n)| <= Over(n, CountAt(counts))
    ensures (exists s :: 0 <= s < n && counts[s] > 0) ==> |Used(counts, n)| > 0
  {
    if n > 0 { UsedBound(counts, n - 1); }
  }

  /** The counts while the tokens rest are still to be counted. */
  ghost predicate Counting(counts: seq<nat>, all: seq<Token>, rest: seq<Token>)
  {
    |counts| == TABLE_SIZE && forall s :: 0 <= s < TABLE_SIZE ==> counts[s] + Occurs(rest, s) == Occurs(all, s)
  }

  lemma CountOne(counts: seq<nat>, all: seq<Token>, t: Token, rest: seq<Token>)
    requires Counting(counts, all, [t] + rest) && SymbolOf(t) < TABLE_SIZE
    ensures Counting(counts[SymbolOf(t) := counts[SymbolOf(t)] + 1], all, rest)
  {
    assert ([t] + rest)[1..] == rest;
  }

  lemma CountMany(counts: seq<nat>, all: seq<Token>, t: Token, n: nat, rest: seq<Token>)
    requires Counting(counts, all, Repeat(t, n) + rest) && SymbolOf(t) < TABLE_SIZE
    ensures Counting(counts[SymbolOf(t) := counts[SymbolOf(t)] + n], all, rest)
  {
    forall s | 0 <= s < TABLE_SIZE ensures Occurs(Repeat(t, n) + rest, s) == Occurs(rest, s) + if s == SymbolOf(t) then n else 0 {
      OccursConcat(Repeat(t, n), rest, s);
      OccursRepeat(t, n, s);
    }
  }

  lemma RowFirst(k: nat, i: nat, boundary: nat, rest: seq<Token>)
    requires boundary > 0 && k <= i && Block(k, boundary) != Block(i, boundary)
    ensures NextRow(k, boundary) <= i
    ensures ZeroTokens(k, i, boundary) + rest == [Plain(FILL)] + (ZeroTokens(NextRow(k, boundary), i, boundary) + rest)
  {
    RowAbove(k, i, boundary);
  }

  /** Lines 911-935: counting a run of zeros. */
  method CountZeros(counts: array<nat>, from: nat, i: nat, boundary: nat, ghost m: nat,
                    ghost all: seq<Token>, ghost rest: seq<Token>) returns (ok: bool)
    requires from <= i && boundary == Pow2(m)
    requires counts.Length == TABLE_SIZE && Counting(counts[..], all, ZeroTokens(from, i, boundary) + rest)
    modifies counts
    ensures ok && Counting(counts[..], all, rest)
  {
    hide Xor, Occurs, Counting, Repeat, Block, NextRow, Pow2;
    var k: nat := from;
    XorBlock(k, i, m);
    while Xor(k, i) >= boundary
      invariant k <= i && Counting(counts[..], all, ZeroTokens(k, i, boundary) + rest)
      invariant Xor(k, i) >= boundary <==> Block(k, boundary) != Block(i, boundary)
      decreases i - k
    {
      RowFirst(k, i, boundary, rest);
      CountOne(counts[..], all, Plain(FILL), ZeroTokens(NextRow(k, boundary), i, boundary) + rest);
      counts[FILL] := counts[FILL] + 1;
      k := NextRow(k, boundary);
      XorBlock(k, i, m);
      if k > i { return false; }
    }
    ok := true;
    k := i - k;
    if k > 0 {
      if k < ZERO_REPT_MIN_COUNT {
        CountMany(counts[..], all, Plain(0), k, rest);
        counts[0] := counts[0] + k;
      } else {
        CountOne(counts[..], all, Zeros(k - ZERO_REPT_MIN_COUNT), rest);
        counts[ZERO_REPT] := counts[ZERO_REPT] + 1;
      }
    } else {
      NoRepeat(rest);
    }
  }

  lemma NoRepeat(rest: seq<Token>)
    ensures Repeat(Plain(0), 0) + rest == rest
  {
  }

  /** Lines 855-880 and 985-1008: the symbol for a non-zero length. */
  method DescribeLength(masks: seq<nat>, i: nat, prev: nat, boundary: nat) returns (symbol: nat)
    requires i < |masks| && boundary > 0
    ensures symbol == LengthSymbol(MaskLengths(masks), i, prev, boundary)
  {
    var k := LengthOf(masks[i]);
    symbol := k;
    if k == prev {
      symbol := PREV;
    } else if i >= boundary {
      k := LengthOf(masks[i - boundary]);
      if symbol == k {
        symbol := ROW_0;
      } else if symbol == k + 1 {
        symbol := ROW_1;
      }
    }
  }

  /** Lines 886-890 and 1014-1018. */
  method SkipZeros(masks: seq<nat>, from: nat) returns (i: nat)
    requires from < |masks| && LengthOf(masks[from]) == 0
    ensures i == ZeroEnd(MaskLengths(masks), from + 1)
  {
    i := from + 1;
    while i < |masks| && LengthOf(masks[i]) == 0
      invariant from < i <= |masks| && ZeroEnd(MaskLengths(masks), i) == ZeroEnd(MaskLengths(masks), from + 1)
    {
      i := i + 1;
    }
  }

  lemma TokensOfLength(lengths: seq<nat>, i: nat, prev: nat, boundary: nat)
    requires i < |lengths| && boundary > 0 && lengths[i] != 0
    ensures Tokens(lengths, i, prev, boundary)
            == [Plain(LengthSymbol(lengths, i, prev, boundary))] + Tokens(lengths, i + 1, lengths[i], boundary)
  {
  }

  lemma TokensOfZeros(lengths: seq<nat>, i: nat, prev: nat, boundary: nat)
    requires i < |lengths| && boundary > 0 && lengths[i] == 0
    ensures var j := ZeroEnd(lengths, i + 1);
      Tokens(lengths, i, prev, boundary) == ZeroTokens(i, j, boundary) + Tokens(lengths, j, prev, boundary)
  {
  }

  lemma MaskLengthAt(masks: seq<nat>, i: nat)
    requires i < |masks|
    ensures MaskLengths(masks)[i] == LengthOf(masks[i])
  {
  }

  lemma LengthSymbolBound(lengths: seq<nat>, i: nat, prev: nat, boundary: nat)
    requires i < |lengths| && boundary > 0 && lengths[i] < FILL
    ensures LengthSymbol(lengths, i, prev, boundary) < TABLE_SIZE
  {
  }

  ghost predicate LengthsInRange(masks: seq<nat>)
  {
    forall s :: 0 <= s < |masks| ==> LengthOf(masks[s]) <= MAX_CODEWORD_LENGTH
  }

  lemma InRange(masks: seq<nat>, i: nat)
    requires LengthsInRange(masks) && i < |masks|
    ensures LengthOf(masks[i]) <= MAX_CODEWORD_LENGTH < FILL
  {
  }

  lemma CountingStart(counts: seq<nat>, all: seq<Token>)
    requires |counts| == TABLE_SIZE && forall s :: 0 <= s < TABLE_SIZE ==> counts[s] == 0
    ensures Counting(counts, all, all)
  {
  }

  lemma CountingEnd(counts: seq<nat>, all: seq<Token>, none: seq<Token>)
    requires Counting(counts, all, none) && none == []
    ensures |counts| == TABLE_SIZE && forall s :: 0 <= s < TABLE_SIZE ==> counts[s] == Occurs(all, s)
  {
  }

  lemma NoTokens(lengths: seq<nat>, prev: nat, boundary: nat)
    requires boundary > 0
    ensures Tokens(lengths, |lengths|, prev, boundary) == []
  {
  }

  /** Lines 846-937: how often each symbol of the description occurs. */
  method CountTable(masks: seq<nat>, boundary: nat, ghost m: nat) returns (ok: bool, counts: array<nat>)
    requires boundary == Pow2(m) && LengthsInRange(masks)
    ensures ok && fresh(counts) && counts.Length == TABLE_SIZE
    ensures forall s :: 0 <= s < TABLE_SIZE ==> counts[s] == Occurs(Tokens(MaskLengths(masks), 0, 8, boundary), s)
  {
    hide Tokens, Occurs, Counting, ZeroTokens, LengthSymbol, MaskLengths, LengthOf, Pow2, LengthsInRange;
    counts := new nat[TABLE_SIZE](_ => 0);
    ghost var lengths := MaskLengths(masks);
    ghost var all := Tokens(lengths, 0, 8, boundary);
    CountingStart(counts[..], all);
    ok := true;
    var prev: nat, i: nat := 8, 0;
    while i < |masks|
      invariant i <= |masks| && Counting(counts[..], all, Tokens(lengths, i, prev, boundary))
      decreases |masks| - i
    {
      InRange(masks, i);
      MaskLengthAt(masks, i);
      if LengthOf(masks[i]) > MAX_CODEWORD_LENGTH { ok := false; return; }
      if LengthOf(masks[i]) != 0 {
        TokensOfLength(lengths, i, prev, boundary);
        LengthSymbolBound(lengths, i, prev, boundary);
        var symbol := DescribeLength(masks, i, prev, boundary);
        CountOne(counts[..], all, Plain(symbol), Tokens(lengths, i + 1, lengths[i], boundary));
        counts[symbol] := counts[symbol] + 1;
        prev := LengthOf(masks[i]);
        i := i + 1;
      } else {
        TokensOfZeros(lengths, i, prev, boundary);
        var k := i;
        i := SkipZeros(masks, k);
        ok := CountZeros(counts, k, i, boundary, m, all, Tokens(lengths, i, prev, boundary));
        if !ok { return; }
      }
    }
    NoTokens(lengths, prev, boundary);
    CountingEnd(counts[..], all, Tokens(lengths, |masks|, prev, boundary));
  }

  /** The counts are a valid input for the tree builder, and some symbol is used. */
  lemma TableCounts(counts: seq<nat>, lengths: seq<nat>, boundary: nat)
    requires boundary > 0 && lengths != [] && forall s :: 0 <= s < |lengths| ==> lengths[s] < FILL
    requires |counts| == TABLE_SIZE && forall s :: 0 <= s < TABLE_SIZE ==> counts[s] == Occurs(Tokens(lengths, 0, 8, boundary), s)
    ensures CountSum(counts) <= |lengths| && 1 <= |Used(counts, |counts|)| <= |lengths| && |Used(counts, |counts|)| <= TABLE_SIZE
    ensures forall n :: 0 <= n < |Tokens(lengths, 0, 8, boundary)| ==>
              var s := SymbolOf(Tokens(lengths, 0, 8, boundary)[n]); s < TABLE_SIZE && counts[s] > 0
  {
    hide Tokens, Occurs;
    var ts := Tokens(lengths, 0, 8, boundary);
    TokensCount(lengths, 0, 8, boundary);
    TokensSymbols(lengths, 0, 8, boundary);
    OccursTotal(ts, TABLE_SIZE);
    OverSame(TABLE_SIZE, OccursAt(ts), CountAt(counts));
    UsedBound(counts, TABLE_SIZE);
    forall n | 0 <= n < |ts| ensures counts[SymbolOf(ts[n])] > 0 { OccursIn(ts, n); }
    assert counts[SymbolOf(ts[0])] > 0;
  }

  // ------------------------------------------------------------------ the small table

  /** The lengths of the description's own code: 0 repeats the last one, 1 is followed by three bits. */
  function SmallBits(lengths: seq<nat>, i: nat, prev: nat): Bits
    requires i <= |lengths|
    decreases |lengths| - i
  {
    if i == |lengths| then []
    else (if lengths[i] == prev then Lsb(0, 1)
          else Lsb(1, 1) + Lsb(if lengths[i] > prev then lengths[i] - 1 else lengths[i], 3))
         + SmallBits(lengths, i + 1, lengths[i])
  }

  lemma {:induction false} SmallBitsSize(lengths: seq<nat>, i: nat, prev: nat)
    requires i <= |lengths|
    ensures |SmallBits(lengths, i, prev)| <= 4 * (|lengths| - i)
    decreases |lengths| - i
  {
    if i < |lengths| { SmallBitsSize(lengths, i + 1, lengths[i]); }
  }

  lemma SmallNext(lengths: seq<nat>, i: nat, prev: nat, head: Bits)
    requires i < |lengths|
    ensures head + SmallBits(lengths, i, prev)
            == (if lengths[i] == prev then head + Lsb(0, 1)
                else (head + Lsb(1, 1)) + Lsb(if lengths[i] > prev then lengths[i] - 1 else lengths[i], 3))
               + SmallBits(lengths, i + 1, lengths[i])
  {
    hide Lsb;
  }

  lemma SmallPowers()
    ensures Pow2(1) == 2 && Pow2(2) == 4 && Pow2(3) == 8
  {
  }

  /** Lines 955-979. */
  method WriteSmallTable(writer: BitWriter, masks: seq<nat>)
    requires writer.Valid() && forall s :: 0 <= s < |masks| ==> LengthOf(masks[s]) <= SMALL_MAX
    modifies writer
    ensures writer.Valid()
    ensures writer.Emitted() == old(writer.Emitted()) + SmallBits(MaskLengths(masks), 0, 4)
  {
    hide SmallBits, MaskLengths, LengthOf, Lsb, WordBits, Pow2;
    ghost var lengths := MaskLengths(masks);
    ghost var goal := writer.Emitted() + SmallBits(lengths, 0, 4);
    SmallPowers();
    var prev: nat, i: nat := 4, 0;
    while i < |masks|
      invariant i <= |masks| && writer.Valid() && prev <= SMALL_MAX
      invariant writer.Emitted() + SmallBits(lengths, i, prev) == goal
    {
      var k := LengthOf(masks[i]);
      MaskLengthAt(masks, i);
      SmallNext(lengths, i, prev, writer.Emitted());
      if k == prev {
        writer.Write(0, 1);
      } else {
        writer.Write(1, 1);
        if k > prev { writer.Write(k - 1, 3); } else { writer.Write(k, 3); }
        prev := k;
      }
      i := i + 1;
    }
    SmallEnd(lengths, prev, writer.Emitted());
  }

  lemma SmallEnd(lengths: seq<nat>, prev: nat, head: Bits)
    ensures head + SmallBits(lengths, |lengths|, prev) == head
  {
    assert SmallBits(lengths, |lengths|, prev) == [];
  }

  // ------------------------------------------------------------------ the description

  ghost predicate AllCoded(masks: seq<nat>, ts: seq<Token>)
  {
    forall n :: 0 <= n < |ts| ==> Coded?(masks, SymbolOf(ts[n]))
  }

  function TokenBits(masks: seq<nat>, t: Token): Bits
    requires SymbolOf(t) < |masks|
  {
    SymbolBits(masks[SymbolOf(t)]) + if t.Zeros? then RunBits(t.extra) else []
  }

  function TokensBits(masks: seq<nat>, ts: seq<Token>): Bits
    requires forall n :: 0 <= n < |ts| ==> SymbolOf(ts[n]) < |masks|
  {
    if ts == [] then [] else TokenBits(masks, ts[0]) + TokensBits(masks, ts[1..])
  }

  /** rest remains to be written, and then goal is reached. */
  ghost predicate Writing(head: Bits, masks: seq<nat>, rest: seq<Token>, goal: Bits)
  {
    AllCoded(masks, rest) && head + TokensBits(masks, rest) == goal
  }

  lemma WriteOne(head: Bits, masks: seq<nat>, t: Token, rest: seq<Token>, goal: Bits)
    requires Writing(head, masks, [t] + rest, goal)
    ensures Coded?(masks, SymbolOf(t)) && Writing(head + TokenBits(masks, t), masks, rest, goal)
  {
    hide TokenBits;
    assert ([t] + rest)[0] == t && ([t] + rest)[1..] == rest;
    assert Coded?(masks, SymbolOf(([t] + rest)[0]));
    forall n | 0 <= n < |rest| ensures Coded?(masks, SymbolOf(rest[n])) { assert ([t] + rest)[n + 1] == rest[n]; }
    BitsAssoc(head, TokenBits(masks, t), TokensBits(masks, rest));
  }

  lemma PlainBits(masks: seq<nat>, symbol: nat)
    requires symbol < |masks|
    ensures TokenBits(masks, Plain(symbol)) == SymbolBits(masks[symbol])
  {
  }

  method WritePlain(writer: BitWriter, masks: seq<nat>, symbol: nat, ghost rest: seq<Token>, ghost goal: Bits)
    requires writer.Valid() && Codebook(masks, SMALL_MAX) && Writing(writer.Emitted(), masks, [Plain(symbol)] + rest, goal)
    modifies writer
    ensures writer.Valid() && Writing(writer.Emitted(), masks, rest, goal)
  {
    hide Codebook, Writing, SymbolBits, TokenBits, LengthOf, ValueOf, WordBits, Lsb;
    WriteOne(writer.Emitted(), masks, Plain(symbol), rest, goal);
    PlainBits(masks, symbol);
    var k := SymbolWord(masks, SMALL_MAX, symbol);
    WriteSymbol(writer, masks[symbol]);
  }

  lemma GroupNext(extra: nat, head: Bits)
    ensures head + GroupBits(extra)
            == if extra < 7 then head + Lsb(extra, 3) else (head + Lsb(7, 3)) + GroupBits(extra - 7)
  {
    hide Lsb;
  }

  /** Lines 1042-1059. */
  method WriteRun(writer: BitWriter, extra: nat)
    requires writer.Valid()
    modifies writer
    ensures writer.Valid() && writer.Emitted() == old(writer.Emitted()) + RunBits(extra)
  {
    hide GroupBits, Lsb, WordBits, Pow2;
    SmallPowers();
    ghost var goal := writer.Emitted() + RunBits(extra);
    var k := extra;
    if k < 3 {
      writer.Write(k, 2);
    } else {
      BitsAssoc(writer.Emitted(), Lsb(3, 2), GroupBits(extra - 3));
      writer.Write(3, 2);
      k := k - 3;
      GroupNext(k, writer.Emitted());
      while k >= 7
        invariant writer.Valid() && k >= 0
        invariant goal == if k < 7 then writer.Emitted() + Lsb(k, 3) else (writer.Emitted() + Lsb(7, 3)) + GroupBits(k - 7)
      {
        writer.Write(7, 3);
        k := k - 7;
        GroupNext(k, writer.Emitted());
      }
      writer.Write(k, 3);
    }
  }

  /** Lines 1020-1061: writing a run of zeros. */
  method WriteZeros(writer: BitWriter, masks: seq<nat>, from: nat, i: nat, boundary: nat, ghost m: nat,
                    ghost rest: seq<Token>, ghost goal: Bits) returns (ok: bool)
    requires from <= i && boundary == Pow2(m) && writer.Valid() && Codebook(masks, SMALL_MAX)
    requires Writing(writer.Emitted(), masks, ZeroTokens(from, i, boundary) + rest, goal)
    modifies writer
    ensures ok && writer.Valid() && Writing(writer.Emitted(), masks, rest, goal)
  {
    hide Xor, Writing, Codebook, Repeat, Block, NextRow, Pow2, WordBits, Lsb, RunBits, SymbolBits, LengthOf, ValueOf;
    var k: nat := from;
    XorBlock(k, i, m);
    while Xor(k, i) >= boundary
      invariant k <= i && writer.Valid() && Writing(writer.Emitted(), masks, ZeroTokens(k, i, boundary) + rest, goal)
      invariant Xor(k, i) >= boundary <==> Block(k, boundary) != Block(i, boundary)
      decreases i - k
    {
      RowFirst(k, i, boundary, rest);
      WritePlain(writer, masks, FILL, ZeroTokens(NextRow(k, boundary), i, boundary) + rest, goal);
      k := NextRow(k, boundary);
      XorBlock(k, i, m);
      if k > i { return false; }
    }
    ok := true;
    k := i - k;
    if k > 0 {
      if k < ZERO_REPT_MIN_COUNT {
        RepeatNext(k, rest);
        while k != 0
          invariant writer.Valid() && Writing(writer.Emitted(), masks, Repeat(Plain(0), k) + rest, goal)
          invariant k > 0 ==> Repeat(Plain(0), k) + rest == [Plain(0)] + (Repeat(Plain(0), k - 1) + rest)
        {
          WritePlain(writer, masks, 0, Repeat(Plain(0), k - 1) + rest, goal);
          k := k - 1;
          RepeatNext(k, rest);
        }
        NoRepeat(rest);
      } else {
        WriteLongRun(writer, masks, k - ZERO_REPT_MIN_COUNT, rest, goal);
      }
    } else {
      NoRepeat(rest);
    }
  }

  lemma RepeatNext(k: nat, rest: seq<Token>)
    ensures k > 0 ==> Repeat(Plain(0), k) + rest == [Plain(0)] + (Repeat(Plain(0), k - 1) + rest)
  {
  }

  method WriteLongRun(writer: BitWriter, masks: seq<nat>, extra: nat, ghost rest: seq<Token>, ghost goal: Bits)
    requires writer.Valid() && Codebook(masks, SMALL_MAX)
    requires Writing(writer.Emitted(), masks, [Zeros(extra)] + rest, goal)
    modifies writer
    ensures writer.Valid() && Writing(writer.Emitted(), masks, rest, goal)
  {
    hide Codebook, Writing, SymbolBits, LengthOf, ValueOf, WordBits, Lsb, RunBits;
    WriteOne(writer.Emitted(), masks, Zeros(extra), rest, goal);
    BitsAssoc(writer.Emitted(), SymbolBits(masks[ZERO_REPT]), RunBits(extra));
    var k := SymbolWord(masks, SMALL_MAX, ZERO_REPT);
    WriteSymbol(writer, masks[ZERO_REPT]);
    WriteRun(writer, extra);
  }

  // ------------------------------------------------------------------ Xpress9HuffmanEncodeTable

  /** small is a code for the description of lengths. */
  ghost predicate Describes(small: seq<nat>, lengths: seq<nat>, boundary: nat)
  {
    && boundary > 0 && |small| == TABLE_SIZE && Codebook(small, SMALL_MAX)
    && AllCoded(small, Tokens(lengths, 0, 8, boundary))
  }

  /** What is written for a table of lengths, given the code of the description. */
  function Description(small: seq<nat>, lengths: seq<nat>, boundary: nat): Bits
    requires Describes(small, lengths, boundary)
  {
    SmallBits(MaskLengths(small), 0, 4) + TokensBits(small, Tokens(lengths, 0, 8, boundary))
  }

  /** small is the code that the tree builder makes for the symbols of the description. */
  ghost predicate SmallMade(small: seq<nat>, lengths: seq<nat>, boundary: nat)
    requires boundary > 0
  {
    exists counts, cost :: Counted(counts, lengths, boundary) && Made(counts, SMALL_MAX, small, cost)
  }

  ghost predicate Counted(counts: seq<nat>, lengths: seq<nat>, boundary: nat)
    requires boundary > 0
  {
    |counts| == TABLE_SIZE && forall s :: 0 <= s < TABLE_SIZE ==> counts[s] == Occurs(Tokens(lengths, 0, 8, boundary), s)
  }

  lemma SmallIsMade(counts: seq<nat>, small: seq<nat>, cost: nat, lengths: seq<nat>, boundary: nat)
    requires boundary > 0 && |counts| == TABLE_SIZE && Made(counts, SMALL_MAX, small, cost)
    requires forall s :: 0 <= s < TABLE_SIZE ==> counts[s] == Occurs(Tokens(lengths, 0, 8, boundary), s)
    ensures SmallMade(small, lengths, boundary)
  {
    hide Made, Tokens, Occurs;
    assert Counted(counts, lengths, boundary);
  }

  lemma WritingStart(head: Bits, masks: seq<nat>, ts: seq<Token>)
    requires AllCoded(masks, ts)
    ensures Writing(head, masks, ts, head + TokensBits(masks, ts))
  {
  }

  lemma WritingEnd(head: Bits, masks: seq<nat>, none: seq<Token>, goal: Bits)
    requires Writing(head, masks, none, goal) && none == []
    ensures head == goal
  {
    assert TokensBits(masks, []) == [];
  }

  /** Lines 981-1064. */
  method WriteDescription(writer: BitWriter, small: seq<nat>, masks: seq<nat>, boundary: nat, ghost m: nat)
    returns (ok: bool)
    requires boundary == Pow2(m) && writer.Valid() && LengthsInRange(masks)
    requires Codebook(small, SMALL_MAX) && AllCoded(small, Tokens(MaskLengths(masks), 0, 8, boundary))
    modifies writer
    ensures ok && writer.Valid()
    ensures writer.Emitted() == old(writer.Emitted()) + TokensBits(small, Tokens(MaskLengths(masks), 0, 8, boundary))
  {
    hide Tokens, Writing, ZeroTokens, LengthSymbol, MaskLengths, LengthOf, Pow2, LengthsInRange, Codebook, WordBits, Lsb;
    ghost var lengths := MaskLengths(masks);
    ghost var all := Tokens(lengths, 0, 8, boundary);
    ghost var goal := writer.Emitted() + TokensBits(small, all);
    WritingStart(writer.Emitted(), small, all);
    ok := true;
    var prev: nat, i: nat := 8, 0;
    while i < |masks|
      invariant i <= |masks| && writer.Valid()
      invariant Writing(writer.Emitted(), small, Tokens(lengths, i, prev, boundary), goal)
      decreases |masks| - i
    {
      InRange(masks, i);
      MaskLengthAt(masks, i);
      if LengthOf(masks[i]) > MAX_CODEWORD_LENGTH { ok := false; return; }
      if LengthOf(masks[i]) != 0 {
        TokensOfLength(lengths, i, prev, boundary);
        var symbol := DescribeLength(masks, i, prev, boundary);
        WritePlain(writer, small, symbol, Tokens(lengths, i + 1, lengths[i], boundary), goal);
        prev := LengthOf(masks[i]);
        i := i + 1;
      } else {
        TokensOfZeros(lengths, i, prev, boundary);
        var k := i;
        i := SkipZeros(masks, k);
        ok := WriteZeros(writer, small, k, i, boundary, m, Tokens(lengths, i, prev, boundary), goal);
        if !ok { return; }
      }
    }
    NoTokens(lengths, prev, boundary);
    WritingEnd(writer.Emitted(), small, Tokens(lengths, |masks|, prev, boundary), goal);
  }

  lemma RangeOfLengths(masks: seq<nat>)
    requires LengthsInRange(masks)
    ensures forall s :: 0 <= s < |MaskLengths(masks)| ==> MaskLengths(masks)[s] < FILL
  {
    forall s | 0 <= s < |masks| ensures MaskLengths(masks)[s] < FILL { MaskLengthAt(masks, s); }
  }

  /** The small code covers the description. */
  lemma SmallCode(counts: seq<nat>, small: seq<nat>, cost: nat, ts: seq<Token>)
    requires CodeFor(counts, SMALL_MAX, small, cost) && |counts| == TABLE_SIZE
    requires forall n :: 0 <= n < |ts| ==> var s := SymbolOf(ts[n]); s < TABLE_SIZE && counts[s] > 0
    ensures Codebook(small, SMALL_MAX) && AllCoded(small, ts) && |small| == TABLE_SIZE
    ensures forall s :: 0 <= s < |small| ==> LengthOf(small[s]) <= SMALL_MAX
  {
    hide Codebook, LengthOf;
    CodebookLimit(small, SMALL_MAX);
  }

  lemma CodebookLimit(masks: seq<nat>, max: nat)
    requires Codebook(masks, max)
    ensures forall s :: 0 <= s < |masks| ==> LengthOf(masks[s]) <= max
  {
  }

  lemma TableLimits(n: nat)
    requires n <= TABLE_SIZE
    ensures n <= Pow2(SMALL_MAX) && 1 <= SMALL_MAX <= MAX_CODEWORD_LENGTH
  {
    Pow2Monotone(6, SMALL_MAX);
    Pow64(6);
  }

  lemma Pow64(n: nat)
    requires n == 6
    ensures Pow2(n) == 64
  {
    assert Pow2(6) == 64;
  }

  lemma DescribesIntro(small: seq<nat>, lengths: seq<nat>, boundary: nat, head: Bits)
    requires boundary > 0 && |small| == TABLE_SIZE && Codebook(small, SMALL_MAX)
    requires AllCoded(small, Tokens(lengths, 0, 8, boundary))
    ensures Describes(small, lengths, boundary)
    ensures (head + SmallBits(MaskLengths(small), 0, 4)) + TokensBits(small, Tokens(lengths, 0, 8, boundary))
            == head + Description(small, lengths, boundary)
  {
    hide SmallBits, Tokens, TokensBits, Codebook, MaskLengths;
    BitsAssoc(head, SmallBits(MaskLengths(small), 0, 4), TokensBits(small, Tokens(lengths, 0, 8, boundary)));
  }

  /** No failure branch is taken for lengths in range, also when the masks are those of another call. */
  method Xpress9HuffmanEncodeTable(writer: BitWriter, masks: seq<nat>, boundary: nat, ghost m: nat)
    returns (ok: bool, ghost small: seq<nat>)
    requires writer.Valid() && boundary == Pow2(m) && LengthsInRange(masks)
    requires 0 < |masks| < 0x1_0000_0000
    modifies writer
    ensures ok && writer.Valid() && Describes(small, MaskLengths(masks), boundary)
    ensures boundary > 0 && SmallMade(small, MaskLengths(masks), boundary)
    ensures writer.Emitted() == old(writer.Emitted()) + Description(small, MaskLengths(masks), boundary)
  {
    hide *;
    ghost var lengths := MaskLengths(masks);
    ghost var ts := Tokens(lengths, 0, 8, boundary);
    RangeOfLengths(masks);
    var counts;
    ok, counts := CountTable(masks, boundary, m);
    if !ok { return; }
    TableCounts(counts[..], lengths, boundary);
    TableLimits(|Used(counts[..], TABLE_SIZE)|);
    var table := new nat[TABLE_SIZE];
    var n, cost := Xpress9HuffmanCreateTree(counts[..], SMALL_MAX, table, 0);
    if n == 0 || n > |masks| { ok := false; return; }
    small := table[..];
    IsMade(counts[..], SMALL_MAX, small, cost);
    SmallIsMade(counts[..], small, cost, lengths, boundary);
    SmallCode(counts[..], small, cost, ts);
    ghost var head := writer.Emitted();
    WriteSmallTable(writer, table[..]);
    ok := WriteDescription(writer, table[..], masks, boundary, m);
    DescribesIntro(small, lengths, boundary, head);
  }
}
