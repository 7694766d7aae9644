/** The compressed formats in plain bytes, bits and numbers: what every version of reader and writer has to agree on
    (_xpress/xencode.c:180-215, 329-378, 470-473; _xpress9/Xpress9Internal.h:604-610; _xpress9/Xpress9EncHuffman.c:624-665,
    848-1065; _xpress9/Xpress9EncLz77.c:1393-1410, 1471-1483). */
module Formats {
  import opened Powers
  import opened BitStrings
  import opened CodeLists
  import opened TableTokens
  import opened EncodeTable
  import B = BlockState
  import D = XpressDecode
  import T = XpressTokens
  import R = XpressRoundTrip

  // ------------------------------------------------------------------ plain Xpress

  function Ones(n: nat): (s: Bits)
    ensures |s| == n
  {
    seq(n, _ => true)
  }

  lemma {:induction false} OnesBehind(p: Bits, n: nat)
    ensures FromMsb(p + Ones(n)) == (FromMsb(p) + 1) * Pow2(n) - 1
    decreases n
  {
    if n == 0 {
      assert p + Ones(0) == p;
    } else {
      OnesBehind(p, n - 1);
      assert (p + Ones(n))[..|p| + n - 1] == p + Ones(n - 1);
      assert (FromMsb(p) + 1) * Pow2(n) == 2 * ((FromMsb(p) + 1) * Pow2(n - 1)) by { Doubled(FromMsb(p) + 1, Pow2(n - 1)); }
    }
  }

  lemma Doubled(a: nat, b: nat)
    ensures a * (2 * b) == 2 * (a * b)
  {
  }

  /** The open word of a finished stream: its flags first, then ones. */
  lemma {:induction false} FinishedWord(w: T.State)
    requires T.Sound(w)
    ensures R.Finished(w) == T.Patched(w.bytes, w.tag, T.Bytes32(FromMsb(w.pending + Ones(32 - |w.pending|))))
    decreases 32 - |w.pending|
  {
    hide FromMsb, T.Bytes32;
    T.TagIsSound(w, true);
    var v := T.TagWrite(w, true);
    assert w.pending + [true] + Ones(31 - |w.pending|) == w.pending + Ones(32 - |w.pending|);
    if |w.pending| == 31 {
      assert w.pending + [true] == w.pending + Ones(1);
      assert R.Finished(w) == v.bytes[..|w.bytes|];
    } else {
      FinishedWord(v);
    }
  }

  lemma Behind(tokens: seq<T.Token>, t: T.Token, w: T.State)
    requires T.Valid(tokens) && R.AfterTokens(tokens) == w && T.ValidToken(t, T.Size(tokens))
    ensures T.Sound(w) && T.Writable(t) && T.Valid(tokens + [t]) && R.AfterTokens(tokens + [t]) == T.Written(w, t)
    ensures T.Size(tokens + [t]) == T.Size(tokens) + if t.Literal? then 1 else t.length
  {
    assert (tokens + [t])[..|tokens|] == tokens;
  }

  /** One more copy, while the open word has room. */
  lemma CopyPut(w: T.State, offset: nat, length: nat, bytes: seq<nat>, quad: int)
    requires T.Sound(w) && |w.pending| < 31 && T.Writable(T.Match(offset, length))
    requires T.PutMatch(w, offset, length) == T.State(bytes, w.tag, w.pending, quad)
    ensures T.Written(w, T.Match(offset, length)) == T.State(bytes, w.tag, w.pending + [true], quad)
  {
    hide T.PutMatch;
    T.PutIsSound(w, T.Match(offset, length));
  }

  /** A literal and copies of 9, 10, 24, 25, 279 and 280 bytes: every form of a length at both of its ends, and both halves
      of the bytes that two copies share. */
  function Sample(): seq<T.Token>
  {
    [T.Literal(97), T.Match(1, 9), T.Match(1, 10), T.Match(1, 24), T.Match(1, 25), T.Match(1, 279), T.Match(1, 280)]
  }

  /** The first n tokens of the sample, and the state of the writer after them. */
  ghost predicate After(n: nat, bytes: seq<nat>, quad: int)
  {
    && 0 < n <= 7 && T.Valid(Sample()[..n]) && T.Size(Sample()[..n]) == [0, 1, 10, 20, 44, 69, 348, 628][n]
    && R.AfterTokens(Sample()[..n]) == T.State(bytes, 0, [false] + Ones(n - 1), quad)
  }

  lemma AnyFlags(was: seq<nat>, half: int, length: nat, pending: Bits)
    requires half < |was| && length >= 3
    ensures T.PutMatch(T.State(was, 0, pending, half), 1, length)
            == T.PutMatch(T.State(was, 0, [], half), 1, length).(pending := pending)
    ensures T.PutMatch(T.State(was, 0, [], half), 1, length).tag == 0
  {
    hide T.Bytes16, T.Tail, T.Half;
  }

  lemma CopyAfter(n: nat, was: seq<nat>, half: int, length: nat, bytes: seq<nat>, quad: int)
    requires After(n, was, half) && n < 7 && Sample()[n] == T.Match(1, length) && half < |was|
    requires var v := T.PutMatch(T.State(was, 0, [], half), 1, length); v.bytes == bytes && v.quad == quad
    ensures After(n + 1, bytes, quad)
  {
    hide T.PutMatch, T.Valid, T.Size, R.AfterTokens, T.Written;
    var pending := [false] + Ones(n - 1);
    assert pending + [true] == [false] + Ones(n);
    var w := T.State(was, 0, pending, half);
    assert Sample()[..n] + [Sample()[n]] == Sample()[..n + 1];
    Behind(Sample()[..n], Sample()[n], w);
    AnyFlags(was, half, length, pending);
    CopyPut(w, 1, length, bytes, quad);
  }

  lemma SampleStart()
    ensures After(1, [0, 0, 0, 0, 97], -1)
  {
    assert Sample()[..0] == [];
    assert T.Valid([]) && T.Size([]) == 0 && R.AfterTokens([]) == T.Start();
    assert [false] + Ones(0) == [false];
    hide T.Valid, T.Size, R.AfterTokens;
    Behind([], T.Literal(97), T.Start());
    assert [] + [T.Literal(97)] == Sample()[..1];
  }

  lemma FirstCopies()
    ensures After(4, [0, 0, 0, 0, 97, 6, 0, 7, 0, 0xE0, 7, 0], -1)
  {
    hide After;
    SampleStart();
    var a, b := [0, 0, 0, 0, 97], [0, 0, 0, 0, 97, 6, 0];
    assert T.PutMatch(T.State(a, 0, [], -1), 1, 9).bytes == b;
    CopyAfter(1, a, -1, 9, b, -1);
    var c := [0, 0, 0, 0, 97, 6, 0, 7, 0, 0];
    assert T.PutMatch(T.State(b, 0, [], -1), 1, 10).bytes == c;
    CopyAfter(2, b, -1, 10, c, 9);
    assert T.PutMatch(T.State(c, 0, [], 9), 1, 24).bytes == [0, 0, 0, 0, 97, 6, 0, 7, 0, 0xE0, 7, 0];
    CopyAfter(3, c, 9, 24, [0, 0, 0, 0, 97, 6, 0, 7, 0, 0xE0, 7, 0], -1);
  }

  lemma LastCopies()
    ensures After(7, [0, 0, 0, 0, 97, 6, 0, 7, 0, 0xE0, 7, 0, 7, 0, 0xFF, 0, 7, 0, 254, 7, 0, 15, 255, 0x15, 0x01], 21)
  {
    hide After;
    FirstCopies();
    var d := [0, 0, 0, 0, 97, 6, 0, 7, 0, 0xE0, 7, 0];
    FreshHalf(d, 25);
    CopyAfter(4, d, -1, 25, d + [7, 0, 15, 0], 14);
    SharedHalf(d + [7, 0, 15, 0], 14, 279);
    var e := (d + [7, 0, 15, 0] + [7, 0])[14 := 15 + 16 * 15] + [254];
    CopyAfter(5, d + [7, 0, 15, 0], 14, 279, e, -1);
    FreshHalf(e, 280);
    CopyAfter(6, e, -1, 280, e + [7, 0, 15, 255, 0x15, 0x01], 21);
    assert e + [7, 0, 15, 255, 0x15, 0x01]
        == [0, 0, 0, 0, 97, 6, 0, 7, 0, 0xE0, 7, 0, 7, 0, 0xFF, 0, 7, 0, 254, 7, 0, 15, 255, 0x15, 0x01];
  }

  /** The two ways to write four bits of a long length. */
  lemma FreshHalf(was: seq<nat>, length: nat)
    requires length == 25 || length == 280
    ensures var v := T.PutMatch(T.State(was, 0, [], -1), 1, length);
      v.bytes == was + (if length == 25 then [7, 0, 15, 0] else [7, 0, 15, 255, 0x15, 0x01]) && v.quad == |was| + 2
  {
  }

  lemma SharedHalf(was: seq<nat>, half: nat, length: nat)
    requires half < |was| && length == 279
    ensures var v := T.PutMatch(T.State(was, 0, [], half), 1, length);
      v.bytes == (was + [7, 0])[half := was[half] + 16 * 15] + [254] && v.quad == -1
  {
  }

  /** The flags of the sample. */
  lemma SampleFlags()
    ensures T.Bytes32(FromMsb([false] + Ones(6) + Ones(25))) == [255, 255, 255, 127]
  {
    OnesBehind([false], 31);
    assert [false] + Ones(6) + Ones(25) == [false] + Ones(31);
    PowerOf31(31);
    assert FromMsb([false]) == 0;
  }

  lemma PowerOf31(n: nat)
    requires n == 31
    ensures Pow2(n) == 0x8000_0000
  {
    assert Pow2(8) == 0x100 && Pow2(7) == 0x80;
    Pow2Add(8, 8);
    Pow2Add(16, 8);
    Pow2Add(24, 7);
  }

  /** The stream of the sample, byte by byte: its flags are a zero and thirty-one ones, low byte first. */
  lemma SampleStream()
    ensures T.Valid(Sample())
    ensures R.Finished(R.AfterTokens(Sample()))
            == [255, 255, 255, 127, 97, 6, 0, 7, 0, 0xE0, 7, 0, 7, 0, 0xFF, 0, 7, 0, 254, 7, 0, 15, 255, 0x15, 0x01]
  {
    hide R.AfterTokens, R.Finished, FromMsb, T.Valid, T.Bytes32, T.Size;
    LastCopies();
    assert Sample()[..7] == Sample();
    FinishedWord(R.AfterTokens(Sample()));
    SampleFlags();
  }

  // ------------------------------------------------------------------ Xpress9

  /** Sixteen lengths in rows of eight. */
  function SampleLengths(): seq<nat> { [1, 2, 0, 0, 0, 0, 0, 3, 1, 3, 3, 0, 0, 0, 0, 0] }

  lemma ZerosOf(lengths: seq<nat>, i: nat, j: nat)
    requires i <= j <= |lengths| && (forall m :: i <= m < j ==> lengths[m] == 0) && (j < |lengths| ==> lengths[j] != 0)
    ensures ZeroEnd(lengths, i) == j
    decreases j - i
  {
    if i < j { ZerosOf(lengths, i + 1, j); }
  }

  lemma NextLength(lengths: seq<nat>, i: nat, prev: nat, symbol: nat, rest: seq<Token>)
    requires i < |lengths| && lengths[i] != 0 && LengthSymbol(lengths, i, prev, 8) == symbol
    requires Tokens(lengths, i + 1, lengths[i], 8) == rest
    ensures Tokens(lengths, i, prev, 8) == [Plain(symbol)] + rest
  {
  }

  lemma NextZeros(lengths: seq<nat>, i: nat, j: nat, prev: nat, t: Token, rest: seq<Token>)
    requires i < j <= |lengths| && (forall m :: i <= m < j ==> lengths[m] == 0) && (j < |lengths| ==> lengths[j] != 0)
    requires ZeroTokens(i, j, 8) == [t] && Tokens(lengths, j, prev, 8) == rest
    ensures Tokens(lengths, i, prev, 8) == [t] + rest
  {
    hide ZeroEnd, ZeroTokens;
    ZerosOf(lengths, i + 1, j);
  }

  lemma SampleZeros()
    ensures ZeroTokens(11, 16, 8) == [Plain(28)] && ZeroTokens(2, 7, 8) == [Zeros(0)]
  {
    assert ZeroTokens(16, 16, 8) == [];
  }

  lemma SecondRow(t: seq<nat>)
    requires |t| == 16 && t[1] == 2 && t[8] == 1 && t[0] == 1 && t[9] == 3 && t[10] == 3 && t[2] == 0
    requires forall m :: 11 <= m < 16 ==> t[m] == 0
    ensures Tokens(t, 8, 3, 8) == [Plain(31)] + ([Plain(32)] + ([Plain(30)] + ([Plain(28)] + [])))
  {
    assert Tokens(t, 16, 3, 8) == [];
    hide Tokens, ZeroTokens;
    SampleZeros();
    NextZeros(t, 11, 16, 3, Plain(28), []);
    NextLength(t, 10, 3, 30, [Plain(28)] + []);
    NextLength(t, 9, 1, 32, [Plain(30)] + ([Plain(28)] + []));
    NextLength(t, 8, 3, 31, [Plain(32)] + ([Plain(30)] + ([Plain(28)] + [])));
  }

  lemma FirstRow(t: seq<nat>, rest: seq<Token>)
    requires |t| == 16 && t[0] == 1 && t[1] == 2 && t[7] == 3 && Tokens(t, 8, 3, 8) == rest
    requires forall m :: 2 <= m < 7 ==> t[m] == 0
    ensures Tokens(t, 0, 8, 8) == [Plain(1)] + ([Plain(2)] + ([Zeros(0)] + ([Plain(3)] + rest)))
  {
    hide Tokens, ZeroTokens;
    SampleZeros();
    NextLength(t, 7, 2, 3, rest);
    NextZeros(t, 2, 7, 2, Zeros(0), [Plain(3)] + rest);
    NextLength(t, 1, 1, 2, [Zeros(0)] + ([Plain(3)] + rest));
    NextLength(t, 0, 8, 1, [Plain(2)] + ([Zeros(0)] + ([Plain(3)] + rest)));
  }

  /** The description of the sample: lengths 1 and 2, five zeros inside the row, a 3, the length above, one more than the
      length above, the last length again, and zeros to the end of the row. */
  lemma SampleTable()
    ensures Tokens(SampleLengths(), 0, 8, 8)
            == [Plain(1), Plain(2), Zeros(0), Plain(3), Plain(31), Plain(32), Plain(30), Plain(28)]
  {
    hide Tokens;
    SecondRow(SampleLengths());
    FirstRow(SampleLengths(), [Plain(31)] + ([Plain(32)] + ([Plain(30)] + ([Plain(28)] + []))));
  }

  lemma BitNext(v: nat, n: nat)
    requires n > 0
    ensures Lsb(v, n) == [v % 2 == 1] + Lsb(v / 2, n - 1) && Lsb(v, 0) == []
  {
  }

  lemma FewBits(v: nat)
    ensures Lsb(v, 1) == [v % 2 == 1] && Lsb(v, 2) == [v % 2 == 1, v / 2 % 2 == 1]
    ensures Lsb(v, 3) == [v % 2 == 1, v / 2 % 2 == 1, v / 2 / 2 % 2 == 1]
  {
    hide Lsb;
    BitNext(v / 2 / 2, 1);
    BitNext(v / 2, 2);
    BitNext(v, 3);
    BitNext(v / 2, 1);
    BitNext(v, 2);
    BitNext(v, 1);
  }

  /** The code of the description: a repeated length is one zero bit, any other a one and three bits in which the repeated
      length is skipped. */
  lemma SmallEntry(lengths: seq<nat>, i: nat, prev: nat, code: nat)
    requires i < |lengths| && code == if lengths[i] > prev then lengths[i] - 1 else lengths[i]
    ensures SmallBits(lengths, i, prev)
            == (if lengths[i] == prev then [false] else [true, code % 2 == 1, code / 2 % 2 == 1, code / 2 / 2 % 2 == 1])
               + SmallBits(lengths, i + 1, lengths[i])
  {
    hide Lsb;
    FewBits(0);
    FewBits(1);
    FewBits(code);
  }

  /** What follows the symbol of a zero run: two bits for 5 to 7 zeros; two ones, three for each seven more, and three bits
      for the rest. */
  lemma ZeroRun(n: nat, r: nat)
    requires r < 7
    ensures r < 3 ==> RunBits(r) == [r % 2 == 1, r / 2 % 2 == 1]
    ensures RunBits(3 + 7 * n + r) == Ones(2) + Ones(3 * n) + [r % 2 == 1, r / 2 % 2 == 1, r / 2 / 2 % 2 == 1]
  {
    hide Lsb, GroupBits;
    FewBits(r);
    FewBits(3);
    ZeroGroups(n, r);
    assert Lsb(3, 2) == Ones(2);
  }

  lemma {:induction false} ZeroGroups(n: nat, r: nat)
    requires r < 7
    ensures GroupBits(7 * n + r) == Ones(3 * n) + [r % 2 == 1, r / 2 % 2 == 1, r / 2 / 2 % 2 == 1]
    decreases n
  {
    hide Lsb;
    FewBits(r);
    FewBits(7);
    if n > 0 {
      ZeroGroups(n - 1, r);
      assert Lsb(7, 3) + Ones(3 * (n - 1)) == Ones(3 * n);
    }
  }

  /** Recent offsets: the flag of the last one, and for each the position of its top bit in five bits and what is below. */
  lemma SampleOffsets()
    ensures B.MtfBits(1, [13, 1]) == [true] + ([true, true, false, false, false] + [true, false, true]) + [false, false, false, false, false]
  {
    OffsetOfThirteen();
    OffsetOfOne();
    hide B.OffsetBits;
    assert B.OffsetsBits([]) == [];
    assert B.OffsetsBits([1]) == B.OffsetBits(1);
    assert [13, 1][1..] == [1];
    assert B.OffsetsBits([13, 1]) == B.OffsetBits(13) + B.OffsetBits(1);
    assert B.MtfBits(1, [13, 1]) == Lsb(1, 1) + B.OffsetsBits([13, 1]);
  }

  lemma OffsetOfThirteen()
    ensures B.OffsetBits(13) == [true, true, false, false, false] + [true, false, true]
  {
  }

  lemma OffsetOfOne()
    ensures B.OffsetBits(1) == [false, false, false, false, false]
  {
  }

  /** The flag word: 13 bits of size, 3 of window, 2 of recent offsets and one bit for each of the two shortest lengths. */
  lemma FlagWord(p: B.Params, tableBits: nat)
    requires B.ValidParams(p) && tableBits < 0x2000
    ensures var w := B.Flags(p, tableBits);
      && w % 0x2000 == tableBits && w / 0x2000 % 8 == p.windowLog - 16 && w / 0x1_0000 % 4 == p.mtfCount / 2
      && w / 0x4_0000 % 2 == p.ptrMin - 3 && w / 0x8_0000 % 2 == p.mtfMin - 2
  {
    hide B.Flags;
    B.FlagsSum(p, tableBits, tableBits, p.windowLog - 16, p.mtfCount / 2, p.ptrMin - 3, p.mtfMin - 2);
    B.FieldsApart(B.Flags(p, tableBits), tableBits, p.windowLog - 16, p.mtfCount / 2, p.ptrMin - 3, p.mtfMin - 2);
  }

  /** Canonical codewords ascend with the length and, within a length, with the symbol: extended to 63 bits, the intervals
      below them follow each other, from 0 on. */
  lemma CodesAscend(list: seq<Coded>, i: nat, j: nat)
    requires Sorted(list) && Complete(list) && i < |list| && j < |list|
    requires list[j].bits < list[i].bits || (list[j].bits == list[i].bits && list[j].symbol < list[i].symbol)
    ensures (Code(list, j) + 1) * Pow2(63 - list[j].bits) <= Code(list, i) * Pow2(63 - list[i].bits)
    ensures Code(list, |list| - 1) == 0
  {
    hide Edge, Code, Pow2;
    InOrder(list, i, j);
    CodeAligned(list, i);
    CodeAligned(list, j);
    EdgeDecreases(list, i + 1, j);
    LastIsZero(list);
  }

  lemma InOrder(list: seq<Coded>, i: nat, j: nat)
    requires Sorted(list) && i < |list| && j < |list| && Before(list[i], list[j])
    ensures i < j
  {
    OneBefore(list[i], list[j]);
  }

  lemma OneBefore(x: Coded, y: Coded)
    requires Before(x, y)
    ensures !Before(y, x)
  {
  }

  lemma LastIsZero(list: seq<Coded>)
    requires Lengths(list) && list != []
    ensures Code(list, |list| - 1) == 0
  {
    ZeroShr(UNIT - list[|list| - 1].bits);
  }

  lemma {:induction false} ZeroShr(n: nat)
    ensures Shr(0, n) == 0
  {
    if n > 0 { ZeroShr(n - 1); }
  }
}
