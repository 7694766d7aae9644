/** How long an encoded table can be: eight bits an entry, and the description's own code. */
module TableSize {
  import opened Powers
  import opened BitStrings
  import opened Codewords
  import opened HuffmanCodes
  import opened SymbolIo
  import opened TableTokens
  import opened EncodeTable
  import opened TableRoundTrip
  import opened CreateAndEncode

  ghost predicate Short(masks: seq<nat>) { forall s :: 0 <= s < |masks| ==> LengthOf(masks[s]) <= 8 }

  lemma FirstTokenSize(masks: seq<nat>, t: Token, rest: seq<Token>)
    requires AllCoded(masks, [t] + rest) && Short(masks)
    ensures AllCoded(masks, rest)
    ensures |TokensBits(masks, [t] + rest)| <= 8 + |TokensBits(masks, rest)| + if t.Zeros? then |RunBits(t.extra)| else 0
  {
    hide LengthOf, RunBits;
    CodedParts(masks, [t], rest);
    assert ([t] + rest)[1..] == rest && ([t] + rest)[0] == t;
    assert Coded?(masks, SymbolOf(([t] + rest)[0]));
    TokenSize(masks, t);
  }

  lemma RunBitsSize(extra: nat)
    ensures |RunBits(extra)| <= extra + 2
  {
    if extra >= 3 { GroupBitsSize(extra - 3); }
  }

  lemma {:induction false} RepeatSize(masks: seq<nat>, n: nat)
    requires AllCoded(masks, Repeat(Plain(0), n)) && Short(masks)
    ensures |TokensBits(masks, Repeat(Plain(0), n))| <= 8 * n
    decreases n
  {
    if n > 0 {
      hide TokensBits, Short, LengthOf;
      FirstTokenSize(masks, Plain(0), Repeat(Plain(0), n - 1));
      RepeatSize(masks, n - 1);
    }
  }

  /** A run of zeros costs at most eight bits a zero. */
  lemma {:induction false} ZerosSize(masks: seq<nat>, k: nat, i: nat, boundary: nat)
    requires k <= i && boundary > 0 && AllCoded(masks, ZeroTokens(k, i, boundary)) && Short(masks)
    ensures |TokensBits(masks, ZeroTokens(k, i, boundary))| <= 8 * (i - k)
    decreases i - k
  {
    hide TokensBits, LengthOf, Block, NextRow, Short, Repeat, RunBits;
    if Block(k, boundary) != Block(i, boundary) {
      RowAbove(k, i, boundary);
      FirstTokenSize(masks, Plain(FILL), ZeroTokens(NextRow(k, boundary), i, boundary));
      ZerosSize(masks, NextRow(k, boundary), i, boundary);
    } else if i - k < ZERO_REPT_MIN_COUNT {
      RepeatSize(masks, i - k);
    } else {
      var t := Zeros(i - k - ZERO_REPT_MIN_COUNT);
      assert [t] + [] == [t];
      FirstTokenSize(masks, t, []);
      RunBitsSize(t.extra);
      NoBits(masks);
    }
  }

  lemma {:induction false} DescriptionSize(masks: seq<nat>, lengths: seq<nat>, i: nat, prev: nat, boundary: nat)
    requires i <= |lengths| && boundary > 0 && AllCoded(masks, Tokens(lengths, i, prev, boundary)) && Short(masks)
    ensures |TokensBits(masks, Tokens(lengths, i, prev, boundary))| <= 8 * (|lengths| - i)
    decreases |lengths| - i
  {
    hide TokensBits, LengthOf, Short, ZeroTokens, LengthSymbol;
    if i == |lengths| {
      NoBits(masks);
    } else if lengths[i] != 0 {
      var s := LengthSymbol(lengths, i, prev, boundary);
      FirstTokenSize(masks, Plain(s), Tokens(lengths, i + 1, lengths[i], boundary));
      DescriptionSize(masks, lengths, i + 1, lengths[i], boundary);
    } else {
      var j := ZeroEnd(lengths, i + 1);
      TokensBitsConcat(masks, ZeroTokens(i, j, boundary), Tokens(lengths, j, prev, boundary));
      ZerosSize(masks, i, j, boundary);
      DescriptionSize(masks, lengths, j, prev, boundary);
    }
  }

  /** Eight bits for each entry, 132 for the code of the description and three for the form. */
  lemma TableBitsSize(form: Form, lengths: seq<nat>, boundary: nat)
    requires boundary > 0 && FormOf(form, lengths, boundary)
    ensures |TableBits(form, lengths, boundary)| <= 135 + 8 * |lengths|
  {
    hide TokensBits, SmallBits, Tokens, MaskLengths;
    match form
    case Stored =>
    case Described(small) =>
      CodebookLimit(small, SMALL_MAX);
      SmallBitsSize(MaskLengths(small), 0, 4);
      DescriptionSize(small, lengths, 0, 8, boundary);
  }
}
