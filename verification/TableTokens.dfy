/** The symbols that describe a table of codeword lengths (Xpress9Internal.h:604-610,
    Xpress9EncHuffman.c:848-923): lengths, repeats of the last length or of the row above, and runs of zeros. */
module TableTokens {
  import opened Powers
  import opened BitStrings
  import opened XorWords

  // HUFFMAN_ENCODED_TABLE_...
  const FILL: nat := 28
  const ZERO_REPT: nat := 29
  const PREV: nat := 30
  const ROW_0: nat := 31
  const ROW_1: nat := 32
  const TABLE_SIZE: nat := 33
  const ZERO_REPT_MIN_COUNT: nat := 5

  /** Comparing an exclusive or with a power of two asks whether both are in the same block. */
  lemma XorBlock(a: nat, b: nat, m: nat)
    ensures Xor(a, b) >= Pow2(m) <==> Block(a, Pow2(m)) != Block(b, Pow2(m))
  {
    XorShr(a, b, m);
    ShrIsDiv(a, m);
    ShrIsDiv(b, m);
  }

  lemma {:induction false} XorShr(a: nat, b: nat, m: nat)
    ensures Xor(a, b) >= Pow2(m) <==> Shr(a, m) != Shr(b, m)
    decreases m
  {
    if m == 0 {
      XorEqual(a, b);
    } else {
      XorShr(a / 2, b / 2, m - 1);
      assert Xor(a, b) == 2 * Xor(a / 2, b / 2) + (a + b) % 2;
    }
  }

  // ------------------------------------------------------------------ rows of the table

  function Block(k: nat, boundary: nat): nat
    requires boundary > 0
  {
    k / boundary
  }

  /** The row boundary above k: (k & ~(boundary - 1)) + boundary. */
  function NextRow(k: nat, boundary: nat): (n: nat)
    requires boundary > 0
    ensures n > k
  {
    k - k % boundary + boundary
  }

  lemma NextRowIs(k: nat, boundary: nat)
    requires boundary > 0
    ensures NextRow(k, boundary) == (Block(k, boundary) + 1) * boundary
    ensures NextRow(k, boundary) % boundary == 0
  {
    var q, r := k / boundary, k % boundary;
    assert k == q * boundary + r;
    assert (q + 1) * boundary == q * boundary + boundary;
    ModOfProduct(q + 1, boundary, 0);
  }

  lemma QuotientOrder(a: nat, b: nat, m: nat, r: nat, s: nat)
    requires s < m && a * m + r <= b * m + s
    ensures a <= b
  {
    assert (b + 1) * m == b * m + m;
    if b < a { MulMonotone(b + 1, a, m); }
  }

  lemma BlockMonotone(k: nat, i: nat, boundary: nat)
    requires boundary > 0 && k <= i
    ensures Block(k, boundary) <= Block(i, boundary)
  {
    QuotientOrder(k / boundary, i / boundary, boundary, k % boundary, i % boundary);
  }

  lemma RowAbove(k: nat, i: nat, boundary: nat)
    requires boundary > 0 && k <= i && Block(k, boundary) != Block(i, boundary)
    ensures NextRow(k, boundary) <= i
  {
    BlockMonotone(k, i, boundary);
    NextRowIs(k, boundary);
    var a, b := k / boundary, i / boundary;
    MulMonotone(a + 1, b, boundary);
    assert i == b * boundary + i % boundary;
  }

  /** Between k and the next row boundary there is no other. */
  lemma InsideRow(k: nat, j: nat, boundary: nat)
    requires boundary > 0 && k < j
    ensures j < NextRow(k, boundary) ==> j % boundary != 0
  {
    NextRowIs(k, boundary);
    if j < NextRow(k, boundary) && j % boundary == 0 {
      var a, b := k / boundary, j / boundary;
      assert k == a * boundary + k % boundary;
      assert j == b * boundary;
      if b <= a { MulMonotone(b, a, boundary); } else { MulMonotone(a + 1, b, boundary); }
    }
  }

  // ------------------------------------------------------------------ the description of a table

  /** One symbol of the description; a long run of zeros is followed by its length. */
  datatype Token = Plain(symbol: nat) | Zeros(extra: nat)

  function SymbolOf(t: Token): nat { if t.Plain? then t.symbol else ZERO_REPT }

  /** How a non-zero length is written, after the previous non-zero length prev. */
  function LengthSymbol(lengths: seq<nat>, i: nat, prev: nat, boundary: nat): nat
    requires i < |lengths| && boundary > 0
  {
    var k := lengths[i];
    if k == prev then PREV
    else if i >= boundary && k == lengths[i - boundary] then ROW_0
    else if i >= boundary && k == lengths[i - boundary] + 1 then ROW_1
    else k
  }

  function ZeroEnd(lengths: seq<nat>, i: nat): (j: nat)
    requires i <= |lengths|
    ensures i <= j <= |lengths|
    ensures forall m :: i <= m < j ==> lengths[m] == 0
    ensures j < |lengths| ==> lengths[j] != 0
    decreases |lengths| - i
  {
    if i < |lengths| && lengths[i] == 0 then ZeroEnd(lengths, i + 1) else i
  }

  function Repeat(t: Token, n: nat): (ts: seq<Token>)
    ensures |ts| == n
  {
    if n == 0 then [] else [t] + Repeat(t, n - 1)
  }

  /** The zeros from k to i: row ends first, then what is left within the last row. */
  function ZeroTokens(k: nat, i: nat, boundary: nat): seq<Token>
    requires k <= i && boundary > 0
    decreases i - k
  {
    if Block(k, boundary) != Block(i, boundary) then
      RowAbove(k, i, boundary);
      [Plain(FILL)] + ZeroTokens(NextRow(k, boundary), i, boundary)
    else if i - k < ZERO_REPT_MIN_COUNT then Repeat(Plain(0), i - k)
    else [Zeros(i - k - ZERO_REPT_MIN_COUNT)]
  }

  /** The description of lengths[i..] after the non-zero length prev. */
  function Tokens(lengths: seq<nat>, i: nat, prev: nat, boundary: nat): seq<Token>
    requires i <= |lengths| && boundary > 0
    decreases |lengths| - i
  {
    if i == |lengths| then []
    else if lengths[i] != 0 then
      [Plain(LengthSymbol(lengths, i, prev, boundary))] + Tokens(lengths, i + 1, lengths[i], boundary)
    else
      var j := ZeroEnd(lengths, i + 1);
      ZeroTokens(i, j, boundary) + Tokens(lengths, j, prev, boundary)
  }

  // ------------------------------------------------------------------ the size of a description

  /** The bits after ZERO_REPT: two bits up to 2, then groups of three bits, 7 meaning that more follow. */
  function RunBits(extra: nat): Bits
  {
    if extra < 3 then Lsb(extra, 2) else Lsb(3, 2) + GroupBits(extra - 3)
  }

  function GroupBits(extra: nat): Bits
    decreases extra
  {
    if extra < 7 then Lsb(extra, 3) else Lsb(7, 3) + GroupBits(extra - 7)
  }

  lemma {:induction false} GroupBitsSize(extra: nat)
    ensures |GroupBits(extra)| <= extra + 3
    decreases extra
  {
    if extra >= 7 { GroupBitsSize(extra - 7); }
  }

  lemma {:induction false} ZeroTokensCount(k: nat, i: nat, boundary: nat)
    requires k <= i && boundary > 0
    ensures |ZeroTokens(k, i, boundary)| <= i - k
    ensures k < i ==> ZeroTokens(k, i, boundary) != []
    decreases i - k
  {
    if Block(k, boundary) != Block(i, boundary) {
      RowAbove(k, i, boundary);
      ZeroTokensCount(NextRow(k, boundary), i, boundary);
    }
  }

  /** No more symbols than lengths, and at least one. */
  lemma {:induction false} TokensCount(lengths: seq<nat>, i: nat, prev: nat, boundary: nat)
    requires i <= |lengths| && boundary > 0
    ensures |Tokens(lengths, i, prev, boundary)| <= |lengths| - i
    ensures i < |lengths| ==> Tokens(lengths, i, prev, boundary) != []
    decreases |lengths| - i
  {
    if i < |lengths| {
      if lengths[i] != 0 {
        TokensCount(lengths, i + 1, lengths[i], boundary);
      } else {
        var j := ZeroEnd(lengths, i + 1);
        ZeroTokensCount(i, j, boundary);
        TokensCount(lengths, j, prev, boundary);
      }
    }
  }

  ghost predicate Symbols(ts: seq<Token>) { forall n :: 0 <= n < |ts| ==> SymbolOf(ts[n]) < TABLE_SIZE }

  lemma {:induction false} RepeatSymbols(n: nat)
    ensures Symbols(Repeat(Plain(0), n))
  {
    if n > 0 { RepeatSymbols(n - 1); }
  }

  lemma {:induction false} ZeroTokensSymbols(k: nat, i: nat, boundary: nat)
    requires k <= i && boundary > 0
    ensures Symbols(ZeroTokens(k, i, boundary))
    decreases i - k
  {
    if Block(k, boundary) != Block(i, boundary) {
      RowAbove(k, i, boundary);
      ZeroTokensSymbols(NextRow(k, boundary), i, boundary);
    } else if i - k < ZERO_REPT_MIN_COUNT {
      RepeatSymbols(i - k);
    }
  }

  lemma {:induction false} TokensSymbols(lengths: seq<nat>, i: nat, prev: nat, boundary: nat)
    requires i <= |lengths| && boundary > 0 && forall s :: 0 <= s < |lengths| ==> lengths[s] < FILL
    ensures Symbols(Tokens(lengths, i, prev, boundary))
    decreases |lengths| - i
  {
    if i < |lengths| {
      if lengths[i] != 0 {
        TokensSymbols(lengths, i + 1, lengths[i], boundary);
      } else {
        var j := ZeroEnd(lengths, i + 1);
        ZeroTokensSymbols(i, j, boundary);
        TokensSymbols(lengths, j, prev, boundary);
      }
    }
  }
}
