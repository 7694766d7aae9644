/** ChecksumNewFormatSlowly (checksum_amd64.cxx:612-788): rows of four words, with each row index and its
    complement combined into one double index, give the same checksum. */
module EccColumns {
  import opened Powers
  import opened BitStrings
  import opened XorWords
  import opened ParityMask
  import opened Ecc
  import opened EccRows

  // ------------------------------------------------------------------ rows of 128 bits

  /** The exclusive or of word d of the first n rows. */
  ghost function Lane(data: seq<nat>, n: nat, d: nat): nat
    requires 4 * n <= |data| && d < 4
  {
    if n == 0 then 0 else Xor(Lane(data, n - 1, d), data[4 * (n - 1) + d])
  }

  ghost function Quad(data: seq<nat>, r: nat): nat
    requires 4 * r + 4 <= |data|
  {
    Xor(Xor(Xor(data[4 * r], data[4 * r + 1]), data[4 * r + 2]), data[4 * r + 3])
  }

  /** The exclusive or of g(r) over the rows of four words of odd parity. */
  ghost function QuadRows(data: seq<nat>, n: nat, g: nat -> nat): nat
    requires 4 * n <= |data|
  {
    if n == 0 then 0 else Xor(QuadRows(data, n - 1, g), if Odd(Quad(data, n - 1)) then g(n - 1) else 0)
  }

  function Pick(b: bool, v: nat): nat { if b then v else 0 }

  lemma PickXor(a: bool, b: bool, v: nat)
    ensures Xor(Pick(a, v), Pick(b, v)) == Pick(a != b, v)
  {
    XorEqual(v, v);
    XorNone(v);
    XorNone(0);
  }

  /** One value for each of four parities. */
  ghost function Four(b0: bool, b1: bool, b2: bool, b3: bool, h: nat -> nat): nat
  {
    Xor(Xor(Pick(b0, h(0)), Pick(b1, h(1))), Xor(Pick(b2, h(2)), Pick(b3, h(3))))
  }

  lemma FourXor(a0: bool, a1: bool, a2: bool, a3: bool, b0: bool, b1: bool, b2: bool, b3: bool, h: nat -> nat)
    ensures Xor(Four(a0, a1, a2, a3, h), Four(b0, b1, b2, b3, h)) == Four(a0 != b0, a1 != b1, a2 != b2, a3 != b3, h)
  {
    hide Xor, Pick;
    var x0, x1, x2, x3 := Pick(a0, h(0)), Pick(a1, h(1)), Pick(a2, h(2)), Pick(a3, h(3));
    var y0, y1, y2, y3 := Pick(b0, h(0)), Pick(b1, h(1)), Pick(b2, h(2)), Pick(b3, h(3));
    XorPairs(Xor(x0, x1), Xor(x2, x3), Xor(y0, y1), Xor(y2, y3));
    XorPairs(x0, x1, y0, y1);
    XorPairs(x2, x3, y2, y3);
    PickXor(a0, b0, h(0));
    PickXor(a1, b1, h(1));
    PickXor(a2, b2, h(2));
    PickXor(a3, b3, h(3));
  }

  ghost predicate SplitAtRow(f: nat -> nat, r: nat, g: nat -> nat, h: nat -> nat)
  {
    && f(4 * r) == Shl(g(r), 2) + h(0) && f(4 * r + 1) == Shl(g(r), 2) + h(1)
    && f(4 * r + 2) == Shl(g(r), 2) + h(2) && f(4 * r + 3) == Shl(g(r), 2) + h(3)
  }

  /** f splits into a part for the row of four and a part for the word in it. */
  ghost predicate SplitsFour(f: nat -> nat, rows: nat, g: nat -> nat, h: nat -> nat)
  {
    && (forall r: nat :: r < rows ==> SplitAtRow(f, r, g, h))
    && h(0) < 4 && h(1) < 4 && h(2) < 4 && h(3) < 4
  }

  lemma PickSplit(b: bool, g: nat, h: nat)
    ensures Pick(b, Shl(g, 2) + h) == Shl(Pick(b, g), 2) + Pick(b, h)
  {
    ShlZero(2);
  }

  lemma TwoBits(n: nat)
    requires n == 2
    ensures Pow2(n) == 4
  {
    assert Pow2(2) == 4;
  }

  lemma PickBound(b: bool, v: nat)
    ensures Pick(b, v) <= v
  {
  }

  lemma WordsOfTwo(b0: bool, b1: bool, g: nat, h0: nat, h1: nat)
    requires h0 < 4 && h1 < 4
    ensures Xor(Pick(b0, Shl(g, 2) + h0), Pick(b1, Shl(g, 2) + h1))
            == Shl(Pick(b0 != b1, g), 2) + Xor(Pick(b0, h0), Pick(b1, h1))
    ensures Xor(Pick(b0, h0), Pick(b1, h1)) < 4
  {
    hide *;
    TwoBits(2);
    PickSplit(b0, g, h0);
    PickSplit(b1, g, h1);
    PickBound(b0, h0);
    PickBound(b1, h1);
    XorFields(Pick(b0, g), Pick(b0, h0), Pick(b1, g), Pick(b1, h1), 2);
    XorBound(Pick(b0, h0), Pick(b1, h1), 2);
    PickXor(b0, b1, g);
  }

  /** The four words of one row. */
  lemma RowOfFour(b0: bool, b1: bool, b2: bool, b3: bool, g: nat, h: nat -> nat)
    requires h(0) < 4 && h(1) < 4 && h(2) < 4 && h(3) < 4
    ensures var f := (d: nat) => Shl(g, 2) + h(d);
      Four(b0, b1, b2, b3, f) == Shl(Pick(((b0 != b1) != b2) != b3, g), 2) + Four(b0, b1, b2, b3, h)
    ensures Four(b0, b1, b2, b3, h) < 4
  {
    hide Xor, Shl, Pick, Pow2;
    TwoBits(2);
    WordsOfTwo(b0, b1, g, h(0), h(1));
    WordsOfTwo(b2, b3, g, h(2), h(3));
    var x, y := Xor(Pick(b0, h(0)), Pick(b1, h(1))), Xor(Pick(b2, h(2)), Pick(b3, h(3)));
    XorFields(Pick(b0 != b1, g), x, Pick(b2 != b3, g), y, 2);
    XorBound(x, y, 2);
    PickXor(b0 != b1, b2 != b3, g);
  }

  ghost function LaneBit(data: seq<nat>, n: nat, d: nat): bool
    requires 4 * n <= |data| && d < 4
  {
    Odd(Lane(data, n, d))
  }

  ghost function LaneFour(data: seq<nat>, n: nat, h: nat -> nat): nat
    requires 4 * n <= |data|
  {
    Four(LaneBit(data, n, 0), LaneBit(data, n, 1), LaneBit(data, n, 2), LaneBit(data, n, 3), h)
  }

  lemma QuadParity(data: seq<nat>, r: nat)
    requires 4 * r + 4 <= |data|
    ensures Odd(Quad(data, r)) == (((Odd(data[4 * r]) != Odd(data[4 * r + 1])) != Odd(data[4 * r + 2])) != Odd(data[4 * r + 3]))
  {
    hide Xor, Odd;
    var a, b := Xor(data[4 * r], data[4 * r + 1]), data[4 * r + 2];
    OddXor(data[4 * r], data[4 * r + 1]);
    OddXor(a, b);
    OddXor(Xor(a, b), data[4 * r + 3]);
  }

  lemma LaneNext(data: seq<nat>, n: nat, d: nat)
    requires 4 * n + 4 <= |data| && d < 4
    ensures LaneBit(data, n + 1, d) == (LaneBit(data, n, d) != Odd(data[4 * n + d]))
  {
    hide Odd;
    OddXor(Lane(data, n, d), data[4 * n + d]);
  }

  /** Four words later. */
  lemma RowsFour(data: seq<nat>, n: nat, f: nat -> nat)
    requires 4 * n + 4 <= |data|
    ensures Rows(data[..4 * n + 4], f)
            == Xor(Rows(data[..4 * n], f),
                   Xor(Xor(Pick(Odd(data[4 * n]), f(4 * n)), Pick(Odd(data[4 * n + 1]), f(4 * n + 1))),
                       Xor(Pick(Odd(data[4 * n + 2]), f(4 * n + 2)), Pick(Odd(data[4 * n + 3]), f(4 * n + 3)))))
  {
    hide Xor, Odd, Rows;
    var i := 4 * n;
    RowsNext(data, i, f);
    RowsNext(data, i + 1, f);
    RowsNext(data, i + 2, f);
    RowsNext(data, i + 3, f);
    var x0, x1 := Pick(Odd(data[i]), f(i)), Pick(Odd(data[i + 1]), f(i + 1));
    var x2, x3 := Pick(Odd(data[i + 2]), f(i + 2)), Pick(Odd(data[i + 3]), f(i + 3));
    var base := Rows(data[..i], f);
    XorAssoc(base, x0, x1);
    XorAssoc(base, Xor(x0, x1), x2);
    XorAssoc(base, Xor(Xor(x0, x1), x2), x3);
    XorAssoc(Xor(x0, x1), x2, x3);
  }

  lemma {:induction false} QuadRowsAre(data: seq<nat>, n: nat, f: nat -> nat, rows: nat, g: nat -> nat, h: nat -> nat)
    requires 4 * n <= |data| && n <= rows && SplitsFour(f, rows, g, h)
    ensures Rows(data[..4 * n], f) == Shl(QuadRows(data, n, g), 2) + LaneFour(data, n, h)
    ensures LaneFour(data, n, h) < 4
    decreases n
  {
    hide Xor, Odd, Rows, Shl, Quad, Four, Lane, Pick, Pow2, SplitsFour;
    if n > 0 { SplitsAt(f, rows, g, h, n - 1); }
    TwoBits(2);
    ShlZero(2);
    if n == 0 {
      NoLanes(data, h);
    } else {
      QuadRowsAre(data, n - 1, f, rows, g, h);
      var r := n - 1;
      var b0, b1, b2, b3 := Odd(data[4 * r]), Odd(data[4 * r + 1]), Odd(data[4 * r + 2]), Odd(data[4 * r + 3]);
      RowsFour(data, r, f);
      RowOfFour(b0, b1, b2, b3, g(r), h);
      FourIs(b0, b1, b2, b3, f, g(r), h, 4 * r);
      QuadParity(data, r);
      LaneNext(data, r, 0);
      LaneNext(data, r, 1);
      LaneNext(data, r, 2);
      LaneNext(data, r, 3);
      FourXor(LaneBit(data, r, 0), LaneBit(data, r, 1), LaneBit(data, r, 2), LaneBit(data, r, 3), b0, b1, b2, b3, h);
      XorFields(QuadRows(data, r, g), LaneFour(data, r, h), Pick(Odd(Quad(data, r)), g(r)), Four(b0, b1, b2, b3, h), 2);
      XorBound(LaneFour(data, r, h), Four(b0, b1, b2, b3, h), 2);
      PickIs(Odd(Quad(data, r)), g(r));
    }
  }

  lemma SplitsAt(f: nat -> nat, rows: nat, g: nat -> nat, h: nat -> nat, r: nat)
    requires SplitsFour(f, rows, g, h) && r < rows
    ensures SplitAtRow(f, r, g, h) && h(0) < 4 && h(1) < 4 && h(2) < 4 && h(3) < 4
  {
  }

  lemma PickIs(b: bool, v: nat)
    ensures Pick(b, v) == if b then v else 0
  {
  }

  lemma NoLanes(data: seq<nat>, h: nat -> nat)
    ensures Rows(data[..0], h) == 0 && LaneFour(data, 0, h) == 0 && QuadRows(data, 0, h) == 0
    ensures forall f: nat -> nat {:trigger Rows(data[..0], f)} :: Rows(data[..0], f) == 0
  {
    XorNone(0);
  }

  lemma FourIs(b0: bool, b1: bool, b2: bool, b3: bool, f: nat -> nat, g: nat, h: nat -> nat, i: nat)
    requires f(i) == Shl(g, 2) + h(0) && f(i + 1) == Shl(g, 2) + h(1)
    requires f(i + 2) == Shl(g, 2) + h(2) && f(i + 3) == Shl(g, 2) + h(3)
    ensures Xor(Xor(Pick(b0, f(i)), Pick(b1, f(i + 1))), Xor(Pick(b2, f(i + 2)), Pick(b3, f(i + 3))))
            == Four(b0, b1, b2, b3, (d: nat) => Shl(g, 2) + h(d))
  {
  }

  // ------------------------------------------------------------------ the double index

  // A row's position in the low half, its complement in the high half; column likewise.
  ghost function DoubleRow(): nat -> nat { (r: nat) => if r < 512 then (0xff80 - 128 * r) * 0x10000 + 128 * r else 0 }

  ghost function DoubleColumn(): nat -> nat { (c: nat) => if c < 0x10000 then (0xffff - c) * 0x10000 + c else 0 }

  ghost function NotColumn(): nat -> nat { (c: nat) => if c < 0x10000 then 0xffff - c else 0 }

  lemma Sizes16(a: nat, b: nat, c: nat)
    requires a == 7 && b == 9 && c == 16
    ensures Pow2(a) == 128 && Pow2(b) == 512 && Pow2(c) == 0x10000
  {
    assert Pow2(7) == 128;
    Pow2Add(7, 2);
    assert Pow2(2) == 4;
    Pow2Add(9, 7);
  }

  lemma ShlSeven(v: nat, n: nat)
    requires n == 7
    ensures Shl(v, n) == 128 * v
  {
    ShlIs(v, n);
    Sizes16(n, 9, 16);
  }

  lemma ShlSixteen(v: nat, n: nat)
    requires n == 16
    ensures Shl(v, n) == 0x10000 * v
  {
    ShlIs(v, n);
    Sizes16(7, 9, n);
  }

  lemma Scaled(x: nat, y: nat, a: nat, b: nat)
    requires x == 128 * a && y == 128 * b
    ensures Xor(x, y) == 128 * Xor(a, b)
  {
    hide Xor, Shl;
    ShlZero(7);
    Positive(7);
    XorFields(a, 0, b, 0, 7);
    XorNone(0);
    ShlSeven(a, 7);
    ShlSeven(b, 7);
    ShlSeven(Xor(a, b), 7);
  }

  lemma Halves16(x: nat, y: nat, hx: nat, lx: nat, hy: nat, ly: nat)
    requires x == hx * 0x10000 + lx && y == hy * 0x10000 + ly && lx < 0x10000 && ly < 0x10000
    ensures Xor(x, y) == Xor(hx, hy) * 0x10000 + Xor(lx, ly)
  {
    hide Xor, Shl;
    Sizes16(7, 9, 16);
    XorFields(hx, lx, hy, ly, 16);
    ShlSixteen(hx, 16);
    ShlSixteen(hy, 16);
    ShlSixteen(Xor(hx, hy), 16);
  }

  lemma {:induction false} DoubleRows(data: seq<nat>, n: nat)
    requires 4 * n <= |data| && n <= 512
    ensures QuadRows(data, n, DoubleRow())
            == 128 * QuadRows(data, n, RowComplement(512)) * 0x10000 + 128 * QuadRows(data, n, Position())
    ensures QuadRows(data, n, Position()) < 512
    decreases n
  {
    hide Xor, Odd, Quad;
    if n == 0 {
    } else {
      var r := n - 1;
      DoubleRows(data, r);
      var b := Odd(Quad(data, r));
      var high, low := QuadRows(data, r, RowComplement(512)), QuadRows(data, r, Position());
      var h: nat, l: nat := if b then 511 - r else 0, if b then r else 0;
      hide QuadRows;
      QuadNext(data, r, DoubleRow());
      QuadNext(data, r, RowComplement(512));
      QuadNext(data, r, Position());
      Sizes16(7, 9, 16);
      Scaled(128 * high, 128 * h, high, h);
      Scaled(128 * low, 128 * l, low, l);
      XorBound(low, l, 9);
      Halves16(128 * high * 0x10000 + 128 * low, 128 * h * 0x10000 + 128 * l, 128 * high, 128 * low, 128 * h, 128 * l);
    }
  }

  lemma QuadNext(data: seq<nat>, r: nat, g: nat -> nat)
    requires 4 * r + 4 <= |data|
    ensures QuadRows(data, r + 1, g) == Xor(QuadRows(data, r, g), if Odd(Quad(data, r)) then g(r) else 0)
  {
  }

  lemma {:induction false} DoubleColumns(w: nat, i: nat, n: nat)
    requires w < Pow2(n) && n + i == 32
    ensures RowFold(w, i, DoubleColumn()) == RowFold(w, i, NotColumn()) * 0x10000 + RowFold(w, i, Position())
    ensures RowFold(w, i, Position()) < 32
    decreases n
  {
    hide Xor;
    ColumnBound(w, i, Position(), n);
    if w != 0 {
      DoubleColumns(w / 2, i + 1, n - 1);
      ColumnStep(w, i);
    }
  }

  lemma ColumnStep(w: nat, i: nat)
    requires i < 32 && RowFold(w / 2, i + 1, Position()) < 32
    requires RowFold(w / 2, i + 1, DoubleColumn())
             == RowFold(w / 2, i + 1, NotColumn()) * 0x10000 + RowFold(w / 2, i + 1, Position())
    ensures RowFold(w, i, DoubleColumn()) == RowFold(w, i, NotColumn()) * 0x10000 + RowFold(w, i, Position())
  {
    hide RowFold, Xor;
    RowNext(w, i, DoubleColumn());
    RowNext(w, i, NotColumn());
    RowNext(w, i, Position());
    var high, low := RowFold(w / 2, i + 1, NotColumn()), RowFold(w / 2, i + 1, Position());
    var h: nat, l: nat := if w % 2 == 1 then 0xffff - i else 0, if w % 2 == 1 then i else 0;
    Halves16(h * 0x10000 + l, high * 0x10000 + low, h, l, high, low);
  }

  // ------------------------------------------------------------------ the code from the accumulators

  lemma FourLow(b0: bool, b1: bool, b2: bool, b3: bool)
    ensures Four(b0, b1, b2, b3, Position()) == Pick(b2 != b3, 2) + Pick(b1 != b3, 1)
  {
  }

  lemma FourHigh(b0: bool, b1: bool, b2: bool, b3: bool)
    ensures Four(b0, b1, b2, b3, RowComplement(4)) == Pick(b0 != b1, 2) + Pick(b0 != b2, 1)
  {
  }

  lemma PositionFour(rows: nat)
    ensures SplitsFour(Position(), rows, Position(), Position())
  {
    hide Shl;
    forall r: nat | r < rows ensures SplitAtRow(Position(), r, Position(), Position()) { TimesFour(r, 2); }
  }

  lemma ComplementFour(rows: nat)
    ensures SplitsFour(RowComplement(4 * rows), rows, RowComplement(rows), RowComplement(4))
  {
    hide Shl;
    forall r: nat | r < rows ensures SplitAtRow(RowComplement(4 * rows), r, RowComplement(rows), RowComplement(4)) {
      TimesFour(rows - 1 - r, 2);
    }
  }

  lemma TimesFour(r: nat, n: nat)
    requires n == 2
    ensures Shl(r, n) == 4 * r
  {
    ShlIs(r, n);
    TwoBits(n);
  }

  lemma {:induction false} QuadRowsLow(data: seq<nat>, n: nat, g: nat -> nat, g': nat -> nat, k: nat)
    requires 4 * n <= |data| && forall r: nat :: r < n ==> Low(g(r), k) == g'(r)
    ensures Low(QuadRows(data, n, g), k) == QuadRows(data, n, g')
    decreases n
  {
    hide Low, Xor, Odd, Quad;
    LowOfZero(k);
    if n > 0 {
      QuadRowsLow(data, n - 1, g, g', k);
      XorParts(QuadRows(data, n - 1, g), if Odd(Quad(data, n - 1)) then g(n - 1) else 0, k);
    }
  }

  /** The row part of the code, from row parities of 128 bits and lane parities. */
  lemma RowParts(data: seq<nat>, n: nat)
    requires |data| == 4 * n
    ensures Rows(data, Position())
            == 4 * QuadRows(data, n, Position())
               + Pick(LaneBit(data, n, 2) != LaneBit(data, n, 3), 2) + Pick(LaneBit(data, n, 1) != LaneBit(data, n, 3), 1)
    ensures Rows(data, RowComplement(4 * n))
            == 4 * QuadRows(data, n, RowComplement(n))
               + Pick(LaneBit(data, n, 0) != LaneBit(data, n, 1), 2) + Pick(LaneBit(data, n, 0) != LaneBit(data, n, 2), 1)
  {
    hide Rows, QuadRows, LaneBit, Pick, Four, Shl, Position, RowComplement, SplitsFour;
    assert data[..4 * n] == data;
    PositionFour(n);
    QuadRowsAre(data, n, Position(), n, Position(), Position());
    TimesFour(QuadRows(data, n, Position()), 2);
    FourLow(LaneBit(data, n, 0), LaneBit(data, n, 1), LaneBit(data, n, 2), LaneBit(data, n, 3));
    ComplementFour(n);
    QuadRowsAre(data, n, RowComplement(4 * n), n, RowComplement(n), RowComplement(4));
    TimesFour(QuadRows(data, n, RowComplement(n)), 2);
    FourHigh(LaneBit(data, n, 0), LaneBit(data, n, 1), LaneBit(data, n, 2), LaneBit(data, n, 3));
  }

  // ------------------------------------------------------------------ assembling

  lemma TopRow(n: nat, j: nat, r: nat)
    requires n == Pow2(j) && j <= 9 && r < n
    ensures Low(RowComplement(512)(r), j) == RowComplement(n)(r)
  {
    hide Pow2, Low;
    Sizes16(7, 9, 16);
    Pow2Monotone(j, 9);
    LowOfNot(r, j, 9);
  }

  /** The high half of the row part, cut to the block size. */
  lemma HighRows(data: seq<nat>, n: nat, j: nat, d: nat)
    requires |data| == 4 * n && n == Pow2(j) && j <= 9 && d < 4
    ensures (128 * QuadRows(data, n, RowComplement(512)) + 32 * d) % (128 * n)
            == 128 * QuadRows(data, n, RowComplement(n)) + 32 * d
  {
    hide *;
    forall r: nat | r < n ensures Low(RowComplement(512)(r), j) == RowComplement(n)(r) { TopRow(n, j, r); }
    QuadRowsLow(data, n, RowComplement(512), RowComplement(n), j);
    var y := QuadRows(data, n, RowComplement(512));
    LowShr(y, j);
    ShlIs(Shr(y, j), j);
    LowStrict(y, j);
    CutRows(Shr(y, j), n, Low(y, j), d);
  }

  lemma LowStrict(y: nat, j: nat)
    ensures Low(y, j) < Pow2(j)
  {
  }

  lemma CutRows(q: nat, n: nat, r: nat, d: nat)
    requires r < n && d < 4
    ensures (128 * (q * n + r) + 32 * d) % (128 * n) == 128 * r + 32 * d
  {
    assert 128 * (q * n + r) + 32 * d == q * (128 * n) + (128 * r + 32 * d);
    ModOfProduct(q, 128 * n, 128 * r + 32 * d);
  }

  lemma ColumnLow(column: nat)
    requires column < Pow2(32)
    ensures Low(RowFold(column, 0, NotColumn()), 5) == RowFold(column, 0, RowComplement(32))
    ensures Low(RowFold(column, 0, Position()), 5) == RowFold(column, 0, Position())
  {
    hide Low, RowFold, Pow2;
    SizeOfField(5);
    Sizes16(7, 9, 16);
    forall c: nat | c < 32 ensures Low(NotColumn()(c), 5) == RowComplement(32)(c) && Low(Position()(c), 5) == Position()(c) {
      LowOfNot(c, 5, 16);
      LowSmall(c, 5);
    }
    RowFoldLow(column, 0, NotColumn(), RowComplement(32), 5, 32);
    RowFoldLow(column, 0, Position(), Position(), 5, 32);
  }

  lemma {:induction false} Lanes(data: seq<nat>, n: nat)
    requires 4 * n <= |data|
    ensures XorAll(data[..4 * n])
            == Xor(Xor(Lane(data, n, 0), Lane(data, n, 2)), Xor(Lane(data, n, 1), Lane(data, n, 3)))
    decreases n
  {
    hide Xor, XorAll, Rows, Position;
    if n == 0 {
      NoXor(data);
      XorNone(0);
    } else {
      var i := 4 * (n - 1);
      Lanes(data, n - 1);
      RowsNext(data, i, Position());
      RowsNext(data, i + 1, Position());
      RowsNext(data, i + 2, Position());
      RowsNext(data, i + 3, Position());
      FourMore(XorAll(data[..i]), data[i], data[i + 1], data[i + 2], data[i + 3]);
      XorPairs(Xor(Lane(data, n - 1, 0), Lane(data, n - 1, 2)), Xor(Lane(data, n - 1, 1), Lane(data, n - 1, 3)),
        Xor(data[i], data[i + 2]), Xor(data[i + 1], data[i + 3]));
      XorPairs(Lane(data, n - 1, 0), Lane(data, n - 1, 2), data[i], data[i + 2]);
      XorPairs(Lane(data, n - 1, 1), Lane(data, n - 1, 3), data[i + 1], data[i + 3]);
    }
  }

  lemma NoXor(data: seq<nat>)
    ensures XorAll(data[..0]) == 0
  {
  }

  lemma FourMore(x: nat, a: nat, b: nat, c: nat, d: nat)
    ensures Xor(Xor(Xor(Xor(x, a), b), c), d) == Xor(x, Xor(Xor(a, c), Xor(b, d)))
  {
    hide Xor;
    XorAssoc(x, a, b);
    XorAssoc(x, Xor(a, b), c);
    XorAssoc(x, Xor(Xor(a, b), c), d);
    XorAssoc(Xor(a, b), c, d);
    XorPairs(a, b, c, d);
  }

  // ------------------------------------------------------------------ the loops

  /** The accumulators after n rows. */
  ghost predicate Accumulated(data: seq<nat>, n: nat, p: nat, p0: nat, p1: nat, p2: nat, p3: nat)
  {
    && 4 * n <= |data| && p == QuadRows(data, n, DoubleRow())
    && p0 == Lane(data, n, 0) && p1 == Lane(data, n, 1) && p2 == Lane(data, n, 2) && p3 == Lane(data, n, 3)
  }

  lemma IndexNext(n: nat)
    requires n < 511
    ensures (DoubleRow()(n) + 0xff80_0080) % 0x1_0000_0000 == DoubleRow()(n + 1)
  {
  }

  /** One row of 128 bits. */
  method AddRow(p: nat, p0: nat, p1: nat, p2: nat, p3: nat, index: nat, t0: nat, t1: nat, t2: nat, t3: nat,
                ghost data: seq<nat>, ghost n: nat) returns (p': nat, p0': nat, p1': nat, p2': nat, p3': nat, index': nat)
    requires AreDwords(data) && Accumulated(data, n, p, p0, p1, p2, p3) && 4 * n + 4 <= |data| && n < 512
    requires t0 == data[4 * n] && t1 == data[4 * n + 1] && t2 == data[4 * n + 2] && t3 == data[4 * n + 3]
    requires index == DoubleRow()(n)
    ensures Accumulated(data, n + 1, p', p0', p1', p2', p3') && (n < 511 ==> index' == DoubleRow()(n + 1))
  {
    hide Xor, Odd, Mask, Pow2;
    p0', p1', p2', p3' := Xor(p0, t0), Xor(p1, t1), Xor(p2, t2), Xor(p3, t3);
    var t := Xor(Xor(Xor(t0, t1), t2), t3);
    XorBound(t0, t1, 32);
    XorBound(Xor(t0, t1), t2, 32);
    XorBound(Xor(Xor(t0, t1), t2), t3, 32);
    MaskIsParity(t);
    p' := Xor(p, Masked(Mask(t), index));
    index' := (index + 0xff80_0080) % 0x1_0000_0000;
    if n < 511 { IndexNext(n); }
  }

  lemma Steps(n: nat, k: nat)
    requires BlockSize(n, k)
    ensures n % 8 == 0 && n >= 256 && n <= 2048 && 8 <= k <= 11
    ensures n / 4 == Pow2(k - 2) && n / 4 <= 512
  {
    Sizes16(7, 9, 16);
    Pow2Add(k - 2, 2);
    TwoBits(2);
    Pow2Add(k - 3, 3);
    Eight(3);
    Pow2Monotone(8, k);
    Pow2Monotone(k, 11);
    Pow2Add(9, 2);
    Pow2Add(7, 1);
  }

  lemma Eight(n: nat)
    requires n == 3
    ensures Pow2(n) == 8
  {
    assert Pow2(3) == 8;
  }

  method AccumulateRows(ws: seq<nat>, header: bool, ghost k: nat) returns (p: nat, p0: nat, p1: nat, p2: nat, p3: nat)
    requires AreDwords(ws) && BlockSize(|ws|, k) && |ws| >= 2
    ensures Accumulated(Data(ws, header), |ws| / 4, p, p0, p1, p2, p3)
  {
    hide Pow2, AreDwords, Accumulated, DoubleRow;
    Steps(|ws|, k);
    ghost var data := Data(ws, header);
    DataWords(ws, header);
    p, p0, p1, p2, p3 := 0, 0, 0, 0, 0;
    var index, i, t0: nat, t1: nat := 0xff80_0000, 0, 0, 0;
    NothingAccumulated(data);
    while i < |ws|
      invariant i <= |ws| && i % 8 == 0 && |ws| % 8 == 0 && |data| == |ws|
      invariant i == 0 ==> t0 == 0 && t1 == 0
      invariant Accumulated(data, i / 4, p, p0, p1, p2, p3) && (i < |ws| ==> index == DoubleRow()(i / 4))
      decreases |ws| - i
    {
      if i > 0 || !header { t0, t1 := ws[i], ws[i + 1]; }
      ghost var n := i / 4;
      assert t0 == data[4 * n] && t1 == data[4 * n + 1];
      p, p0, p1, p2, p3, index := AddRow(p, p0, p1, p2, p3, index, t0, t1, ws[i + 2], ws[i + 3], data, n);
      p, p0, p1, p2, p3, index := AddRow(p, p0, p1, p2, p3, index, ws[i + 4], ws[i + 5], ws[i + 6], ws[i + 7], data, n + 1);
      i := i + 8;
      assert i / 4 == n + 2;
    }
  }

  lemma NothingAccumulated(data: seq<nat>)
    ensures Accumulated(data, 0, 0, 0, 0, 0, 0) && DoubleRow()(0) == 0xff80_0000
  {
  }

  method DoubleColumnParity(column: nat) returns (r: nat)
    requires column < Pow2(32)
    ensures r == RowFold(column, 0, DoubleColumn())
  {
    hide RowFold, Xor, Pow2, Shr;
    r := 0;
    XorNone(RowFold(column, 0, DoubleColumn()));
    ShrNone(column);
    var i: nat, index: nat := 0, 0xffff_0000;
    while i < 32
      invariant i <= 32 && index == DoubleColumn()(i)
      invariant Xor(r, RowFold(Shr(column, i), i, DoubleColumn())) == RowFold(column, 0, DoubleColumn())
    {
      ColumnNext(column, i, DoubleColumn(), r, RowFold(column, 0, DoubleColumn()));
      r := Xor(r, Picked(column, i, index));
      index := (index + 0xffff_0001) % 0x1_0000_0000;
      i := i + 1;
    }
    ShrSmall(column, 32);
    NoRow(32, DoubleColumn());
    XorNone(r);
  }

  /** lParityMask of an exclusive or, & bits. */
  function Parity(a: nat, b: nat, bits: nat): nat { Masked(Mask(Xor(a, b)), bits) }

  lemma ParityIs(data: seq<nat>, n: nat, c: nat, d: nat, bits: nat)
    requires AreDwords(data) && 4 * n <= |data| && c < 4 && d < 4
    ensures Parity(Lane(data, n, c), Lane(data, n, d), bits) == Pick(LaneBit(data, n, c) != LaneBit(data, n, d), bits)
  {
    hide Mask, Odd, Xor, Pow2, Lane, AreDwords;
    LaneBound(data, n, c);
    LaneBound(data, n, d);
    XorBound(Lane(data, n, c), Lane(data, n, d), 32);
    MaskIsParity(Xor(Lane(data, n, c), Lane(data, n, d)));
    OddXor(Lane(data, n, c), Lane(data, n, d));
  }

  lemma {:induction false} LaneBound(data: seq<nat>, n: nat, d: nat)
    requires AreDwords(data) && 4 * n <= |data| && d < 4
    ensures Lane(data, n, d) < Pow2(32)
    decreases n
  {
    hide Xor, Pow2;
    Positive(32);
    if n > 0 {
      LaneBound(data, n - 1, d);
      XorBound(Lane(data, n - 1, d), data[4 * (n - 1) + d], 32);
    }
  }

  lemma SplitHalves(q: nat, high: nat, low: nat)
    requires q == high * 0x10000 + low && low < 0x10000
    ensures q / 0x10000 == high && q % 0x10000 == low
  {
  }

  /** The row part of the assembled code. */
  lemma AssembledRows(data: seq<nat>, n: nat, j: nat, q: nat)
    requires |data| == 4 * n && n == Pow2(j) && j <= 9 && n <= 512
    requires q == QuadRows(data, n, DoubleRow())
      + Pick(LaneBit(data, n, 0) != LaneBit(data, n, 1), 0x40_0000) + Pick(LaneBit(data, n, 2) != LaneBit(data, n, 3), 0x40)
      + Pick(LaneBit(data, n, 0) != LaneBit(data, n, 2), 0x20_0000) + Pick(LaneBit(data, n, 1) != LaneBit(data, n, 3), 0x20)
    ensures q / 0x10000 % (128 * n) == 32 * Rows(data, RowComplement(4 * n))
    ensures q % 0x10000 == 32 * Rows(data, Position())
  {
    hide QuadRows, Rows, LaneBit, Pow2, Position, RowComplement, DoubleRow;
    DoubleRows(data, n);
    RowParts(data, n);
    var high := Pick(LaneBit(data, n, 0) != LaneBit(data, n, 1), 2) + Pick(LaneBit(data, n, 0) != LaneBit(data, n, 2), 1);
    var low := Pick(LaneBit(data, n, 2) != LaneBit(data, n, 3), 2) + Pick(LaneBit(data, n, 1) != LaneBit(data, n, 3), 1);
    HighRows(data, n, j, high);
    SplitHalves(q, 128 * QuadRows(data, n, RowComplement(512)) + 32 * high, 128 * QuadRows(data, n, Position()) + 32 * low);
  }

  /** The column part. */
  lemma AssembledColumns(column: nat, r: nat)
    requires column < Pow2(32) && r == RowFold(column, 0, DoubleColumn())
    ensures r / 0x10000 % 32 == RowFold(column, 0, RowComplement(32)) && r % 32 == RowFold(column, 0, Position())
  {
    hide RowFold, Low, Pow2;
    DoubleColumns(column, 0, 32);
    ColumnLow(column);
    SizeOfField(5);
    LowIsMod(RowFold(column, 0, NotColumn()), 5);
    SplitHalves(r, RowFold(column, 0, NotColumn()), RowFold(column, 0, Position()));
    RemainderOf32(r, RowFold(column, 0, NotColumn()), RowFold(column, 0, Position()));
  }

  lemma RemainderOf32(r: nat, high: nat, low: nat)
    requires r == high * 0x10000 + low && low < 32
    ensures r % 32 == low
  {
  }

  /** q & 0xffe0ffe0 & ((cb << 19) - 1) | r & 0x001f001f, where q has its ten other bits clear: the mask
      keeps the low half of q and reduces the high half modulo the number of bits in the block. */
  function Final(q: nat, r: nat, bits: nat): nat
    requires bits > 0
  {
    q / 0x10000 % bits * 0x10000 + q % 0x10000 + (r / 0x10000 % 32 * 0x10000 + r % 32)
  }

  lemma Assembled(data: seq<nat>, n: nat, q: nat, r: nat)
    requires AreDwords(data) && |data| == 4 * n && n > 0
    requires q / 0x10000 % (128 * n) == 32 * Rows(data, RowComplement(4 * n)) && q % 0x10000 == 32 * Rows(data, Position())
    requires r / 0x10000 % 32 == RowFold(XorAll(data), 0, RowComplement(32)) && r % 32 == RowFold(XorAll(data), 0, Position())
    ensures Final(q, r, 128 * n) == EccOf(data)
  {
    hide RowFold, Rows, XorAll, AreDwords, Fold;
    FoldsByRow(data);
  }

  lemma AccumulatedIs(data: seq<nat>, n: nat, p: nat, p0: nat, p1: nat, p2: nat, p3: nat)
    requires Accumulated(data, n, p, p0, p1, p2, p3)
    ensures 4 * n <= |data| && p == QuadRows(data, n, DoubleRow())
    ensures p0 == Lane(data, n, 0) && p1 == Lane(data, n, 1) && p2 == Lane(data, n, 2) && p3 == Lane(data, n, 3)
  {
  }

  /** Lines 737-785: the accumulated parities assembled. The four bits set in p by | are clear in it
      before, so that | adds them. */
  method Assemble(p: nat, p0: nat, p1: nat, p2: nat, p3: nat, size: nat, ghost data: seq<nat>, ghost n: nat, ghost k: nat)
    returns (ecc: nat, column: nat)
    requires AreDwords(data) && BlockSize(|data|, k) && size == 4 * |data| && |data| == 4 * n
    requires Accumulated(data, n, p, p0, p1, p2, p3)
    ensures column == XorAll(data) && ecc == EccOf(data)
  {
    hide *;
    Steps(|data|, k);
    AccumulatedIs(data, n, p, p0, p1, p2, p3);
    ParityIs(data, n, 0, 1, 0x40_0000);
    ParityIs(data, n, 2, 3, 0x40);
    ParityIs(data, n, 0, 2, 0x20_0000);
    ParityIs(data, n, 1, 3, 0x20);
    var q := p + Parity(p0, p1, 0x40_0000) + Parity(p2, p3, 0x40) + Parity(p0, p2, 0x20_0000) + Parity(p1, p3, 0x20);
    column := Xor(Xor(p0, p2), Xor(p1, p3));
    Lanes(data, n);
    assert data[..4 * n] == data;
    XorAllBound(data);
    var r := DoubleColumnParity(column);
    AssembledRows(data, n, k - 2, q);
    AssembledColumns(column, r);
    Assembled(data, n, q, r);
    ecc := Final(q, r, 8 * size);
  }

  /** The same checksum as ChecksumNewFormat64Bit, on every block. */
  method ChecksumNewFormatSlowly(ws: seq<nat>, pgno: nat, header: bool, ghost k: nat) returns (sum: Checksum)
    requires AreDwords(ws) && BlockSize(|ws|, k)
    ensures |ws| >= 2 && sum == NewChecksum(ws, pgno, header)
  {
    Steps(|ws|, k);
    hide Pow2, AreDwords, XorAll, EccOf, Xor, Accumulated;
    DataWords(ws, header);
    var p, p0, p1, p2, p3 := AccumulateRows(ws, header, k);
    var ecc, column := Assemble(p, p0, p1, p2, p3, 4 * |ws|, Data(ws, header), |ws| / 4, k);
    sum := Checksum(ecc, Xor(column, pgno));
  }
}
