/** ChecksumNewFormat64Bit (checksum_amd64.cxx:1331-1435): row and column parities. */
module EccRows {
  import opened Powers
  import opened BitStrings
  import opened XorWords
  import opened ParityMask
  import opened Ecc

  /** The source's block sizes: 1, 2, 4 or 8 KiB, in words. */
  ghost predicate BlockSize(n: nat, k: nat) { 8 <= k <= 11 && n == Pow2(k) }

  ghost function NotRow(): nat -> nat { (r: nat) => if r < 0x1_0000_0000 then 0xffff_ffff - r else 0 }

  ghost function RowComplement(rows: nat): nat -> nat { (r: nat) => if r < rows then rows - 1 - r else 0 }

  // ------------------------------------------------------------------ low bits of folds

  lemma LowOfZero(k: nat)
    ensures Low(0, k) == 0
  {
    LowSmall(0, k);
  }

  lemma {:induction false} RowsLow(ws: seq<nat>, g: nat -> nat, g': nat -> nat, k: nat)
    requires forall r: nat :: r < |ws| ==> Low(g(r), k) == g'(r)
    ensures Low(Rows(ws, g), k) == Rows(ws, g')
  {
    hide Low, Xor, Odd;
    LowOfZero(k);
    if ws != [] {
      var before, w := ws[..|ws| - 1], ws[|ws| - 1];
      RowsLow(before, g, g', k);
      XorParts(Rows(before, g), if Odd(w) then g(|ws| - 1) else 0, k);
    }
  }

  lemma {:induction false} RowFoldLow(w: nat, i: nat, f: nat -> nat, f': nat -> nat, k: nat, n: nat)
    requires w < Pow2(n) && n + i == 32 && forall c: nat :: c < 32 ==> Low(f(c), k) == f'(c)
    ensures Low(RowFold(w, i, f), k) == RowFold(w, i, f')
    decreases n
  {
    hide Low, Xor;
    LowOfZero(k);
    if w != 0 {
      RowFoldLow(w / 2, i + 1, f, f', k, n - 1);
      XorParts(if w % 2 == 1 then f(i) else 0, RowFold(w / 2, i + 1, f), k);
    }
  }

  lemma LowOfNot(r: nat, k: nat, m: nat)
    requires r < Pow2(k) <= Pow2(m) && k <= m
    ensures Low(Pow2(m) - 1 - r, k) == Pow2(k) - 1 - r
  {
    hide *;
    Pow2Add(m - k, k);
    Positive(m - k);
    TopPart(Pow2(m - k), Pow2(k), r);
    ShlIs(Pow2(m - k) - 1, k);
    LowOfField(Pow2(m - k) - 1, Pow2(k) - 1 - r, k);
  }

  lemma TopPart(a: nat, b: nat, r: nat)
    requires a > 0 && r < b
    ensures a * b - 1 - r == (a - 1) * b + (b - 1 - r)
  {
  }

  lemma LowOfNotRow(r: nat, k: nat)
    requires r < Pow2(k) && k <= 32
    ensures Low(NotRow()(r), k) == Pow2(k) - 1 - r
  {
    hide Pow2, Low;
    Pow2Of32();
    Pow2Monotone(k, 32);
    LowOfNot(r, k, 32);
  }

  lemma PositionSplits(rows: nat)
    ensures Splits(Position(), rows, Position(), Position())
  {
    forall r: nat {:trigger Shl(r, 5)} ensures Shl(r, 5) == 32 * r { TimesRow(r, 5); }
  }

  lemma TimesRow(r: nat, n: nat)
    requires n == 5
    ensures Shl(r, n) == 32 * r
  {
    ShlIs(r, n);
    FiveBits(n);
  }

  lemma ComplementSplits(rows: nat)
    ensures Splits(Complement(32 * rows - 1), rows, RowComplement(rows), RowComplement(32))
  {
    forall r: nat {:trigger Shl(r, 5)} ensures Shl(r, 5) == 32 * r { TimesRow(r, 5); }
  }

  lemma SizeOfField(n: nat)
    requires n == 5
    ensures Pow2(n) == 32
  {
    FiveBits(n);
  }

  lemma RowLows(rows: nat, k: nat, r: nat)
    requires rows == Pow2(k) && k <= 32 && r < rows
    ensures Low(NotRow()(r), k) == RowComplement(rows)(r) && Low(Position()(r), k) == Position()(r)
  {
    LowOfNotRow(r, k);
    LowSmall(r, k);
  }

  /** Folds by rows and columns. */
  lemma FoldsByRow(data: seq<nat>)
    requires AreDwords(data)
    ensures Fold(data, Position()) == 32 * Rows(data, Position()) + RowFold(XorAll(data), 0, Position())
    ensures Fold(data, Complement(32 * |data| - 1))
            == 32 * Rows(data, RowComplement(|data|)) + RowFold(XorAll(data), 0, RowComplement(32))
  {
    hide *;
    var rows := |data|;
    PositionSplits(rows);
    FoldSplit(data, Position(), rows, Position(), Position());
    TimesRow(Rows(data, Position()), 5);
    ComplementSplits(rows);
    FoldSplit(data, Complement(32 * rows - 1), rows, RowComplement(rows), RowComplement(32));
    TimesRow(Rows(data, RowComplement(rows)), 5);
  }

  lemma PositionFold(data: seq<nat>, k: nat)
    requires AreDwords(data) && |data| == Pow2(k) && k <= 32
    ensures Fold(data, Position())
            == 32 * Low(Rows(data, Position()), k) + Low(RowFold(XorAll(data), 0, Position()), 5)
  {
    hide *;
    var rows := |data|;
    XorAllBound(data);
    FoldsByRow(data);
    forall i: nat | i < rows ensures Low(Position()(i), k) == Position()(i) { RowLows(rows, k, i); }
    RowsLow(data, Position(), Position(), k);
    SizeOfField(5);
    forall c: nat | c < 32 ensures Low(Position()(c), 5) == Position()(c) { RowLows(32, 5, c); }
    RowFoldLow(XorAll(data), 0, Position(), Position(), 5, 32);
  }

  lemma ComplementFold(data: seq<nat>, k: nat)
    requires AreDwords(data) && |data| == Pow2(k) && k <= 32
    ensures Fold(data, Complement(32 * |data| - 1))
            == 32 * Low(Rows(data, NotRow()), k) + Low(RowFold(XorAll(data), 0, NotRow()), 5)
  {
    hide *;
    var rows := |data|;
    XorAllBound(data);
    FoldsByRow(data);
    forall i: nat | i < rows ensures Low(NotRow()(i), k) == RowComplement(rows)(i) { RowLows(rows, k, i); }
    RowsLow(data, NotRow(), RowComplement(rows), k);
    SizeOfField(5);
    forall c: nat | c < 32 ensures Low(NotRow()(c), 5) == RowComplement(32)(c) { RowLows(32, 5, c); }
    RowFoldLow(XorAll(data), 0, NotRow(), RowComplement(32), 5, 32);
  }

  /** The code of a block, from its row and column parities. */
  lemma EccFromParities(data: seq<nat>, k: nat, p: nat, q: nat, r: nat, s: nat)
    requires AreDwords(data) && BlockSize(|data|, k)
    requires p == Rows(data, Position()) && q == Rows(data, NotRow())
    requires r == RowFold(XorAll(data), 0, Position()) && s == RowFold(XorAll(data), 0, NotRow())
    ensures EccOf(data) == Low(q, k) * 0x20_0000 + Low(s, 5) * 0x1_0000 + Low(p, k) * 0x20 + Low(r, 5)
  {
    hide Fold, RowFold, Rows, XorAll, Low, Pow2, AreDwords;
    PositionFold(data, k);
    ComplementFold(data, k);
  }

  // ------------------------------------------------------------------ the loops

  /** -!!(w & (1 << i)) & v. */
  function Picked(w: nat, i: nat, v: nat): nat { if Shr(w, i) % 2 == 1 then v else 0 }

  /** mask & v, for a mask that is 0 or all ones. */
  function Masked(mask: int, v: nat): nat { if mask == 0 then 0 else v }

  lemma RowsNext(ws: seq<nat>, i: nat, g: nat -> nat)
    requires i < |ws|
    ensures Rows(ws[..i + 1], g) == Xor(Rows(ws[..i], g), if Odd(ws[i]) then g(i) else 0)
    ensures XorAll(ws[..i + 1]) == Xor(XorAll(ws[..i]), ws[i])
  {
    assert ws[..i + 1][..i] == ws[..i];
  }

  lemma BlankRows(ws: seq<nat>, g: nat -> nat)
    requires |ws| >= 2
    ensures Rows(Data(ws, true)[..2], g) == 0 && XorAll(Data(ws, true)[..2]) == 0
    ensures Rows(Data(ws, false)[..0], g) == 0 && XorAll(Data(ws, false)[..0]) == 0
  {
    var two := Data(ws, true)[..2];
    assert two == [0, 0] && two[..1] == [0] && [0][..0] == [];
    assert Rows([], g) == 0 && XorAll([]) == 0;
    XorNone(0);
    assert Rows([0], g) == 0 && XorAll([0]) == 0;
  }

  method RowParities(ws: seq<nat>, header: bool) returns (p: nat, q: nat, column: nat)
    requires AreDwords(ws) && 2 <= |ws| <= 0x1_0000_0000
    ensures var data := Data(ws, header);
      p == Rows(data, Position()) && q == Rows(data, NotRow()) && column == XorAll(data)
  {
    hide Rows, XorAll, Xor, Odd, Pow2, Mask;
    ghost var data := Data(ws, header);
    BlankRows(ws, Position());
    BlankRows(ws, NotRow());
    p, q, column := 0, 0, 0;
    var row: nat := if header then 2 else 0;
    while row < |ws|
      invariant row <= |ws| && (header ==> row >= 2)
      invariant p == Rows(data[..row], Position()) && q == Rows(data[..row], NotRow()) && column == XorAll(data[..row])
    {
      assert data[row] == ws[row];
      RowsNext(data, row, Position());
      RowsNext(data, row, NotRow());
      MaskIsParity(ws[row]);
      column := Xor(column, ws[row]);
      var mask := Mask(ws[row]);
      p := Xor(p, Masked(mask, row));
      q := Xor(q, Masked(mask, 0xffff_ffff - row));
      row := row + 1;
    }
    assert data[..row] == data;
  }

  lemma ColumnNext(w: nat, i: nat, f: nat -> nat, x: nat, all: nat)
    requires Xor(x, RowFold(Shr(w, i), i, f)) == all
    ensures Xor(Xor(x, Picked(w, i, f(i))), RowFold(Shr(w, i + 1), i + 1, f)) == all
  {
    hide Xor, RowFold;
    RowNext(Shr(w, i), i, f);
    ShrTwice(w, i, 1);
    ShrOne(Shr(w, i));
    XorAssoc(x, Picked(w, i, f(i)), RowFold(Shr(w, i + 1), i + 1, f));
  }

  lemma ShrOne(w: nat)
    ensures Shr(w, 1) == w / 2
  {
  }

  method ColumnParities(column: nat) returns (r: nat, s: nat)
    requires column < Pow2(32)
    ensures r == RowFold(column, 0, Position()) && s == RowFold(column, 0, NotRow())
  {
    hide RowFold, Xor, Pow2, Shr;
    r, s := 0, 0;
    XorNone(RowFold(column, 0, Position()));
    XorNone(RowFold(column, 0, NotRow()));
    ShrNone(column);
    var i: nat := 0;
    while i < 32
      invariant i <= 32
      invariant Xor(r, RowFold(Shr(column, i), i, Position())) == RowFold(column, 0, Position())
      invariant Xor(s, RowFold(Shr(column, i), i, NotRow())) == RowFold(column, 0, NotRow())
    {
      ColumnNext(column, i, Position(), r, RowFold(column, 0, Position()));
      ColumnNext(column, i, NotRow(), s, RowFold(column, 0, NotRow()));
      r := Xor(r, Picked(column, i, i));
      s := Xor(s, Picked(column, i, 0xffff_ffff - i));
      i := i + 1;
    }
    ShrSmall(column, 32);
    NoRow(32, Position());
    NoRow(32, NotRow());
    XorNone(r);
    XorNone(s);
  }

  lemma ShrNone(w: nat)
    ensures Shr(w, 0) == w
  {
  }

  lemma Sizes(n: nat, k: nat)
    requires BlockSize(n, k)
    ensures 2 <= n <= 0x1_0000_0000
  {
    Pow2Monotone(1, k);
    Pow2Monotone(k, 32);
    Pow2Of32();
    assert Pow2(1) == 2;
  }

  lemma DataWords(ws: seq<nat>, header: bool)
    requires AreDwords(ws) && |ws| >= 2
    ensures AreDwords(Data(ws, header))
  {
    hide Pow2;
    Positive(32);
  }

  /** ChecksumNewFormat64Bit: x & (cRow - 1) is x % cRow for the powers of two that are block sizes. */
  method ChecksumNewFormat64Bit(ws: seq<nat>, pgno: nat, header: bool, ghost k: nat) returns (sum: Checksum)
    requires AreDwords(ws) && BlockSize(|ws|, k)
    ensures |ws| >= 2 && sum == NewChecksum(ws, pgno, header)
  {
    hide Rows, XorAll, Xor, Pow2, EccOf, RowFold, Low, AreDwords;
    Sizes(|ws|, k);
    ghost var data := Data(ws, header);
    DataWords(ws, header);
    var p, q, column := RowParities(ws, header);
    XorAllBound(data);
    var r, s := ColumnParities(column);
    EccFromParities(data, k, p, q, r, s);
    LowIsMod(q, k);
    LowIsMod(p, k);
    SizeOfField(5);
    LowIsMod(s, 5);
    LowIsMod(r, 5);
    var rows := |ws|;
    var ecc := q % rows * 0x20_0000 + s % 32 * 0x1_0000 + p % rows * 0x20 + r % 32;
    sum := Checksum(ecc, Xor(column, pgno));
  }
}
