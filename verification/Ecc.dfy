/** The new page checksum (checksum_amd64.cxx): an error-correcting code that is the exclusive or of the
    positions of all set bits, paired with their complements, and the exclusive or of all words. */
module Ecc {
  import opened Powers
  import opened BitStrings
  import opened XorWords

  ghost predicate AreDwords(ws: seq<nat>) { forall i :: 0 <= i < |ws| ==> ws[i] < Pow2(32) }

  /** The exclusive or of f(i) over the positions i of the set bits of w, whose bit 0 is at position i. */
  ghost function RowFold(w: nat, i: nat, f: nat -> nat): nat
  {
    if w == 0 then 0 else Xor(if w % 2 == 1 then f(i) else 0, RowFold(w / 2, i + 1, f))
  }

  /** The same over the set bits of a block of 32-bit words. */
  ghost function Fold(ws: seq<nat>, f: nat -> nat): nat
  {
    if ws == [] then 0
    else Xor(Fold(ws[..|ws| - 1], f), RowFold(ws[|ws| - 1], 32 * (|ws| - 1), f))
  }

  ghost function XorAll(ws: seq<nat>): nat
  {
    if ws == [] then 0 else Xor(XorAll(ws[..|ws| - 1]), ws[|ws| - 1])
  }

  ghost function Position(): nat -> nat { (i: nat) => i }

  /** The complement of a position within a block whose last position is top. */
  ghost function Complement(top: int): nat -> nat { (i: nat) => if i <= top then top - i else 0 }

  /** The code of a block: the folded complements in the high half, the folded positions in the low one. */
  ghost function EccOf(ws: seq<nat>): nat
  {
    Fold(ws, Complement(32 * |ws| - 1)) * 0x10000 + Fold(ws, Position())
  }

  // XECHECKSUM: the code in the high dword, the exclusive or of the words and the page number in the low one.
  datatype Checksum = Checksum(ecc: nat, xor: nat)

  /** A header block holds its own checksum in its first two words; they count as 0. */
  ghost function Data(ws: seq<nat>, header: bool): (d: seq<nat>)
    requires |ws| >= 2
    ensures |d| == |ws|
  {
    if header then [0, 0] + ws[2..] else ws
  }

  ghost function NewChecksum(ws: seq<nat>, pgno: nat, header: bool): Checksum
    requires |ws| >= 2
  {
    Checksum(EccOf(Data(ws, header)), Xor(XorAll(Data(ws, header)), pgno))
  }

  // ------------------------------------------------------------------ folds are linear

  lemma RowNext(w: nat, i: nat, f: nat -> nat)
    ensures RowFold(w, i, f) == Xor(if w % 2 == 1 then f(i) else 0, RowFold(w / 2, i + 1, f))
  {
    if w == 0 { XorNone(0); }
  }

  lemma {:induction false} RowXor(a: nat, b: nat, i: nat, f: nat -> nat)
    ensures RowFold(Xor(a, b), i, f) == Xor(RowFold(a, i, f), RowFold(b, i, f))
    decreases a + b
  {
    if a == 0 && b == 0 {
      XorNone(0);
    } else {
      RowXor(a / 2, b / 2, i + 1, f);
      hide *;
      XorBits(a, b);
      RowNext(a, i, f);
      RowNext(b, i, f);
      RowNext(Xor(a, b), i, f);
      var x, y := if a % 2 == 1 then f(i) else 0, if b % 2 == 1 then f(i) else 0;
      XorPairs(x, RowFold(a / 2, i + 1, f), y, RowFold(b / 2, i + 1, f));
      BothOrNone(a, b, f(i));
    }
  }

  lemma BothOrNone(a: nat, b: nat, v: nat)
    ensures Xor(if a % 2 == 1 then v else 0, if b % 2 == 1 then v else 0) == if (a + b) % 2 == 1 then v else 0
  {
    XorEqual(v, v);
    XorNone(v);
    XorNone(0);
  }

  // ------------------------------------------------------------------ rows and columns

  /** f splits into a row part and a column part of five bits. */
  ghost predicate Splits(f: nat -> nat, rows: nat, g: nat -> nat, h: nat -> nat)
  {
    && (forall r: nat, c: nat {:trigger g(r), h(c)} :: r < rows && c < 32 ==> f(32 * r + c) == Shl(g(r), 5) + h(c))
    && forall c: nat :: c < 32 ==> h(c) < 32
  }

  lemma FiveBits(n: nat)
    requires n == 5
    ensures Pow2(n) == 32
  {
    assert Pow2(5) == 32;
  }

  lemma {:induction false} ColumnBound(w: nat, c: nat, h: nat -> nat, n: nat)
    requires w < Pow2(n) && n + c == 32 && forall k: nat :: k < 32 ==> h(k) < 32
    ensures RowFold(w, c, h) < 32
    decreases n
  {
    FiveBits(5);
    if w != 0 {
      ColumnBound(w / 2, c + 1, h, n - 1);
      XorBound(if w % 2 == 1 then h(c) else 0, RowFold(w / 2, c + 1, h), 5);
    }
  }

  lemma {:induction false} RowSplit(w: nat, r: nat, c: nat, f: nat -> nat, rows: nat, g: nat -> nat, h: nat -> nat, n: nat)
    requires w < Pow2(n) && n + c == 32 && r < rows && Splits(f, rows, g, h)
    ensures RowFold(w, 32 * r + c, f) == Shl(if Odd(w) then g(r) else 0, 5) + RowFold(w, c, h)
    decreases n
  {
    hide *;
    FiveBits(5);
    ShlZero(5);
    if w == 0 {
      NoRow(32 * r + c, f);
      NoRow(c, h);
      NotOdd();
    } else {
      HalfWord(w, n);
      RowSplit(w / 2, r, c + 1, f, rows, g, h, n - 1);
      SplitMeans(f, rows, g, h);
      SplitAt(f, rows, g, h, r, c);
      ColumnBound(w / 2, c + 1, h, n - 1);
      OddBits(w);
      RowNext(w, 32 * r + c, f);
      RowNext(w, c, h);
      var low := RowFold(w / 2, c + 1, h);
      var high := if Odd(w / 2) then g(r) else 0;
      if w % 2 == 1 {
        XorFields(g(r), h(c), high, low, 5);
        XorEqual(g(r), g(r));
        XorNone(g(r));
      } else {
        XorNone(Shl(high, 5) + low);
        XorNone(low);
      }
    }
  }

  lemma NotOdd()
    ensures !Odd(0)
  {
  }

  lemma HalfWord(w: nat, n: nat)
    requires 0 < w < Pow2(n)
    ensures n > 0 && w / 2 < Pow2(n - 1)
  {
  }

  lemma SplitMeans(f: nat -> nat, rows: nat, g: nat -> nat, h: nat -> nat)
    requires Splits(f, rows, g, h)
    ensures forall k: nat :: k < 32 ==> h(k) < 32
  {
  }

  lemma SplitAt(f: nat -> nat, rows: nat, g: nat -> nat, h: nat -> nat, r: nat, c: nat)
    requires Splits(f, rows, g, h) && r < rows && c < 32
    ensures f(32 * r + c) == Shl(g(r), 5) + h(c) && h(c) < 32
  {
    var x, y := g(r), h(c);
  }

  /** The exclusive or of g(r) over the rows of odd parity. */
  ghost function Rows(ws: seq<nat>, g: nat -> nat): nat
  {
    if ws == [] then 0
    else Xor(Rows(ws[..|ws| - 1], g), if Odd(ws[|ws| - 1]) then g(|ws| - 1) else 0)
  }

  lemma {:induction false} XorAllBound(ws: seq<nat>)
    requires AreDwords(ws)
    ensures XorAll(ws) < Pow2(32)
  {
    hide Pow2;
    Positive(32);
    if ws != [] {
      XorAllBound(ws[..|ws| - 1]);
      XorBound(XorAll(ws[..|ws| - 1]), ws[|ws| - 1], 32);
    }
  }

  lemma Positive(n: nat)
    ensures Pow2(n) > 0
  {
  }

  /** A fold is made of row parities and column parities. */
  lemma {:induction false} FoldSplit(ws: seq<nat>, f: nat -> nat, rows: nat, g: nat -> nat, h: nat -> nat)
    requires AreDwords(ws) && |ws| <= rows && Splits(f, rows, g, h)
    ensures Fold(ws, f) == Shl(Rows(ws, g), 5) + RowFold(XorAll(ws), 0, h)
    decreases |ws|
  {
    hide Pow2, Shl, RowFold, Xor, Odd;
    if ws == [] {
      ShlZero(5);
      NoRow(0, h);
    } else {
      var before, w := ws[..|ws| - 1], ws[|ws| - 1];
      FoldSplit(before, f, rows, g, h);
      RowSplit(w, |ws| - 1, 0, f, rows, g, h, 32);
      XorAllBound(before);
      ColumnBound(XorAll(before), 0, h, 32);
      ColumnBound(w, 0, h, 32);
      FiveBits(5);
      XorFields(Rows(before, g), RowFold(XorAll(before), 0, h), if Odd(w) then g(|ws| - 1) else 0, RowFold(w, 0, h), 5);
      RowXor(XorAll(before), w, 0, h);
    }
  }

  lemma NoRow(i: nat, f: nat -> nat)
    ensures RowFold(0, i, f) == 0
  {
  }
}
