/** What flipping bits of a block does to its checksum. */
module BitFlips {
  import opened Powers
  import opened BitStrings
  import opened XorWords
  import opened Ecc

  /** Bit i of a block flipped. */
  function FlipAt(ws: seq<nat>, i: nat): (r: seq<nat>)
    requires i / 32 < |ws|
    ensures |r| == |ws|
  {
    ws[i / 32 := Xor(ws[i / 32], Pow2(i % 32))]
  }

  lemma {:induction false} PowerFold(c: nat, i: nat, f: nat -> nat)
    ensures RowFold(Pow2(c), i, f) == f(i + c)
    decreases c
  {
    if c == 0 {
      NoRow(i + 1, f);
      XorNone(f(i));
      RowNext(1, i, f);
    } else {
      PowerFold(c - 1, i + 1, f);
      RowNext(Pow2(c), i, f);
      XorNone(f(i + c));
    }
  }

  lemma {:induction false} FoldFlip(ws: seq<nat>, r: nat, d: nat, f: nat -> nat)
    requires r < |ws|
    ensures Fold(ws[r := Xor(ws[r], d)], f) == Xor(Fold(ws, f), RowFold(d, 32 * r, f))
    ensures XorAll(ws[r := Xor(ws[r], d)]) == Xor(XorAll(ws), d)
    decreases |ws|
  {
    hide Xor, RowFold;
    var n := |ws| - 1;
    var ws' := ws[r := Xor(ws[r], d)];
    if r == n {
      assert ws'[..n] == ws[..n];
      RowXor(ws[n], d, 32 * n, f);
      XorAssoc(Fold(ws[..n], f), RowFold(ws[n], 32 * n, f), RowFold(d, 32 * n, f));
      XorAssoc(XorAll(ws[..n]), ws[n], d);
    } else {
      FoldFlip(ws[..n], r, d, f);
      assert ws'[..n] == ws[..n][r := Xor(ws[..n][r], d)];
      Reorder(Fold(ws[..n], f), RowFold(d, 32 * r, f), RowFold(ws[n], 32 * n, f));
      Reorder(XorAll(ws[..n]), d, ws[n]);
    }
  }

  lemma Reorder(a: nat, b: nat, c: nat)
    ensures Xor(Xor(a, b), c) == Xor(Xor(a, c), b)
  {
    hide Xor;
    XorAssoc(a, b, c);
    XorAssoc(a, c, b);
    XorSwap(b, c);
  }

  /** The folds after a flip. */
  lemma FlipFolds(ws: seq<nat>, i: nat, f: nat -> nat)
    requires i / 32 < |ws|
    ensures Fold(FlipAt(ws, i), f) == Xor(Fold(ws, f), f(i))
    ensures XorAll(FlipAt(ws, i)) == Xor(XorAll(ws), Pow2(i % 32))
  {
    hide Xor, RowFold, Fold, XorAll, Pow2;
    FoldFlip(ws, i / 32, Pow2(i % 32), f);
    PowerFold(i % 32, 32 * (i / 32), f);
  }

  lemma {:induction false} FoldBound(ws: seq<nat>, f: nat -> nat, n: nat)
    requires AreDwords(ws) && forall i: nat :: i < 32 * |ws| ==> f(i) < Pow2(n)
    ensures Fold(ws, f) < Pow2(n)
    decreases |ws|
  {
    hide Xor, RowFold, Pow2;
    Positive(n);
    if ws != [] {
      FoldBound(ws[..|ws| - 1], f, n);
      RowFoldBound(ws[|ws| - 1], 32 * (|ws| - 1), f, n, 32);
      XorBound(Fold(ws[..|ws| - 1], f), RowFold(ws[|ws| - 1], 32 * (|ws| - 1), f), n);
    }
  }

  lemma {:induction false} RowFoldBound(w: nat, i: nat, f: nat -> nat, n: nat, bits: nat)
    requires w < Pow2(bits) && forall j: nat :: i <= j < i + bits ==> f(j) < Pow2(n)
    ensures RowFold(w, i, f) < Pow2(n)
    decreases bits
  {
    hide Xor;
    Positive(n);
    if w != 0 {
      RowFoldBound(w / 2, i + 1, f, n, bits - 1);
      hide Pow2;
      XorBound(if w % 2 == 1 then f(i) else 0, RowFold(w / 2, i + 1, f), n);
    }
  }

  /** A block whose positions have k bits, at most sixteen. */
  ghost predicate Sized(ws: seq<nat>, k: nat)
  {
    AreDwords(ws) && 5 <= k <= 16 && 32 * |ws| == Pow2(k)
  }

  lemma TopBits(k: nat)
    requires k <= 16
    ensures Pow2(k) <= 0x10000
  {
    Pow2Monotone(k, 16);
    SizeOf16(16);
  }

  lemma SizeOf16(n: nat)
    requires n == 16
    ensures Pow2(n) == 0x10000
  {
    assert Pow2(8) == 0x100;
    Pow2Add(8, 8);
  }

  lemma FoldsFit(ws: seq<nat>, k: nat)
    requires Sized(ws, k)
    ensures Fold(ws, Complement(32 * |ws| - 1)) < Pow2(k) && Fold(ws, Position()) < Pow2(k) <= 0x10000
  {
    hide Fold, AreDwords;
    TopBits(k);
    FoldBound(ws, Complement(32 * |ws| - 1), k);
    FoldBound(ws, Position(), k);
  }

  lemma Fields16(a: nat, b: nat, c: nat, d: nat)
    requires b < 0x10000 && d < 0x10000
    ensures Xor(a * 0x10000 + b, c * 0x10000 + d) == Xor(a, c) * 0x10000 + Xor(b, d)
  {
    hide Xor, Shl, Pow2;
    SizeOf16(16);
    ShlIs(a, 16);
    ShlIs(c, 16);
    ShlIs(Xor(a, c), 16);
    XorFields(a, b, c, d, 16);
  }

  /** A flip changes the code by the flipped position and its complement. */
  lemma FlipEcc(ws: seq<nat>, i: nat, k: nat)
    requires Sized(ws, k) && i < 32 * |ws|
    ensures Xor(EccOf(FlipAt(ws, i)), EccOf(ws)) == (32 * |ws| - 1 - i) * 0x10000 + i
    ensures Xor(XorAll(FlipAt(ws, i)), XorAll(ws)) == Pow2(i % 32)
    ensures Sized(FlipAt(ws, i), k)
  {
    hide *;
    FlipStaysSized(ws, i, k);
    var ws' := FlipAt(ws, i);
    var top := 32 * |ws| - 1;
    FoldsFit(ws, k);
    FoldsFit(ws', k);
    SizedWords(ws, i, k);
    FlipFolds(ws, i, Complement(top));
    FlipFolds(ws, i, Position());
    EccIs(ws);
    EccIs(ws');
    Fields16(Fold(ws', Complement(top)), Fold(ws', Position()), Fold(ws, Complement(top)), Fold(ws, Position()));
    XorBack(Fold(ws, Complement(top)), Complement(top)(i));
    XorBack(Fold(ws, Position()), Position()(i));
    XorBack(XorAll(ws), Pow2(i % 32));
    PairOf(top, i);
  }

  lemma XorBack(x: nat, v: nat)
    ensures Xor(Xor(x, v), x) == v
  {
    XorSwap(x, v);
    XorCancel(v, x);
  }

  lemma PairOf(top: nat, i: nat)
    requires i <= top
    ensures Complement(top)(i) == top - i && Position()(i) == i
  {
  }

  lemma SizedWords(ws: seq<nat>, i: nat, k: nat)
    requires Sized(ws, k) && i < 32 * |ws|
    ensures i / 32 < |ws|
  {
  }

  lemma EccIs(ws: seq<nat>)
    ensures EccOf(ws) == Fold(ws, Complement(32 * |ws| - 1)) * 0x10000 + Fold(ws, Position())
  {
  }

  lemma FlipStaysSized(ws: seq<nat>, i: nat, k: nat)
    requires Sized(ws, k) && i < 32 * |ws|
    ensures Sized(FlipAt(ws, i), k)
  {
    hide Xor, Pow2;
    Pow2Monotone(i % 32 + 1, 32);
    Pow2Monotone(i % 32, 32);
    PowerBelow(i % 32);
    XorBound(ws[i / 32], Pow2(i % 32), 32);
  }

  lemma PowerBelow(c: nat)
    requires c < 32
    ensures Pow2(c) < Pow2(32)
  {
    Pow2Monotone(c, 32);
  }

  /** Flipping twice restores. */
  lemma FlipTwice(ws: seq<nat>, i: nat)
    requires i / 32 < |ws|
    ensures FlipAt(FlipAt(ws, i), i) == ws
  {
    hide Xor, Pow2;
    XorCancel(ws[i / 32], Pow2(i % 32));
  }
}
