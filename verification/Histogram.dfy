/** Histograms of codeword lengths: the completeness test of HuffmanDecodeVerifyTree and the depth
    limit of HuffmanTruncateTree, both in terms of the Kraft sum scaled to 2^63. */
module Histogram {
  import opened Powers
  import opened BitStrings
  import opened CodeLists

  /** The points taken by x symbols of length i. */
  ghost function Points(x: nat, i: nat): nat
    requires i <= UNIT
  {
    if x == 0 then 0 else Size(i) + Points(x - 1, i)
  }

  lemma {:induction false} PointsAre(x: nat, i: nat)
    requires i <= UNIT
    ensures Points(x, i) == x * Size(i)
  {
    hide Size;
    if x != 0 {
      PointsAre(x - 1, i);
      OneMoreTimes(x - 1, Size(i));
    }
  }

  lemma OneMoreTimes(x: nat, s: nat)
    ensures (x + 1) * s == s + x * s
  {
  }

  lemma {:induction false} PointsAdd(x: nat, y: nat, i: nat)
    requires i <= UNIT
    ensures Points(x + y, i) == Points(x, i) + Points(y, i)
  {
    if y != 0 { PointsAdd(x, y - 1, i); }
  }

  /** The points taken by all symbols of length i or more. */
  ghost function Kraft(c: seq<nat>, i: nat): nat
    requires |c| == LENGTH_LIMIT && i <= LENGTH_LIMIT
    decreases |c|, LENGTH_LIMIT - i
  {
    if i == LENGTH_LIMIT then 0 else Points(c[i], i) + Kraft(c, i + 1)
  }

  ghost function Leaves(c: seq<nat>, i: nat): nat
    requires |c| == LENGTH_LIMIT && i <= LENGTH_LIMIT
    decreases |c|, LENGTH_LIMIT - i
  {
    if i == LENGTH_LIMIT then 0 else c[i] + Leaves(c, i + 1)
  }

  /** No symbol has length 0 and the code tree is full: every inner node has two sons. */
  ghost predicate FullTree(c: seq<nat>)
    requires |c| == LENGTH_LIMIT
  {
    c[0] == 0 && Kraft(c, 1) == Pow2(UNIT)
  }

  lemma TermMultiple(x: nat, a: nat, b: nat)
    requires a <= b <= UNIT
    ensures Multiple(Points(x, a), Size(b))
  {
    PointsAre(x, a);
    MultipleIs(x * Size(a), x, Size(a));
    MultiplePow2(x * Size(a), UNIT - b, UNIT - a);
  }

  /** What the lengths from..to-1 contribute lies on the grid of length to - 1. */
  lemma {:induction false} KraftBetween(c: seq<nat>, from: nat, to: nat)
    requires |c| == LENGTH_LIMIT && 0 < from <= to <= LENGTH_LIMIT
    ensures Multiple(Kraft(c, from) - Kraft(c, to), Size(to - 1))
    ensures Kraft(c, to) <= Kraft(c, from)
    decreases LENGTH_LIMIT - from
  {
    if from == to {
      MultipleIs(0, 0, Size(to - 1));
    } else {
      KraftBetween(c, from + 1, to);
      TermMultiple(c[from], from, to - 1);
      MultipleSum(Points(c[from], from), Kraft(c, from + 1) - Kraft(c, to), Size(to - 1));
    }
  }

  lemma OddMultiple(x: int, n: nat, s: nat)
    requires s > 0 && x == n * s && Multiple(x, 2 * s)
    ensures n % 2 == 0
  {
    var k :| x == k * (2 * s);
    assert k * (2 * s) == (2 * k) * s;
    MulCancelEqual(n, 2 * k, s);
  }

  lemma SizeHalf(i: nat)
    requires 0 < i <= UNIT
    ensures Size(i - 1) == 2 * Size(i)
  {
    SizeMultiple(i - 1, i);
    assert Pow2(1) == 2;
  }

  /** If the lengths from i up leave an odd number of subtrees at level i, the tree is not full. */
  lemma OddIsNotFull(c: seq<nat>, i: nat, n: nat)
    requires |c| == LENGTH_LIMIT && 0 < i < LENGTH_LIMIT && n % 2 == 1
    requires Kraft(c, i) == Points(n, i)
    ensures Kraft(c, 1) != Pow2(UNIT)
  {
    if Kraft(c, 1) == Pow2(UNIT) {
      KraftBetween(c, 1, i);
      Pow2Multiple(UNIT - (i - 1), UNIT);
      MultipleSum(Pow2(UNIT), Kraft(c, 1) - Kraft(c, i), Size(i - 1));
      SizeHalf(i);
      PointsAre(n, i);
      OddMultiple(Kraft(c, i), n, Size(i));
    }
  }

  lemma {:induction false} HalvePoints(n: nat, i: nat)
    requires n % 2 == 0 && 0 < i <= UNIT
    ensures Points(n, i) == Points(n / 2, i - 1)
  {
    SizeHalf(i);
    if n != 0 {
      HalvePoints(n - 2, i);
      assert Points(n, i) == Size(i) + (Size(i) + Points(n - 2, i));
    }
  }

  lemma OneSubtree(n: nat)
    ensures Points(n, 0) == Pow2(UNIT) <==> n == 1
  {
    PointsAre(n, 0);
    if n * Size(0) == Size(0) { MulCancelEqual(n, 1, Size(0)); }
  }

  /** HuffmanDecodeVerifyTree: folding the levels bottom-up accepts exactly the full trees. */
  method HuffmanDecodeVerifyTree(c: array<nat>) returns (full: bool)
    requires c.Length == LENGTH_LIMIT
    ensures full <==> FullTree(c[..])
  {
    var n: nat := 0;
    var i: nat := LENGTH_LIMIT - 1;
    while true
      invariant 0 < i < LENGTH_LIMIT
      invariant Kraft(c[..], i + 1) == Points(n, i)
      decreases i
    {
      PointsAdd(n, c[i], i);
      n := n + c[i];
      if n % 2 != 0 {
        OddIsNotFull(c[..], i, n);
        return false;
      }
      HalvePoints(n, i);
      n := n / 2;
      i := i - 1;
      if i == 0 { break; }
    }
    OneSubtree(n);
    return n == 1 && c[0] == 0;
  }
}
