/** HuffmanTruncateTree (Xpress9EncHuffman.c:460-508): limiting the depth of a code tree by rewriting
    its histogram of codeword lengths in place. */
module TruncateTree {
  import opened Powers
  import opened BitStrings
  import opened CodeLists
  import opened Histogram

  ghost predicate NoneBelow(c: seq<nat>, i: nat)
    requires |c| == LENGTH_LIMIT
  {
    forall m :: i < m < LENGTH_LIMIT ==> c[m] == 0
  }

  lemma {:induction false} Update(c: seq<nat>, j: nat, x: nat, i: nat)
    requires |c| == LENGTH_LIMIT && j < LENGTH_LIMIT && i <= LENGTH_LIMIT
    ensures i <= j ==> Kraft(c[j := x], i) + Points(c[j], j) == Kraft(c, i) + Points(x, j)
    ensures i <= j ==> Leaves(c[j := x], i) + c[j] == Leaves(c, i) + x
    ensures i > j ==> Kraft(c[j := x], i) == Kraft(c, i) && Leaves(c[j := x], i) == Leaves(c, i)
    decreases |c|, LENGTH_LIMIT - i
  {
    if i < LENGTH_LIMIT { Update(c, j, x, i + 1); }
  }

  lemma {:induction false} EmptyBelow(c: seq<nat>, i: nat)
    requires |c| == LENGTH_LIMIT && i <= LENGTH_LIMIT && forall m :: i <= m < LENGTH_LIMIT ==> c[m] == 0
    ensures Kraft(c, i) == 0 && Leaves(c, i) == 0
    decreases |c|, LENGTH_LIMIT - i
  {
    if i < LENGTH_LIMIT { EmptyBelow(c, i + 1); }
  }

  lemma {:induction false} EmptyAbove(c: seq<nat>, i: nat, max: nat)
    requires |c| == LENGTH_LIMIT && i <= max <= LENGTH_LIMIT && forall m :: i <= m < max ==> c[m] == 0
    ensures Kraft(c, i) == Kraft(c, max) && Leaves(c, i) == Leaves(c, max)
    decreases |c|, LENGTH_LIMIT - i
  {
    if i < max { EmptyAbove(c, i + 1, max); }
  }

  /** The deepest level of a full tree holds an even number of leaves. */
  lemma DeepestIsEven(c: seq<nat>, i: nat)
    requires |c| == LENGTH_LIMIT && 0 < i < LENGTH_LIMIT && FullTree(c) && NoneBelow(c, i)
    ensures c[i] % 2 == 0
  {
    EmptyBelow(c, i + 1);
    if c[i] % 2 == 1 { OddIsNotFull(c, i, c[i]); }
  }

  lemma {:induction false} LeavesAreSmall(c: seq<nat>, i: nat, max: nat)
    requires |c| == LENGTH_LIMIT && max <= i <= LENGTH_LIMIT && max < LENGTH_LIMIT
    ensures Kraft(c, i) <= Leaves(c, i) * Size(max)
    ensures forall m {:trigger c[m]} :: i <= m < LENGTH_LIMIT && m > max && c[m] > 0 ==> Kraft(c, i) < Leaves(c, i) * Size(max)
    decreases |c|, LENGTH_LIMIT - i
  {
    if i < LENGTH_LIMIT {
      LeavesAreSmall(c, i + 1, max);
      SizeMultiple(max, i);
      PointsAre(c[i], i);
      TermBound(c[i], Size(i), Size(max), Leaves(c, i + 1));
    }
  }

  lemma TermBound(x: nat, s: nat, t: nat, rest: nat)
    requires s <= t
    ensures x * s <= x * t && (x + rest) * t == x * t + rest * t
    ensures s < t && x > 0 ==> x * s < x * t
  {
    assert x * t - x * s == x * (t - s);
    if s < t && x > 0 { MulMonotone(1, x, t - s); }
  }

  /** A full tree of at most 2^max leaves with a leaf below level max has one above it. */
  lemma ShallowLeafExists(c: seq<nat>, i: nat, max: nat)
    requires |c| == LENGTH_LIMIT && FullTree(c) && 1 <= max < i < LENGTH_LIMIT && c[i] > 0
    requires Leaves(c, 1) <= Pow2(max)
    ensures exists m :: 1 <= m < max && c[m] != 0
  {
    if forall m :: 1 <= m < max ==> c[m] == 0 {
      EmptyAbove(c, 1, max);
      LeavesAreSmall(c, max, max);
      SizeMultiple(0, max);
      MulMonotone(Leaves(c, 1), Pow2(max), Size(max));
    }
  }

  /** A leaf at level j becomes a node with two leaves. */
  function Split(c: seq<nat>, j: nat): (d: seq<nat>)
    requires |c| == LENGTH_LIMIT && j + 1 < LENGTH_LIMIT && c[j] >= 1
    ensures |d| == LENGTH_LIMIT
  {
    var c1 := c[j := c[j] - 1];
    c1[j + 1 := c1[j + 1] + 2]
  }

  /** Two sibling leaves at level i become one at the level above. */
  function Join(c: seq<nat>, i: nat): (d: seq<nat>)
    requires |c| == LENGTH_LIMIT && 0 < i < LENGTH_LIMIT && c[i] >= 2
    ensures |d| == LENGTH_LIMIT
  {
    var c1 := c[i - 1 := c[i - 1] + 1];
    c1[i := c1[i] - 2]
  }

  lemma Raise(c: seq<nat>, j: nat, d: nat)
    requires |c| == LENGTH_LIMIT && 0 < j < LENGTH_LIMIT
    ensures Kraft(c[j := c[j] + d], 1) == Kraft(c, 1) + Points(d, j)
    ensures Leaves(c[j := c[j] + d], 1) == Leaves(c, 1) + d
  {
    Update(c, j, c[j] + d, 1);
    PointsAdd(c[j], d, j);
  }

  lemma Lower(c: seq<nat>, j: nat, d: nat)
    requires |c| == LENGTH_LIMIT && 0 < j < LENGTH_LIMIT && c[j] >= d
    ensures Kraft(c[j := c[j] - d], 1) + Points(d, j) == Kraft(c, 1)
    ensures Leaves(c[j := c[j] - d], 1) + d == Leaves(c, 1)
  {
    Update(c, j, c[j] - d, 1);
    PointsAdd(c[j] - d, d, j);
  }

  /** Two leaves at level i take as many points as one at the level above. */
  lemma TwoForOne(i: nat, two: nat, one: nat)
    requires 0 < i <= UNIT && two == 2 && one == 1
    ensures Points(two, i) == Points(one, i - 1)
  {
    HalvePoints(two, i);
  }

  lemma SplitKeeps(c: seq<nat>, j: nat, two: nat, one: nat)
    requires |c| == LENGTH_LIMIT && 0 < j && j + 1 < LENGTH_LIMIT && c[j] >= 1 && two == 2 && one == 1
    ensures Kraft(Split(c, j), 1) == Kraft(c, 1) && Leaves(Split(c, j), 1) == Leaves(c, 1) + 1
  {
    Lower(c, j, one);
    Raise(c[j := c[j] - one], j + 1, two);
    TwoForOne(j + 1, two, one);
  }

  lemma SplitOfJoin(c: seq<nat>, i: nat)
    requires |c| == LENGTH_LIMIT && 1 < i < LENGTH_LIMIT && c[i] >= 2
    ensures Split(Join(c, i), i - 1) == c
  {
  }

  lemma JoinKeeps(c: seq<nat>, i: nat)
    requires |c| == LENGTH_LIMIT && 1 < i < LENGTH_LIMIT && c[i] >= 2
    ensures Kraft(Join(c, i), 1) == Kraft(c, 1) && Leaves(Join(c, i), 1) + 1 == Leaves(c, 1)
  {
    SplitOfJoin(c, i);
    SplitKeeps(Join(c, i), i - 1, 2, 1);
  }

  /** Invariant of both loops: nothing deeper than i, the tree full with n leaves, and below max the
      level j, when it is not max itself, still has a leaf. */
  ghost predicate Inv(c: seq<nat>, n: nat, max: nat, i: nat, j: nat)
  {
    && |c| == LENGTH_LIMIT && 1 <= max <= i < LENGTH_LIMIT && 0 < j <= max
    && FullTree(c) && Leaves(c, 1) == n <= Pow2(max) && NoneBelow(c, i)
    && (j < max ==> c[j] > 0)
  }

  lemma Step(c: seq<nat>, n: nat, max: nat, i: nat, j: nat)
    requires Inv(c, n, max, i, j) && max < i && c[i] != 0 && j < max
    ensures c[i] >= 2
    ensures Inv(Join(Split(c, j), i), n, max, i, j + 1)
  {
    DeepestIsEven(c, i);
    SplitKeeps(c, j, 2, 1);
    JoinKeeps(Split(c, j), i);
  }

  // ------------------------------------------------------------------ which levels change

  /** Below level p each level has at most two leaves, and two only if there are none between it and max: the numeral
      of a counter whose carries are made one at a time. */
  ghost predicate Digits(d: seq<nat>, p: nat, max: nat)
    requires |d| == LENGTH_LIMIT && max < LENGTH_LIMIT
  {
    forall m :: p < m < max ==> d[m] <= 2 && (d[m] == 2 ==> NoneBetween(d, m, max))
  }

  ghost predicate NoneBetween(d: seq<nat>, m: nat, max: nat)
    requires |d| == LENGTH_LIMIT && max < LENGTH_LIMIT
  {
    forall x :: m < x < max ==> d[x] == 0
  }

  /** Of the levels above max, those above p are as they were, level p has lost leaves, and those below it are used up
      but for the digits. If p is max, none has changed. */
  ghost predicate ShortenedAt(c: seq<nat>, d: seq<nat>, max: nat, p: nat)
  {
    && |c| == |d| == LENGTH_LIMIT && 1 <= p <= max < LENGTH_LIMIT
    && (forall m :: 0 <= m < p ==> d[m] == c[m])
    && (p < max ==> d[p] < c[p])
    && Digits(d, p, max)
  }

  ghost predicate Shortened(c: seq<nat>, d: seq<nat>, max: nat)
  {
    exists p :: ShortenedAt(c, d, max, p)
  }

  /** j is max or the deepest level above max that has leaves. */
  ghost predicate Deepest(d: seq<nat>, max: nat, j: nat)
  {
    |d| == LENGTH_LIMIT && max < LENGTH_LIMIT && 0 < j <= max && (j < max ==> NoneBetween(d, j, max))
  }

  /** A leaf of the deepest level goes down; on the other side of max nothing counts. */
  lemma ShortenedMore(c: seq<nat>, d: seq<nat>, e: seq<nat>, max: nat, p: nat, j: nat) returns (q: nat)
    requires ShortenedAt(c, d, max, p) && Deepest(d, max, j) && j < max && d[j] > 0
    requires |e| == LENGTH_LIMIT && forall m :: 0 <= m < max ==> e[m] == Split(d, j)[m]
    ensures ShortenedAt(c, e, max, q) && Deepest(e, max, j + 1)
  {
    hide Split;
    SplitAbove(d, j);
    q := if j < p then j else p;
    forall m | q < m < max ensures e[m] <= 2 && (e[m] == 2 ==> NoneBetween(e, m, max)) {
      if m < j { OneAtMost(d, p, max, m, j); }
    }
  }

  lemma SplitAbove(d: seq<nat>, j: nat)
    requires |d| == LENGTH_LIMIT && j + 1 < LENGTH_LIMIT && d[j] >= 1
    ensures Split(d, j)[j] == d[j] - 1 && Split(d, j)[j + 1] == d[j + 1] + 2
    ensures forall m :: 0 <= m < LENGTH_LIMIT && m != j && m != j + 1 ==> Split(d, j)[m] == d[m]
  {
  }

  lemma OneAtMost(d: seq<nat>, p: nat, max: nat, m: nat, j: nat)
    requires |d| == LENGTH_LIMIT && max < LENGTH_LIMIT && Digits(d, p, max) && p < m < j < max && d[j] > 0
    ensures d[m] <= 1
  {
  }

  lemma Unchanged(c: seq<nat>, max: nat)
    requires |c| == LENGTH_LIMIT && 1 <= max < LENGTH_LIMIT
    ensures ShortenedAt(c, c, max, max) && Deepest(c, max, max)
  {
  }

  // ------------------------------------------------------------------ there is one such histogram

  /** What the leaves above max take in excess of leaves at max. */
  ghost function Excess(d: seq<nat>, m: nat, max: nat): int
    requires |d| == LENGTH_LIMIT && m <= max < LENGTH_LIMIT
    decreases max - m
  {
    if m == max then 0 else d[m] * (Size(m) - Size(max)) + Excess(d, m + 1, max)
  }

  lemma {:induction false} ExcessIs(d: seq<nat>, i: nat, max: nat)
    requires |d| == LENGTH_LIMIT && i <= max < LENGTH_LIMIT && NoneBelow(d, max)
    ensures Kraft(d, i) == Excess(d, i, max) + Leaves(d, i) * Size(max)
    decreases max - i
  {
    hide Size, Pow2;
    PointsAre(d[i], i);
    if i == max {
      EmptyBelow(d, max + 1);
    } else {
      ExcessIs(d, i + 1, max);
      Distribute(d[i], Leaves(d, i + 1), Size(i), Size(max));
    }
  }

  lemma Distribute(x: int, rest: int, s: int, t: int)
    ensures x * s + rest * t == x * (s - t) + (x + rest) * t
  {
  }

  lemma {:induction false} ExcessPositive(d: seq<nat>, m: nat, max: nat)
    requires |d| == LENGTH_LIMIT && m <= max < LENGTH_LIMIT
    ensures Excess(d, m, max) >= 0
    decreases max - m
  {
    hide Size, Pow2;
    if m < max {
      ExcessPositive(d, m + 1, max);
      SizeMultiple(m, max);
      NonNegative(d[m], Size(m) - Size(max));
    }
  }

  lemma NonNegative(x: nat, y: nat)
    ensures x * y >= 0
  {
  }

  lemma {:induction false} ExcessNone(d: seq<nat>, m: nat, max: nat)
    requires |d| == LENGTH_LIMIT && m <= max < LENGTH_LIMIT && forall x :: m <= x < max ==> d[x] == 0
    ensures Excess(d, m, max) == 0
    decreases max - m
  {
    if m < max { ExcessNone(d, m + 1, max); }
  }

  /** The digits below a level are worth less than one leaf of it. */
  lemma {:induction false} DigitsAreSmall(d: seq<nat>, p: nat, max: nat)
    requires |d| == LENGTH_LIMIT && p < max < LENGTH_LIMIT && Digits(d, p, max)
    ensures 0 <= Excess(d, p + 1, max) < Size(p) - Size(max)
    decreases max - p
  {
    hide Size, Pow2;
    ExcessPositive(d, p + 1, max);
    SizeHalf(p + 1);
    SizeMultiple(p + 1, max);
    if p + 1 < max {
      DigitsAreSmall(d, p + 1, max);
      if d[p + 1] == 2 {
        assert NoneBetween(d, p + 1, max);
        ExcessNone(d, p + 2, max);
      }
      DigitWorth(d[p + 1], Size(p + 1), Size(max), Excess(d, p + 2, max));
    }
  }

  lemma DigitWorth(x: nat, s: int, t: int, rest: int)
    requires x <= 2 && 0 < t < s && 0 <= rest < s - t && (x == 2 ==> rest == 0)
    ensures x * (s - t) + rest < 2 * s - t
  {
  }

  lemma OneMoreLeaf(x: nat, y: nat, s: nat, rest: int, other: int)
    requires x < y && rest < s && other >= 0
    ensures x * s + rest < y * s + other
  {
    MulMonotone(x + 1, y, s);
    assert (x + 1) * s == x * s + s;
  }

  /** With fewer leaves at a level and digits below it, less is in excess. */
  lemma FewerIsLess(d: seq<nat>, e: seq<nat>, p: nat, max: nat)
    requires |d| == |e| == LENGTH_LIMIT && p < max < LENGTH_LIMIT && Digits(d, p, max) && d[p] < e[p]
    ensures Excess(d, p, max) < Excess(e, p, max)
  {
    hide Size, Pow2;
    DigitsAreSmall(d, p, max);
    ExcessPositive(e, p + 1, max);
    SizeMultiple(p, max);
    OneMoreLeaf(d[p], e[p], Size(p) - Size(max), Excess(d, p + 1, max), Excess(e, p + 1, max));
  }

  lemma {:induction false} DigitsAreUnique(d: seq<nat>, e: seq<nat>, p: nat, max: nat)
    requires |d| == |e| == LENGTH_LIMIT && p < max < LENGTH_LIMIT && Digits(d, p, max) && Digits(e, p, max)
    requires Excess(d, p + 1, max) == Excess(e, p + 1, max)
    ensures forall m :: p < m < max ==> d[m] == e[m]
    decreases max - p
  {
    if p + 1 < max {
      if d[p + 1] < e[p + 1] { FewerIsLess(d, e, p + 1, max); }
      if e[p + 1] < d[p + 1] { FewerIsLess(e, d, p + 1, max); }
      DigitsAreUnique(d, e, p + 1, max);
    }
  }

  lemma {:induction false} SameAbove(d: seq<nat>, e: seq<nat>, m: nat, p: nat, max: nat)
    requires |d| == |e| == LENGTH_LIMIT && m <= p <= max < LENGTH_LIMIT && forall x :: m <= x < p ==> d[x] == e[x]
    ensures Excess(d, m, max) - Excess(d, p, max) == Excess(e, m, max) - Excess(e, p, max)
    decreases p - m
  {
    if m < p { SameAbove(d, e, m + 1, p, max); }
  }

  /** All levels above max are the same. */
  lemma SameLevels(c: seq<nat>, d: seq<nat>, e: seq<nat>, max: nat, p: nat, q: nat)
    requires ShortenedAt(c, d, max, p) && ShortenedAt(c, e, max, q) && p <= q && Excess(d, 1, max) == Excess(e, 1, max)
    ensures forall m :: 0 <= m < max ==> d[m] == e[m]
  {
    hide Excess;
    SameAbove(d, e, 1, p, max);
    if p < max {
      if d[p] < e[p] { FewerIsLess(d, e, p, max); }
      if e[p] < d[p] { FewerIsLess(e, d, p, max); }
      SameAbove(d, e, 1, p + 1, max);
      DigitsAreUnique(d, e, p, max);
    }
  }

  lemma {:induction false} LeavesAt(d: seq<nat>, i: nat, max: nat)
    requires |d| == LENGTH_LIMIT && i <= max < LENGTH_LIMIT && NoneBelow(d, max)
    ensures Leaves(d, max) == d[max]
  {
    EmptyBelow(d, max + 1);
  }

  lemma {:induction false} LeavesAbove(d: seq<nat>, e: seq<nat>, i: nat, max: nat)
    requires |d| == |e| == LENGTH_LIMIT && i <= max < LENGTH_LIMIT && forall m :: i <= m < max ==> d[m] == e[m]
    ensures Leaves(d, i) - Leaves(d, max) == Leaves(e, i) - Leaves(e, max)
    decreases max - i
  {
    if i < max { LeavesAbove(d, e, i + 1, max); }
  }

  /** A histogram is determined by being complete, within the limit, with as many leaves, and shortened from c. */
  lemma ShortenedIsUnique(c: seq<nat>, d: seq<nat>, e: seq<nat>, max: nat)
    requires Shortened(c, d, max) && Shortened(c, e, max) && 1 <= max < LENGTH_LIMIT
    requires FullTree(d) && NoneBelow(d, max) && FullTree(e) && NoneBelow(e, max) && Leaves(d, 1) == Leaves(e, 1)
    ensures d == e
  {
    hide Excess, Size, Kraft, Leaves, Pow2;
    var p, q :| ShortenedAt(c, d, max, p) && ShortenedAt(c, e, max, q);
    ExcessIs(d, 1, max);
    ExcessIs(e, 1, max);
    if p <= q { SameLevels(c, d, e, max, p, q); } else { SameLevels(c, e, d, max, q, p); }
    LeavesAbove(d, e, 1, max);
    LeavesAt(d, 1, max);
    LeavesAt(e, 1, max);
  }

  // ------------------------------------------------------------------ the loops

  method HuffmanTruncateTree(c: array<nat>, max: nat) returns (ok: bool)
    requires c.Length == LENGTH_LIMIT && FullTree(c[..]) && 1 <= max < LENGTH_LIMIT
    requires Leaves(c[..], 1) <= Pow2(max)
    modifies c
    ensures ok && FullTree(c[..]) && Leaves(c[..], 1) == old(Leaves(c[..], 1)) && NoneBelow(c[..], max)
    ensures Shortened(old(c[..]), c[..], max)
    ensures old(NoneBelow(c[..], max)) ==> c[..] == old(c[..])
  {
    hide ShortenedAt, Digits, Leaves, FullTree, Pow2;
    ghost var c0 := c[..];
    ghost var n := Leaves(c[..], 1);
    var j: nat := max;
    var i: nat := LENGTH_LIMIT - 1;
    ghost var p := max;
    Unchanged(c0, max);
    while i > max
      invariant Inv(c[..], n, max, i, j) && ShortenedAt(c0, c[..], max, p) && Deepest(c[..], max, j)
      invariant old(NoneBelow(c[..], max)) ==> c[..] == old(c[..])
    {
      while c[i] != 0
        invariant Inv(c[..], n, max, i, j) && ShortenedAt(c0, c[..], max, p) && Deepest(c[..], max, j)
        invariant old(NoneBelow(c[..], max)) ==> c[..] == old(c[..])
        decreases c[i]
      {
        if j == max {
          ShallowLeafExists(c[..], i, max);
          j := FindShallow(c, max);
        }
        Step(c[..], n, max, i, j);
        p := ShortenedMore(c0, c[..], Join(Split(c[..], j), i), max, p, j);
        MoveLeaf(c, i, j);
        j := j + 1;
      }
      i := i - 1;
    }
    ok := true;
  }

  /** Lines 491-494. */
  method MoveLeaf(c: array<nat>, i: nat, j: nat)
    requires c.Length == LENGTH_LIMIT && j + 1 < i < LENGTH_LIMIT && c[j] >= 1 && c[i] >= 2
    modifies c
    ensures c[..] == Join(Split(old(c[..]), j), i)
    ensures c[i] == old(c[i]) - 2
  {
    c[j] := c[j] - 1;
    c[j + 1] := c[j + 1] + 2;
    c[i - 1] := c[i - 1] + 1;
    c[i] := c[i] - 2;
  }

  /** Lines 477-482; the assertion j > 0 inside the loop holds because a shallow leaf exists. */
  method FindShallow(c: array<nat>, max: nat) returns (j: nat)
    requires c.Length == LENGTH_LIMIT && max < LENGTH_LIMIT && exists m :: 1 <= m < max && c[m] != 0
    ensures 0 < j < max && c[j] > 0 && forall m :: j < m < max ==> c[m] == 0
  {
    j := max - 1;
    while c[j] == 0
      invariant 0 < j < max && forall m :: j < m < max ==> c[m] == 0
      decreases j
    {
      j := j - 1;
    }
  }
}
