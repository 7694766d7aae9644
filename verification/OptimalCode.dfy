/** The lengths that the encoder hands out by histogram (Xpress9EncHuffman.c:531-559) cost what the Huffman tree costs, if
    the tree was not truncated: then no prefix code is cheaper. Costs are compared level by level: at each level the
    deeper symbols are the lightest ones. */
module OptimalCode {
  import opened CodeLists
  import opened Histogram
  import opened DepthCost
  import opened HuffmanTree
  import opened CreateTree
  import opened BitLengths
  import opened SortSymbols
  import opened SumsOver
  import opened Canonize

  function Smaller(a: nat, b: nat): nat { if a < b then a else b }

  // ------------------------------------------------------------------ totals

  lemma {:induction false} TotalConcat(f: seq<Tree>, g: seq<Tree>)
    ensures Total(f + g) == Total(f) + Total(g)
  {
    SumsConcat(f, g);
  }

  lemma TotalOne(t: Tree)
    ensures Total([t]) == t.count
  {
    ForestOne(t);
  }

  lemma TotalNext(f: seq<Tree>, m: nat)
    requires m < |f|
    ensures Total(f[..m + 1]) == Total(f[..m]) + f[m].count
  {
    hide Total;
    assert f[..m + 1] == f[..m] + [f[m]];
    TotalConcat(f[..m], [f[m]]);
    TotalOne(f[m]);
  }

  lemma BagOfPrefix(some: seq<Tree>, sorted: seq<Tree>, n: nat)
    requires |sorted| == n + 1 && multiset(some) <= multiset(sorted)
    ensures sorted[n] !in some ==> multiset(some) <= multiset(sorted[..n])
    ensures forall k :: 0 <= k < |some| && some[k] == sorted[n] ==> multiset(some[..k] + some[k + 1..]) <= multiset(sorted[..n])
    ensures |some| <= |sorted|
  {
    assert sorted == sorted[..n] + [sorted[n]];
    forall k | 0 <= k < |some| && some[k] == sorted[n]
      ensures multiset(some[..k] + some[k + 1..]) <= multiset(sorted[..n])
    {
      WithoutOne(some, k);
    }
    assert |multiset(some)| <= |multiset(sorted)| by { BagSize(multiset(some), multiset(sorted)); }
  }

  lemma BagSize(a: multiset<Tree>, b: multiset<Tree>)
    requires a <= b
    ensures |a| <= |b|
  {
    assert b == a + (b - a);
  }

  lemma WithLargest(some: seq<Tree>, sorted: seq<Tree>, k: nat)
    requires ByCount(sorted) && k < |some| <= |sorted| && some[k] == sorted[|sorted| - 1]
    requires Total(sorted[..|some| - 1]) <= Total(some[..k] + some[k + 1..])
    ensures Total(sorted[..|some|]) <= Total(some)
  {
    hide Total;
    TotalWithout(some, k);
    TotalNext(sorted, |some| - 1);
  }

  lemma FewerByCount(sorted: seq<Tree>, n: nat)
    requires ByCount(sorted) && n <= |sorted|
    ensures ByCount(sorted[..n])
    ensures forall m :: 0 <= m <= n ==> sorted[..n][..m] == sorted[..m]
  {
  }

  /** Without the heaviest, if it is among them. */
  lemma WithoutHeaviest(some: seq<Tree>, sorted: seq<Tree>, n: nat) returns (rest: seq<Tree>, k: nat)
    requires |sorted| == n + 1 && multiset(some) <= multiset(sorted)
    ensures multiset(rest) <= multiset(sorted[..n]) && |some| <= n + 1
    ensures rest == some || (k < |some| && some[k] == sorted[n] && rest == some[..k] + some[k + 1..])
  {
    BagOfPrefix(some, sorted, n);
    k := 0;
    if i :| 0 <= i < |some| && some[i] == sorted[n] {
      rest, k := some[..i] + some[i + 1..], i;
    } else {
      rest := some;
    }
  }

  /** From the comparison of the rest follows that of the whole. */
  lemma TakeHeaviest(some: seq<Tree>, sorted: seq<Tree>) returns (rest: seq<Tree>)
    requires ByCount(sorted) && sorted != [] && multiset(some) <= multiset(sorted)
    ensures var front := sorted[..|sorted| - 1];
      ByCount(front) && multiset(rest) <= multiset(front)
      && (|rest| <= |front| && Total(front[..|rest|]) <= Total(rest) ==>
            |some| <= |sorted| && Total(sorted[..|some|]) <= Total(some))
  {
    hide Total, ByCount;
    var n, k := |sorted| - 1, 0;
    rest, k := WithoutHeaviest(some, sorted, n);
    FewerByCount(sorted, n);
    if |rest| <= n && Total(sorted[..n][..|rest|]) <= Total(rest) && rest != some { WithLargest(some, sorted, k); }
  }

  /** The n lightest weigh no more than any n of them. */
  lemma {:induction false} LightestFirst(some: seq<Tree>, sorted: seq<Tree>)
    requires ByCount(sorted) && multiset(some) <= multiset(sorted)
    ensures |some| <= |sorted| && Total(sorted[..|some|]) <= Total(some)
    decreases |sorted|
  {
    hide Total, ByCount;
    if sorted == [] {
      EmptyBag(some);
    } else {
      var rest := TakeHeaviest(some, sorted);
      LightestFirst(rest, sorted[..|sorted| - 1]);
    }
  }

  lemma EmptyBag(some: seq<Tree>)
    requires multiset(some) <= multiset{}
    ensures some == [] && Total(some) == 0
  {
    BagSize(multiset(some), multiset{});
  }

  lemma TotalWithout(f: seq<Tree>, k: nat)
    requires k < |f|
    ensures Total(f) == Total(f[..k] + f[k + 1..]) + f[k].count
  {
    SumsAt(f, k);
    TotalConcat(f[..k], f[k + 1..]);
  }

  // ------------------------------------------------------------------ a tree, level by level

  /** The leaves at depth level or deeper. */
  ghost function Deep(t: Tree, d: nat, level: nat): seq<Tree>
  {
    match t
    case Leaf(_, _) => if d >= level then [t] else []
    case Node(_, l, r) => Deep(l, d + 1, level) + Deep(r, d + 1, level)
  }

  ghost function DeepTotals(t: Tree, d: nat, level: nat): nat
    requires level <= LENGTH_LIMIT
    decreases LENGTH_LIMIT - level
  {
    if level == LENGTH_LIMIT then 0 else Total(Deep(t, d, level)) + DeepTotals(t, d, level + 1)
  }

  lemma {:induction false} DeepOfLeaf(t: Tree, d: nat, level: nat)
    requires t.Leaf? && d < LENGTH_LIMIT && level <= LENGTH_LIMIT
    ensures DeepTotals(t, d, level) == if level <= d then t.count * (d - level + 1) else 0
    decreases LENGTH_LIMIT - level
  {
    if level < LENGTH_LIMIT {
      DeepOfLeaf(t, d, level + 1);
      TotalOne(t);
      if level < d { OneLevelMore(t.count, d - level); }
    }
  }

  lemma OneLevelMore(x: nat, n: nat)
    ensures x * (n + 1) == x + x * n
  {
  }

  lemma {:induction false} DeepOfNode(t: Tree, d: nat, level: nat)
    requires t.Node? && level <= LENGTH_LIMIT
    ensures DeepTotals(t, d, level) == DeepTotals(t.left, d + 1, level) + DeepTotals(t.right, d + 1, level)
    decreases LENGTH_LIMIT - level
  {
    if level < LENGTH_LIMIT {
      DeepOfNode(t, d, level + 1);
      TotalConcat(Deep(t.left, d + 1, level), Deep(t.right, d + 1, level));
    }
  }

  /** The weighted depth is the sum over the levels. */
  lemma {:induction false} DepthByLevels(t: Tree, d: nat)
    requires d + Height(t) < LENGTH_LIMIT
    ensures WeightedDepth(t, d) == DeepTotals(t, d, 1)
  {
    match t
    case Leaf(_, _) => DeepOfLeaf(t, d, 1);
    case Node(_, l, r) =>
      DepthByLevels(l, d + 1);
      DepthByLevels(r, d + 1);
      DeepOfNode(t, d, 1);
  }

  lemma {:induction false} DeepLeaves(t: Tree, d: nat, level: nat)
    requires d + Height(t) < LENGTH_LIMIT && level <= LENGTH_LIMIT
    ensures multiset(Deep(t, d, level)) <= LeafBag(t)
    ensures |Deep(t, d, level)| == Leaves(BitLengths.Depths(t, d), level)
  {
    match t
    case Leaf(_, _) => HistogramOne(BitLengths.Depths(t, d), d, level);
    case Node(_, l, r) =>
      DeepLeaves(l, d + 1, level);
      DeepLeaves(r, d + 1, level);
      HistogramAdd(BitLengths.Depths(t, d), BitLengths.Depths(l, d + 1), BitLengths.Depths(r, d + 1), level);
  }

  // ------------------------------------------------------------------ the assigned lengths, level by level

  /** At each level, of the n lightest symbols those that the histogram puts there or deeper. */
  ghost function LevelTotals(c: seq<nat>, sorted: seq<Tree>, n: nat, level: nat): nat
    requires |c| == LENGTH_LIMIT && n <= |sorted| && level <= LENGTH_LIMIT
    decreases LENGTH_LIMIT - level
  {
    if level == LENGTH_LIMIT then 0
    else Total(sorted[..Smaller(n, Leaves(c, level))]) + LevelTotals(c, sorted, n, level + 1)
  }

  /** The next symbol counts at its level and above. */
  lemma LevelNext(c: seq<nat>, sorted: seq<Tree>, n: nat, b: nat, level: nat)
    requires |c| == LENGTH_LIMIT && n < |sorted| && level < LENGTH_LIMIT && b < LENGTH_LIMIT && Rank(c, n, b)
    ensures Total(sorted[..Smaller(n + 1, Leaves(c, level))])
            == Total(sorted[..Smaller(n, Leaves(c, level))]) + if level <= b then sorted[n].count else 0
  {
    hide Total, Leaves;
    if level <= b {
      LeavesFrom(c, level, b);
      TotalNext(sorted, n);
    } else {
      LeavesFrom(c, b + 1, level);
    }
  }

  lemma {:induction false} LevelsNext(c: seq<nat>, sorted: seq<Tree>, n: nat, b: nat, level: nat)
    requires |c| == LENGTH_LIMIT && n < |sorted| && level <= LENGTH_LIMIT && b < LENGTH_LIMIT && Rank(c, n, b)
    ensures LevelTotals(c, sorted, n + 1, level)
            == LevelTotals(c, sorted, n, level) + if level <= b then sorted[n].count * (b - level + 1) else 0
    decreases LENGTH_LIMIT - level
  {
    hide Total, Leaves, Rank, Smaller;
    if level < LENGTH_LIMIT {
      LevelsNext(c, sorted, n, b, level + 1);
      LevelNext(c, sorted, n, b, level);
      OneLevelMore(sorted[n].count, if level < b then b - level else 0);
    }
  }

  lemma {:induction false} LevelsNone(c: seq<nat>, sorted: seq<Tree>, level: nat)
    requires |c| == LENGTH_LIMIT && level <= LENGTH_LIMIT
    ensures LevelTotals(c, sorted, 0, level) == 0
    decreases LENGTH_LIMIT - level
  {
    if level < LENGTH_LIMIT {
      LevelsNone(c, sorted, level + 1);
      assert sorted[..0] == [];
    }
  }

  lemma AssignedOne(c: seq<nat>, sorted: seq<Tree>, lengths: seq<nat>, n: nat)
    requires |c| == LENGTH_LIMIT && n < |sorted| && Assigned(c, sorted, |sorted|, lengths)
    ensures SumBy(sorted[..n + 1], Costs(lengths)) - SumBy(sorted[..n], Costs(lengths))
            == LevelTotals(c, sorted, n + 1, 1) - LevelTotals(c, sorted, n, 1)
  {
    hide SumBy, LevelTotals, Rank;
    var x := sorted[n];
    assert sorted[..n + 1] == sorted[..n] + [x];
    SumLast(sorted[..n], x, Costs(lengths));
    LevelsNext(c, sorted, n, lengths[x.symbol], 1);
  }

  lemma {:induction false} AssignedByLevels(c: seq<nat>, sorted: seq<Tree>, lengths: seq<nat>, n: nat)
    requires |c| == LENGTH_LIMIT && n <= |sorted| && Assigned(c, sorted, |sorted|, lengths)
    ensures SumBy(sorted[..n], Costs(lengths)) == LevelTotals(c, sorted, n, 1)
    decreases n
  {
    hide Assigned, LevelTotals, Costs;
    if n == 0 {
      LevelsNone(c, sorted, 1);
    } else {
      AssignedByLevels(c, sorted, lengths, n - 1);
      AssignedOne(c, sorted, lengths, n - 1);
    }
  }

  // ------------------------------------------------------------------ the comparison

  lemma {:induction false} LevelsBelowTree(c: seq<nat>, sorted: seq<Tree>, root: Tree, level: nat)
    requires Counted(c, root, 0) && ByCount(sorted) && LeafBag(root) == multiset(sorted)
    requires Height(root) < LENGTH_LIMIT && level <= LENGTH_LIMIT
    ensures LevelTotals(c, sorted, |sorted|, level) <= DeepTotals(root, 0, level)
    decreases LENGTH_LIMIT - level
  {
    if level < LENGTH_LIMIT {
      LevelsBelowTree(c, sorted, root, level + 1);
      DeepLeaves(root, 0, level);
      assert c == BitLengths.Depths(root, 0);
      LightestFirst(Deep(root, 0, level), sorted);
    }
  }

  /** No prefix code for the counts costs less. */
  ghost predicate Cheapest(sorted: seq<Tree>, cost: nat)
  {
    forall code: seq<Item>, limit: nat :: Weighs(code, Counts(sorted)) && PrefixCode(code, limit) ==> cost <= Cost(code)
  }

  /** The histogram is that of a minimal tree. */
  ghost predicate FromTree(c: seq<nat>, sorted: seq<Tree>)
  {
    exists root :: Counted(c, root, 0) && Minimal(root, sorted) && Height(root) < LENGTH_LIMIT
  }

  lemma FromTreeIsCheapest(c: seq<nat>, sorted: seq<Tree>, lengths: seq<nat>)
    requires FromTree(c, sorted) && ByCount(sorted) && |c| == LENGTH_LIMIT && Assigned(c, sorted, |sorted|, lengths)
    ensures Cheapest(sorted, SumBy(sorted, Costs(lengths)))
  {
    hide Assigned, ByCount, SumBy, Costs, Minimal;
    var root :| Counted(c, root, 0) && Minimal(root, sorted) && Height(root) < LENGTH_LIMIT;
    AssignedIsCheapest(c, sorted, root, lengths);
  }

  /** The histogram of a minimal tree, handed out to the symbols in order of their counts, is as good as the tree. */
  lemma AssignedIsCheapest(c: seq<nat>, sorted: seq<Tree>, root: Tree, lengths: seq<nat>)
    requires Counted(c, root, 0) && ByCount(sorted) && Minimal(root, sorted) && Height(root) < LENGTH_LIMIT
    requires Assigned(c, sorted, |sorted|, lengths)
    ensures Cheapest(sorted, SumBy(sorted, Costs(lengths)))
  {
    hide Assigned, ByCount, SumBy, Costs, LevelTotals, DeepTotals, WeightedDepth, Weighs, PrefixCode, Cost;
    AssignedByLevels(c, sorted, lengths, |sorted|);
    assert sorted[..|sorted|] == sorted;
    LevelsBelowTree(c, sorted, root, 1);
    DepthByLevels(root, 0);
  }
}
