/** HuffmanCanonizeTree and HuffmanCreateCodewords (Xpress9EncHuffman.c:515-665): lengths are handed out
    by histogram, lightest symbols first; codewords follow from the lengths alone. */
module Canonize {
  import opened Powers
  import opened BitStrings
  import opened CodeLists
  import opened Histogram
  import opened LengthLists
  import opened HuffmanTree
  import opened SortSymbols
  import opened SumsOver
  import opened ReverseMask

  /** The j-th lightest symbol gets length b. */
  ghost predicate Rank(c: seq<nat>, j: nat, b: nat)
    requires |c| == LENGTH_LIMIT && b < LENGTH_LIMIT
  {
    Leaves(c, b + 1) <= j < Leaves(c, b)
  }

  /** The first n entries of sorted have their lengths, every other symbol has length 0. */
  ghost predicate Assigned(c: seq<nat>, sorted: seq<Tree>, n: nat, lengths: seq<nat>)
    requires |c| == LENGTH_LIMIT
  {
    && n <= |sorted|
    && (forall j :: 0 <= j < |sorted| ==> sorted[j].Leaf? && sorted[j].symbol < |lengths|)
    && (forall j :: 0 <= j < n ==> var b := lengths[sorted[j].symbol]; 1 <= b < LENGTH_LIMIT && Rank(c, j, b))
    && forall s :: 0 <= s < |lengths| && (forall j :: 0 <= j < n ==> sorted[j].symbol != s) ==> lengths[s] == 0
  }

  ghost predicate DistinctSymbols(sorted: seq<Tree>)
    requires AllLeaves(sorted)
  {
    forall i, j :: 0 <= i < j < |sorted| ==> sorted[i].symbol != sorted[j].symbol
  }

  /** The sum of level times entry. */
  ghost function Weighted(cost: seq<nat>, b: nat): nat
    requires |cost| == LENGTH_LIMIT && b <= LENGTH_LIMIT
    decreases |cost|, LENGTH_LIMIT - b
  {
    if b == LENGTH_LIMIT then 0 else b * cost[b] + Weighted(cost, b + 1)
  }

  lemma {:induction false} WeightedUpdate(cost: seq<nat>, i: nat, x: nat, b: nat)
    requires |cost| == LENGTH_LIMIT && i < LENGTH_LIMIT && b <= LENGTH_LIMIT
    ensures Weighted(cost[i := cost[i] + x], b) == Weighted(cost, b) + if b <= i then i * x else 0
    decreases LENGTH_LIMIT - b
  {
    if b < LENGTH_LIMIT {
      WeightedUpdate(cost, i, x, b + 1);
      if b == i { assert i * (cost[i] + x) == i * cost[i] + i * x; }
    }
  }

  ghost function Sum(cost: seq<nat>, b: nat): nat
    requires |cost| == LENGTH_LIMIT && b <= LENGTH_LIMIT
    decreases |cost|, LENGTH_LIMIT - b
  {
    if b == LENGTH_LIMIT then 0 else cost[b] + Sum(cost, b + 1)
  }

  /** Sum_{j >= b} (j - b + 1) cost[j], the value that the suffix sums from b up add up to. */
  ghost function Suffixes(cost: seq<nat>, b: nat): nat
    requires |cost| == LENGTH_LIMIT && b <= LENGTH_LIMIT
    decreases |cost|, LENGTH_LIMIT - b
  {
    if b == LENGTH_LIMIT then 0 else Sum(cost, b) + Suffixes(cost, b + 1)
  }

  lemma {:induction false} SuffixesAreWeighted(cost: seq<nat>, b: nat)
    requires |cost| == LENGTH_LIMIT && 1 <= b <= LENGTH_LIMIT
    ensures Weighted(cost, b) == Suffixes(cost, b) + (b - 1) * Sum(cost, b)
    decreases LENGTH_LIMIT - b
  {
    if b < LENGTH_LIMIT {
      SuffixesAreWeighted(cost, b + 1);
      SuffixStep(b, cost[b], Sum(cost, b + 1));
    }
  }

  lemma SuffixStep(b: nat, x: nat, rest: nat)
    requires b >= 1
    ensures b * x + b * rest == x + rest + (b - 1) * (x + rest)
  {
  }

  /** Lines 598-611. The comment there suspects the running sum of being wrong; it is the sum of count
      times length, because the count of a symbol of length i enters exactly i of the running sums. */
  method SuffixCost(cost: array<nat>) returns (total: nat)
    requires cost.Length == LENGTH_LIMIT
    ensures total == Weighted(cost[..], 0)
  {
    total := 0;
    var n: nat, i: nat := 0, LENGTH_LIMIT - 1;
    while true
      invariant 0 < i < LENGTH_LIMIT && n == Sum(cost[..], i + 1) && total == Suffixes(cost[..], i + 1)
      decreases i
    {
      n := n + cost[i];
      total := total + n;
      i := i - 1;
      if i == 0 { break; }
    }
    SuffixesAreWeighted(cost[..], 1);
  }

  // ------------------------------------------------------------------ handing out the lengths

  ghost predicate Alphabet(sorted: seq<Tree>, size: nat)
  {
    AllLeaves(sorted) && DistinctSymbols(sorted) && forall j :: 0 <= j < |sorted| ==> sorted[j].symbol < size
  }

  lemma {:induction false} LeavesFrom(c: seq<nat>, i: nat, j: nat)
    requires |c| == LENGTH_LIMIT && i <= j <= LENGTH_LIMIT
    ensures Leaves(c, j) <= Leaves(c, i)
    decreases j - i
  {
    if i < j { LeavesFrom(c, i + 1, j); }
  }

  lemma RankUnique(c: seq<nat>, j: nat, a: nat, b: nat)
    requires |c| == LENGTH_LIMIT && a < LENGTH_LIMIT && b < LENGTH_LIMIT && Rank(c, j, a) && Rank(c, j, b)
    ensures a == b
  {
    if a < b { LeavesFrom(c, a + 1, b); }
    if b < a { LeavesFrom(c, b + 1, a); }
  }

  function Costs(lengths: seq<nat>): Tree -> nat
  {
    (t: Tree) => if t.Leaf? && t.symbol < |lengths| then t.count * lengths[t.symbol] else 0
  }

  lemma CostsKept(sorted: seq<Tree>, j: nat, lengths: seq<nat>, lengths': seq<nat>)
    requires j < |sorted| && Alphabet(sorted, |lengths|) && |lengths'| == |lengths|
    requires lengths' == lengths[sorted[j].symbol := lengths'[sorted[j].symbol]]
    ensures SumBy(sorted[..j], Costs(lengths')) == SumBy(sorted[..j], Costs(lengths))
  {
    SumSame(sorted[..j], Costs(lengths'), Costs(lengths));
  }

  lemma AssignedNext(c: seq<nat>, sorted: seq<Tree>, j: nat, lengths: seq<nat>, i: nat)
    requires |c| == LENGTH_LIMIT && Assigned(c, sorted, j, lengths) && j < |sorted| && Alphabet(sorted, |lengths|)
    requires 1 <= i < LENGTH_LIMIT && Rank(c, j, i)
    ensures Assigned(c, sorted, j + 1, lengths[sorted[j].symbol := i])
  {
    var s, lengths' := sorted[j].symbol, lengths[sorted[j].symbol := i];
    forall m | 0 <= m < j + 1 ensures var b := lengths'[sorted[m].symbol]; 1 <= b < LENGTH_LIMIT && Rank(c, m, b) {
      if m < j { assert sorted[m].symbol != s; }
    }
    forall t | 0 <= t < |lengths'| && (forall m :: 0 <= m < j + 1 ==> sorted[m].symbol != t) ensures lengths'[t] == 0 {
      assert t != s;
    }
  }

  /** One symbol gets its length; the accumulated cost stays the sum of count times length. */
  method AssignOne(sorted: seq<Tree>, ghost c: seq<nat>, j: nat, i: nat, bits: array<nat>, cost: array<nat>)
    requires |c| == LENGTH_LIMIT && cost.Length == LENGTH_LIMIT && bits != cost
    requires j < |sorted| && Alphabet(sorted, bits.Length) && 1 <= i < LENGTH_LIMIT && Rank(c, j, i)
    requires Assigned(c, sorted, j, bits[..]) && Weighted(cost[..], 0) == SumBy(sorted[..j], Costs(bits[..]))
    modifies bits, cost
    ensures Assigned(c, sorted, j + 1, bits[..])
    ensures Weighted(cost[..], 0) == SumBy(sorted[..j + 1], Costs(bits[..]))
  {
    ghost var bits0, cost0 := bits[..], cost[..];
    AssignedNext(c, sorted, j, bits0, i);
    bits[sorted[j].symbol] := i;
    CostsKept(sorted, j, bits0, bits[..]);
    WeightedUpdate(cost0, i, sorted[j].count, 0);
    cost[i] := cost[i] + sorted[j].count;
    assert cost[..] == cost0[i := cost0[i] + sorted[j].count] && bits[..] == bits0[sorted[j].symbol := i];
    assert sorted[..j + 1] == sorted[..j] + [sorted[j]];
    SumLast(sorted[..j], sorted[j], Costs(bits[..]));
  }

  lemma NothingAssigned(c: seq<nat>, sorted: seq<Tree>, lengths: seq<nat>, cost: seq<nat>)
    requires |c| == LENGTH_LIMIT && |cost| == LENGTH_LIMIT && Alphabet(sorted, |lengths|)
    requires (forall s :: 0 <= s < |lengths| ==> lengths[s] == 0) && forall i :: 0 <= i < LENGTH_LIMIT ==> cost[i] == 0
    ensures Assigned(c, sorted, 0, lengths) && Weighted(cost, 0) == SumBy(sorted[..0], Costs(lengths))
  {
    WeightedZero(cost, 0);
  }

  /** Lines 531-559. The histogram of the full tree supplies exactly one length for each symbol. */
  method AssignLengths(sorted: seq<Tree>, c: array<nat>, size: nat) returns (ok: bool, bits: array<nat>, cost: array<nat>)
    requires c.Length == LENGTH_LIMIT && c[0] == 0 && Leaves(c[..], 1) == |sorted| && Alphabet(sorted, size)
    ensures ok && fresh(bits) && fresh(cost) && bits.Length == size && cost.Length == LENGTH_LIMIT
    ensures Assigned(c[..], sorted, |sorted|, bits[..])
    ensures Weighted(cost[..], 0) == SumBy(sorted, Costs(bits[..]))
  {
    hide Assigned, Weighted, SumBy, Costs, Alphabet;
    bits := new nat[size](_ => 0);
    cost := new nat[LENGTH_LIMIT](_ => 0);
    NothingAssigned(c[..], sorted, bits[..], cost[..]);
    var i: nat, n: nat, j: nat := LENGTH_LIMIT, 0, 0;
    while j < |sorted|
      invariant j <= |sorted| && i <= LENGTH_LIMIT && fresh(bits) && fresh(cost) && bits != cost
      invariant n > 0 ==> 1 <= i < LENGTH_LIMIT
      invariant 1 <= i && j + n == Leaves(c[..], i) && (i < LENGTH_LIMIT ==> n <= c[i])
      invariant Assigned(c[..], sorted, j, bits[..])
      invariant Weighted(cost[..], 0) == SumBy(sorted[..j], Costs(bits[..]))
    {
      if n == 0 {
        i := NextLevel(c, i);
        n := c[i];
      }
      AssignOne(sorted, c[..], j, i, bits, cost);
      n := n - 1;
      j := j + 1;
    }
    assert sorted[..j] == sorted;
    ok := true;
  }

  lemma {:induction false} WeightedZero(cost: seq<nat>, b: nat)
    requires |cost| == LENGTH_LIMIT && b <= LENGTH_LIMIT && forall i :: 0 <= i < LENGTH_LIMIT ==> cost[i] == 0
    ensures Weighted(cost, b) == 0
    decreases LENGTH_LIMIT - b
  {
    if b < LENGTH_LIMIT { WeightedZero(cost, b + 1); }
  }

  /** Lines 543-549: the next level down the histogram with any symbols; there is one as long as
      symbols are left. */
  method NextLevel(c: array<nat>, i0: nat) returns (i: nat)
    requires c.Length == LENGTH_LIMIT && c[0] == 0 && 1 <= i0 <= LENGTH_LIMIT && Leaves(c[..], i0) < Leaves(c[..], 1)
    ensures 1 <= i < i0 && c[i] != 0 && Leaves(c[..], i) == Leaves(c[..], i0) + c[i]
    ensures Leaves(c[..], i + 1) == Leaves(c[..], i0)
  {
    i := i0 - 1;
    while c[i] == 0
      invariant 1 <= i < i0 && Leaves(c[..], i + 1) == Leaves(c[..], i0)
      decreases i
    {
      i := i - 1;
    }
  }

  // ------------------------------------------------------------------ what the assignment amounts to

  ghost function Has(lengths: seq<nat>, b: nat): Tree -> nat
  {
    (t: Tree) => if t.Leaf? && t.symbol < |lengths| && lengths[t.symbol] == b then 1 else 0
  }

  ghost function Min(a: int, b: int): int { if a < b then a else b }

  lemma {:induction false} CountByRank(c: seq<nat>, sorted: seq<Tree>, j: nat, lengths: seq<nat>, b: nat)
    requires |c| == LENGTH_LIMIT && 1 <= b < LENGTH_LIMIT && j <= |sorted| && Alphabet(sorted, |lengths|)
    requires Assigned(c, sorted, |sorted|, lengths)
    ensures SumBy(sorted[..j], Has(lengths, b))
            == if j <= Leaves(c, b + 1) then 0 else Min(j - Leaves(c, b + 1), c[b])
  {
    if j != 0 {
      CountByRank(c, sorted, j - 1, lengths, b);
      assert sorted[..j] == sorted[..j - 1] + [sorted[j - 1]];
      SumLast(sorted[..j - 1], sorted[j - 1], Has(lengths, b));
      var b' := lengths[sorted[j - 1].symbol];
      if Rank(c, j - 1, b) { RankUnique(c, j - 1, b', b); }
    }
  }

  ghost function Is(lengths: seq<nat>, b: nat): nat -> nat
  {
    (s: nat) => if s < |lengths| && lengths[s] == b then 1 else 0
  }

  lemma {:induction false} LevelSize(lengths: seq<nat>, b: nat, i: nat)
    requires i <= |lengths|
    ensures |Level(lengths, b, i)| + Over(i, Is(lengths, b)) == Over(|lengths|, Is(lengths, b))
    decreases |lengths| - i
  {
    if i < |lengths| { LevelSize(lengths, b, i + 1); }
  }

  ghost predicate SortedUsed(counts: seq<nat>, sorted: seq<Tree>)
  {
    StableOrder(sorted) && multiset(sorted) == multiset(Used(counts, |counts|))
  }

  lemma SortedAlphabet(counts: seq<nat>, sorted: seq<Tree>)
    requires SortedUsed(counts, sorted)
    ensures Alphabet(sorted, |counts|)
    ensures forall t :: t in sorted <==> t in Used(counts, |counts|)
  {
    var used := Used(counts, |counts|);
    UsedElements(counts, |counts|);
    SameElements(used, sorted);
    SameElements(sorted, used);
    forall j | 0 <= j < |sorted| ensures sorted[j].Leaf? && sorted[j].symbol < |counts| && sorted[j] == Leaf(sorted[j].symbol, counts[sorted[j].symbol]) {
      assert sorted[j] in used;
    }
    forall i, j | 0 <= i < j < |sorted| ensures sorted[i].symbol != sorted[j].symbol {
      assert Precedes(sorted[i], sorted[j]);
    }
  }

  /** Exactly the used symbols get a codeword. */
  lemma LengthsOfUsed(counts: seq<nat>, sorted: seq<Tree>, c: seq<nat>, lengths: seq<nat>, s: nat)
    requires |c| == LENGTH_LIMIT && SortedUsed(counts, sorted) && |lengths| == |counts| && s < |counts|
    requires Assigned(c, sorted, |sorted|, lengths)
    ensures lengths[s] < LENGTH_LIMIT && (lengths[s] == 0 <==> counts[s] == 0)
  {
    SortedAlphabet(counts, sorted);
    UsedElements(counts, |counts|);
    if counts[s] != 0 {
      assert Leaf(s, counts[s]) in sorted;
      var j :| 0 <= j < |sorted| && sorted[j] == Leaf(s, counts[s]);
    } else {
      forall j | 0 <= j < |sorted| ensures sorted[j].symbol != s { assert sorted[j] in Used(counts, |counts|); }
    }
  }

  lemma AssignedHistogram(counts: seq<nat>, sorted: seq<Tree>, c: seq<nat>, lengths: seq<nat>)
    requires |c| == LENGTH_LIMIT && c[0] == 0 && SortedUsed(counts, sorted) && |lengths| == |counts|
    requires Assigned(c, sorted, |sorted|, lengths) && Leaves(c, 1) == |sorted|
    ensures IsHistogram(c, lengths)
  {
    forall b | 1 <= b < LENGTH_LIMIT ensures c[b] == |Level(lengths, b, 0)| {
      AssignedLevel(counts, sorted, c, lengths, b);
    }
  }

  lemma AssignedLevel(counts: seq<nat>, sorted: seq<Tree>, c: seq<nat>, lengths: seq<nat>, b: nat)
    requires |c| == LENGTH_LIMIT && c[0] == 0 && SortedUsed(counts, sorted) && |lengths| == |counts|
    requires Assigned(c, sorted, |sorted|, lengths) && Leaves(c, 1) == |sorted| && 1 <= b < LENGTH_LIMIT
    ensures c[b] == |Level(lengths, b, 0)|
  {
    hide SortedUsed, Assigned, SumBy, Has, Used, Over, Is, Alphabet, Level;
    SortedAlphabet(counts, sorted);
    WholeLevel(c, sorted, lengths, b);
    SortedIsUsed(counts, sorted);
    SumPermuted(sorted, Used(counts, |counts|), Has(lengths, b));
    UsedLevel(counts, sorted, c, lengths, b);
    OverNone(Is(lengths, b));
    LevelSize(lengths, b, 0);
  }

  lemma OverNone(f: nat -> nat)
    ensures Over(0, f) == 0
  {
  }

  lemma WholeLevel(c: seq<nat>, sorted: seq<Tree>, lengths: seq<nat>, b: nat)
    requires |c| == LENGTH_LIMIT && 1 <= b < LENGTH_LIMIT && Alphabet(sorted, |lengths|)
    requires Assigned(c, sorted, |sorted|, lengths) && Leaves(c, 1) == |sorted|
    ensures SumBy(sorted, Has(lengths, b)) == c[b]
  {
    hide Assigned, SumBy, Has, Alphabet;
    CountByRank(c, sorted, |sorted|, lengths, b);
    assert sorted[..|sorted|] == sorted;
    LeavesFrom(c, 1, b);
  }

  lemma UsedLevel(counts: seq<nat>, sorted: seq<Tree>, c: seq<nat>, lengths: seq<nat>, b: nat)
    requires |c| == LENGTH_LIMIT && SortedUsed(counts, sorted) && |lengths| == |counts| && 1 <= b
    requires Assigned(c, sorted, |sorted|, lengths)
    ensures SumBy(Used(counts, |counts|), Has(lengths, b)) == Over(|counts|, Is(lengths, b))
  {
    hide SortedUsed, Assigned, SumBy, Used, Over;
    forall s | 0 <= s < |counts|
      ensures Is(lengths, b)(s) == if counts[s] == 0 then 0 else Has(lengths, b)(Leaf(s, counts[s]))
    {
      LengthsOfUsed(counts, sorted, c, lengths, s);
    }
    SumUsed(counts, |counts|, Has(lengths, b), Is(lengths, b));
  }

  lemma SortedIsUsed(counts: seq<nat>, sorted: seq<Tree>)
    requires SortedUsed(counts, sorted)
    ensures multiset(sorted) == multiset(Used(counts, |counts|))
  {
  }

  /** The number of bits that the code spends on the counted symbols. */
  ghost function CodeCost(counts: seq<nat>, lengths: seq<nat>): nat
  {
    Over(|counts|, Spent(counts, lengths))
  }

  ghost function Spent(counts: seq<nat>, lengths: seq<nat>): nat -> nat
  {
    (s: nat) => if s < |counts| && s < |lengths| then counts[s] * lengths[s] else 0
  }

  lemma AssignedCost(counts: seq<nat>, sorted: seq<Tree>, lengths: seq<nat>)
    requires SortedUsed(counts, sorted) && |lengths| == |counts|
    ensures SumBy(sorted, Costs(lengths)) == CodeCost(counts, lengths)
  {
    SumPermuted(sorted, Used(counts, |counts|), Costs(lengths));
    SumUsed(counts, |counts|, Costs(lengths), Spent(counts, lengths));
  }

  // ------------------------------------------------------------------ the ascending list

  function Rev(s: seq<Coded>): (r: seq<Coded>)
    ensures |r| == |s| && forall i :: 0 <= i < |s| ==> r[i] == s[|s| - 1 - i]
  {
    if s == [] then [] else Rev(s[1..]) + [s[0]]
  }

  lemma {:induction false} RevConcat(a: seq<Coded>, b: seq<Coded>)
    ensures Rev(a + b) == Rev(b) + Rev(a)
  {
    if a == [] {
      assert a + b == b && Rev(b) + [] == Rev(b);
    } else {
      RevConcat(a[1..], b);
      assert (a + b)[1..] == a[1..] + b;
    }
  }

  lemma RevOfOne(s: seq<Coded>)
    requires |s| <= 1
    ensures Rev(s) == s
  {
    if s != [] { assert s[1..] == []; }
  }

  /** The symbols from i up whose codeword length is b, smallest symbol first. */
  function Upward(lengths: seq<nat>, b: nat, i: nat): seq<Coded>
    requires i <= |lengths|
    decreases |lengths| - i
  {
    if i == |lengths| then []
    else (if lengths[i] == b then [Coded(i, b)] else []) + Upward(lengths, b, i + 1)
  }

  lemma {:induction false} UpwardIsRev(lengths: seq<nat>, b: nat, i: nat)
    requires i <= |lengths|
    ensures Upward(lengths, b, i) == Rev(Level(lengths, b, i))
    decreases |lengths| - i
  {
    if i < |lengths| {
      UpwardIsRev(lengths, b, i + 1);
      var x := if lengths[i] == b then [Coded(i, b)] else [];
      RevOfOne(x);
      RevConcat(Level(lengths, b, i + 1), x);
    }
  }

  lemma MoveAcross(before: seq<Coded>, x: seq<Coded>, rest: seq<Coded>)
    ensures before + (x + rest) == (before + x) + rest
  {
  }

  lemma ChainStep(before: seq<Coded>, lengths: seq<nat>, b: nat, s: nat)
    requires s < |lengths|
    ensures before + Upward(lengths, b, s)
            == (before + (if lengths[s] == b then [Coded(s, b)] else [])) + Upward(lengths, b, s + 1)
  {
    MoveAcross(before, if lengths[s] == b then [Coded(s, b)] else [], Upward(lengths, b, s + 1));
  }

  /** Lines 561-583: one chain of symbols for each length. */
  method ChainByLength(bits: array<nat>) returns (chain: array<seq<Coded>>)
    requires forall s :: 0 <= s < bits.Length ==> bits[s] < LENGTH_LIMIT
    ensures fresh(chain) && chain.Length == LENGTH_LIMIT && chain[0] == []
    ensures forall b :: 1 <= b < LENGTH_LIMIT ==> chain[b] == Upward(bits[..], b, 0)
  {
    chain := new seq<Coded>[LENGTH_LIMIT](_ => []);
    ghost var lengths := bits[..];
    var s := 0;
    while s < bits.Length
      invariant s <= bits.Length && chain[0] == [] && fresh(chain)
      invariant forall b :: 1 <= b < LENGTH_LIMIT ==> chain[b] + Upward(lengths, b, s) == Upward(lengths, b, 0)
    {
      var n := bits[s];
      ghost var before := chain[..];
      if n != 0 { chain[n] := chain[n] + [Coded(s, n)]; }
      forall b | 1 <= b < LENGTH_LIMIT ensures chain[b] + Upward(lengths, b, s + 1) == Upward(lengths, b, 0) {
        ChainStep(before[b], lengths, b, s);
      }
      s := s + 1;
    }
  }

  lemma LinkStep(lengths: seq<nat>, done: seq<Coded>, i: nat)
    requires i >= 1 && done + Listed(lengths, i) == Listed(lengths, UNIT)
    ensures (done + Level(lengths, i, 0)) + Listed(lengths, i - 1) == Listed(lengths, UNIT)
    ensures Rev(done + Level(lengths, i, 0)) == Upward(lengths, i, 0) + Rev(done)
  {
    UpwardIsRev(lengths, i, 0);
    RevConcat(done, Level(lengths, i, 0));
    assert (done + Level(lengths, i, 0)) + Listed(lengths, i - 1) == done + (Level(lengths, i, 0) + Listed(lengths, i - 1));
  }

  /** Lines 586-596: the chains are linked from the longest length to the shortest, each in front. */
  method LinkChains(chain: array<seq<Coded>>, ghost lengths: seq<nat>) returns (asc: seq<Coded>)
    requires chain.Length == LENGTH_LIMIT && chain[0] == []
    requires forall b :: 1 <= b < LENGTH_LIMIT ==> chain[b] == Upward(lengths, b, 0)
    ensures asc == Rev(Listed(lengths, UNIT))
  {
    asc := [];
    var i: nat := LENGTH_LIMIT;
    ghost var done: seq<Coded> := [];
    while i != 0
      invariant i <= LENGTH_LIMIT && asc == Rev(done)
      invariant done + (if i == 0 then [] else Listed(lengths, i - 1)) == Listed(lengths, UNIT)
    {
      i := i - 1;
      asc := chain[i] + asc;
      if i != 0 {
        LinkStep(lengths, done, i);
        done := done + Level(lengths, i, 0);
      }
    }
    assert done + [] == done;
  }
}
