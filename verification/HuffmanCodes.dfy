/** Xpress9HuffmanCreateTree (Xpress9EncHuffman.c:677-797): from symbol counts to packed codewords. */
module HuffmanCodes {
  import opened Powers
  import opened BitStrings
  import opened CodeLists
  import opened Histogram
  import opened LengthLists
  import opened TruncateTree
  import opened HuffmanTree
  import opened CreateTree
  import opened BitLengths
  import opened SortSymbols
  import opened SumsOver
  import opened Canonize
  import opened OptimalCode
  import opened DecodeHuffman
  import opened ReverseMask
  import opened Codewords

  ghost function CountOf(): Tree -> nat { (t: Tree) => t.count }

  ghost function CountAt(counts: seq<nat>): nat -> nat
  {
    (s: nat) => if s < |counts| then counts[s] else 0
  }

  /** The number of symbols counted. */
  ghost function CountSum(counts: seq<nat>): nat { Over(|counts|, CountAt(counts)) }

  lemma TotalLast(f: seq<Tree>, x: Tree)
    ensures Total(f + [x]) == Total(f) + x.count
  {
    hide *;
    SumsConcat(f, [x]);
    ForestOne(x);
  }

  lemma {:induction false} TotalIsSum(f: seq<Tree>)
    ensures Total(f) == SumBy(f, CountOf())
  {
    hide *;
    if f == [] {
      NothingSums();
    } else {
      var g, x := f[..|f| - 1], f[|f| - 1];
      assert f == g + [x];
      TotalIsSum(g);
      TotalLast(g, x);
      SumLast(g, x, CountOf());
      CountOfIs(x);
    }
  }

  lemma NothingSums()
    ensures Total([]) == 0 == SumBy([], CountOf())
  {
  }

  lemma CountOfIs(x: Tree)
    ensures CountOf()(x) == x.count
  {
  }

  lemma SortedTotal(counts: seq<nat>, sorted: seq<Tree>)
    requires SortedUsed(counts, sorted)
    ensures Total(sorted) == CountSum(counts)
  {
    TotalIsSum(sorted);
    SumPermuted(sorted, Used(counts, |counts|), CountOf());
    SumUsed(counts, |counts|, CountOf(), CountAt(counts));
  }

  lemma {:induction false} OneTerm(n: nat, f: nat -> nat, s: nat)
    requires s < n
    ensures f(s) <= Over(n, f)
  {
    if s < n - 1 { OneTerm(n - 1, f, s); }
  }

  lemma {:induction false} LeafCountIsSize(t: Tree)
    ensures LeafCount(t) == |LeafBag(t)|
  {
    if t.Node? {
      LeafCountIsSize(t.left);
      LeafCountIsSize(t.right);
    }
  }

  lemma SortedIsByCount(counts: seq<nat>, sorted: seq<Tree>)
    requires SortedUsed(counts, sorted)
    ensures ByCount(sorted) && AllLeaves(sorted)
    ensures |sorted| == |Used(counts, |counts|)|
    ensures forall i :: 0 <= i < |sorted| ==> sorted[i].count > 0
  {
    SortedAlphabet(counts, sorted);
    UsedElements(counts, |counts|);
    assert |multiset(sorted)| == |multiset(Used(counts, |counts|))|;
    forall i, j | 0 <= i < j < |sorted| ensures sorted[i].count <= sorted[j].count {
      assert Precedes(sorted[i], sorted[j]);
    }
    forall i | 0 <= i < |sorted| ensures sorted[i].count > 0 { assert sorted[i] in Used(counts, |counts|); }
  }

  // ------------------------------------------------------------------ lengths of the final code

  function MaskLengths(masks: seq<nat>): (lengths: seq<nat>)
    ensures |lengths| == |masks|
  {
    seq(|masks|, i requires 0 <= i < |masks| => LengthOf(masks[i]))
  }

  /** A lone symbol has a codeword of one bit. */
  ghost predicate NoLongSingle(list: seq<Coded>) { |list| == 1 ==> list[0].bits == 1 }

  lemma CompleteIsNotSingle(list: seq<Coded>)
    requires Complete(list)
    ensures NoLongSingle(list)
  {
    if |list| == 1 {
      assert Edge(list, 1) == 0;
      Pow2Monotone(UNIT - list[0].bits, UNIT);
    }
  }

  /** The packed codewords are the canonical prefix code of their lengths, none longer than max. */
  ghost predicate Codebook(masks: seq<nat>, max: nat)
  {
    && Acceptable(MaskLengths(masks))
    && NoLongSingle(Listed(MaskLengths(masks), UNIT))
    && Masks(masks, MaskLengths(masks))
    && forall s :: 0 <= s < |masks| ==> LengthOf(masks[s]) <= max
  }

  lemma PackedLength(value: nat, bits: nat)
    requires bits < 32
    ensures LengthOf(Packed(value, bits)) == bits && ValueOf(Packed(value, bits)) == value
  {
    assert (value * 32 + bits) % 32 == bits;
    assert (value * 32 + bits) / 32 == value;
  }

  lemma LevelWithinMax(c: seq<nat>, j: nat, b: nat, max: nat)
    requires |c| == LENGTH_LIMIT && b < LENGTH_LIMIT && Rank(c, j, b) && NoneBelow(c, max)
    ensures b <= max
  {
  }

  lemma AssignedWithinMax(c: seq<nat>, sorted: seq<Tree>, lengths: seq<nat>, max: nat)
    requires |c| == LENGTH_LIMIT && Assigned(c, sorted, |sorted|, lengths) && NoneBelow(c, max)
    ensures forall s :: 0 <= s < |lengths| ==> lengths[s] <= max
  {
    forall s | 0 <= s < |lengths| ensures lengths[s] <= max {
      if j :| 0 <= j < |sorted| && sorted[j].symbol == s {
        LevelWithinMax(c, j, lengths[s], max);
      } else {
        assert forall j :: 0 <= j < |sorted| ==> sorted[j].symbol != s;
      }
    }
  }

  /** The list of a full histogram can be given codewords. */
  lemma ListEncodable(lengths: seq<nat>, c: seq<nat>, max: nat)
    requires |c| == LENGTH_LIMIT && IsHistogram(c, lengths) && FullTree(c) && max <= MAX_CODEWORD_LENGTH
    requires forall s :: 0 <= s < |lengths| ==> lengths[s] <= max
    ensures Lengths(Listed(lengths, UNIT)) && Encodable(Listed(lengths, UNIT), |lengths|)
  {
    var list := Listed(lengths, UNIT);
    ListedElements(lengths, UNIT);
    ListIsSorted(lengths);
    FullTreeIsComplete(c, lengths);
    forall i, j | 0 <= i < j < |list| ensures list[i].symbol != list[j].symbol {
      assert Before(list[i], list[j]);
    }
  }

  lemma PlacedMask(masks: seq<nat>, lengths: seq<nat>, list: seq<Coded>, s: nat)
    requires |masks| == |lengths| && s < |masks| && lengths[s] <= MAX_CODEWORD_LENGTH
    requires Lengths(list) && PlacedFrom(masks, lengths, list, 0)
    requires forall k :: 0 <= k < |list| ==> list[k].symbol < |lengths| && lengths[list[k].symbol] == list[k].bits
    requires lengths[s] != 0 ==> Coded(s, lengths[s]) in list
    ensures LengthOf(masks[s]) == lengths[s] && (lengths[s] == 0 ==> masks[s] == 0)
  {
    hide Reverse, CodeLists.Code;
    if lengths[s] != 0 {
      var k :| 0 <= k < |list| && list[k] == Coded(s, lengths[s]);
      assert MaskOf(masks, list, k);
      PackedLength(Reverse(CodeLists.Code(list, k), lengths[s]), lengths[s]);
    } else {
      assert Unlisted(list, s);
    }
  }

  lemma PlacedIsCodebook(masks: seq<nat>, lengths: seq<nat>, max: nat)
    requires |masks| == |lengths| && max <= MAX_CODEWORD_LENGTH
    requires forall s :: 0 <= s < |lengths| ==> lengths[s] <= max
    requires Lengths(Listed(lengths, UNIT)) && Encodable(Listed(lengths, UNIT), |lengths|)
    requires PlacedFrom(masks, lengths, Listed(lengths, UNIT), 0)
    ensures MaskLengths(masks) == lengths && Codebook(masks, max)
  {
    hide Listed, MaskOf, LengthOf, Complete, Lengths;
    var list := Listed(lengths, UNIT);
    ListedElements(lengths, UNIT);
    forall s | 0 <= s < |masks| ensures LengthOf(masks[s]) == lengths[s] && (lengths[s] == 0 ==> masks[s] == 0) {
      PlacedMask(masks, lengths, list, s);
    }
    assert MaskLengths(masks) == lengths;
    CompleteIsNotSingle(list);
  }

  lemma Limits()
    ensures LENGTH_LIMIT == 64 && UNIT == 63 && MAX_CODEWORD_LENGTH == 27
  {
  }

  /** A full histogram of the used symbols within the length limit. */
  ghost predicate Fits(c: seq<nat>, n: nat, max: nat)
  {
    |c| == LENGTH_LIMIT && FullTree(c) && Leaves(c, 1) == n && NoneBelow(c, max)
  }

  /** The histogram of a minimal tree, shortened where it is deeper than max. */
  ghost predicate Limited(c: seq<nat>, sorted: seq<Tree>, max: nat)
  {
    exists tree :: FromTree(tree, sorted) && Shortened(tree, c, max)
  }

  /** The lengths have such a histogram, and the rarer a symbol, the longer its codeword. */
  ghost predicate LimitedCode(counts: seq<nat>, lengths: seq<nat>, max: nat)
  {
    exists sorted, c :: SortedUsed(counts, sorted) && LimitedBy(counts, sorted, c, lengths, max)
  }

  ghost predicate LimitedBy(counts: seq<nat>, sorted: seq<Tree>, c: seq<nat>, lengths: seq<nat>, max: nat)
  {
    && Fits(c, |sorted|, max) && Limited(c, sorted, max) && IsHistogram(c, lengths) && Assigned(c, sorted, |sorted|, lengths)
  }

  lemma TreeOfRun(counts: seq<nat>, sorted: seq<Tree>, run: seq<seq<Tree>>, root: Tree)
    requires SortedUsed(counts, sorted) && |sorted| >= 2 && Total(sorted) < 0x1_0000_0000
    requires GreedyRun(run, sorted, root)
    ensures Height(root) <= 45 && LeafCount(root) == |sorted| && root.Node?
  {
    SortedIsByCount(counts, sorted);
    GreedyIsShallow(run, sorted, root);
    LeavesHaveNoInner(sorted);
    RunIsCheap(run, sorted, root, |run| - 1);
    ForestOne(root);
    LeafCountIsSize(root);
    assert |multiset(sorted)| == |sorted|;
  }

  /** Lines 756-779: tree, bit lengths, truncation. None of their assertions fires. */
  method CreateHistogram(ghost counts: seq<nat>, sorted: seq<Tree>, max: nat) returns (ok: bool, c: array<nat>)
    requires SortedUsed(counts, sorted) && CountSum(counts) < 0x1_0000_0000
    requires 1 <= max <= MAX_CODEWORD_LENGTH && 2 <= |sorted| <= Pow2(max)
    ensures ok && fresh(c) && c.Length == LENGTH_LIMIT && Fits(c[..], |sorted|, max)
    ensures CountSum(counts) < Fib(max + 3) ==> FromTree(c[..], sorted)
    ensures Limited(c[..], sorted, max)
  {
    hide *;
    Limits();
    SortedIsByCount(counts, sorted);
    SortedTotal(counts, sorted);
    ghost var run;
    var root;
    ok, root, run := HuffmanCreateTree(sorted);
    TreeOfRun(counts, sorted, run, root);
    ok, c := HuffmanComputeBitLength(root);
    CountedIsFull(c[..], root);
    ghost var tree := c[..];
    TreeHistogram(counts, sorted, run, root, tree);
    if CountSum(counts) < Fib(max + 3) { TreeFits(counts, sorted, run, root, tree, max); }
    ok := HuffmanTruncateTree(c, max);
    FitsIntro(c[..], |sorted|, max);
    LimitedIntro(tree, c[..], sorted, max);
  }

  lemma LimitedIntro(tree: seq<nat>, c: seq<nat>, sorted: seq<Tree>, max: nat)
    requires FromTree(tree, sorted) && Shortened(tree, c, max)
    ensures Limited(c, sorted, max)
  {
  }

  lemma TreeHistogram(counts: seq<nat>, sorted: seq<Tree>, run: seq<seq<Tree>>, root: Tree, c: seq<nat>)
    requires SortedUsed(counts, sorted) && |sorted| >= 2 && Total(sorted) < 0x1_0000_0000
    requires GreedyRun(run, sorted, root) && Counted(c, root, 0)
    ensures FromTree(c, sorted)
  {
    hide GreedyRun, Minimal, SortedUsed, Counted;
    SortedIsByCount(counts, sorted);
    TreeOfRun(counts, sorted, run, root);
    GreedyIsMinimal(run, sorted, root);
  }

  /** For counts whose sum is below a Fibonacci number the depth limit does not bind. */
  lemma TreeFits(counts: seq<nat>, sorted: seq<Tree>, run: seq<seq<Tree>>, root: Tree, c: seq<nat>, max: nat)
    requires SortedUsed(counts, sorted) && |sorted| >= 2 && CountSum(counts) < 0x1_0000_0000
    requires GreedyRun(run, sorted, root) && Counted(c, root, 0) && CountSum(counts) < Fib(max + 3)
    ensures FromTree(c, sorted) && NoneBelow(c, max)
  {
    hide GreedyRun, Minimal, SortedUsed, Fib, CountSum;
    SortedIsByCount(counts, sorted);
    SortedTotal(counts, sorted);
    TreeOfRun(counts, sorted, run, root);
    GreedyIsWithin(run, sorted, root, max);
    GreedyIsMinimal(run, sorted, root);
    forall m | max < m < LENGTH_LIMIT
      ensures c[m] == 0
    {
      NoLeafBelow(root, 0, m);
    }
  }

  lemma FitsIntro(c: seq<nat>, n: nat, max: nat)
    requires |c| == LENGTH_LIMIT && FullTree(c) && Leaves(c, 1) == n && NoneBelow(c, max)
    ensures Fits(c, n, max)
  {
  }

  lemma FitsMeans(c: seq<nat>, n: nat, max: nat)
    requires Fits(c, n, max)
    ensures |c| == LENGTH_LIMIT && FullTree(c) && Leaves(c, 1) == n && NoneBelow(c, max) && c[0] == 0
  {
  }

  lemma CanonicalFacts(counts: seq<nat>, sorted: seq<Tree>, c: seq<nat>, lengths: seq<nat>, max: nat)
    requires SortedUsed(counts, sorted) && Fits(c, |sorted|, max) && |lengths| == |counts| && max <= MAX_CODEWORD_LENGTH
    requires Assigned(c, sorted, |sorted|, lengths)
    ensures Lengths(Listed(lengths, UNIT)) && Encodable(Listed(lengths, UNIT), |lengths|)
    ensures Listable(Listed(lengths, UNIT), |lengths|) && Complete(Listed(lengths, UNIT))
    ensures forall s :: 0 <= s < |lengths| ==> lengths[s] <= max && (lengths[s] == 0 <==> counts[s] == 0)
    ensures SumBy(sorted, Costs(lengths)) == CodeCost(counts, lengths)
  {
    hide *;
    FitsMeans(c, |sorted|, max);
    AssignedHistogram(counts, sorted, c, lengths);
    AssignedWithinMax(c, sorted, lengths, max);
    ListEncodable(lengths, c, max);
    EncodableParts(Listed(lengths, UNIT), |lengths|);
    AssignedCost(counts, sorted, lengths);
    forall s | 0 <= s < |lengths| ensures lengths[s] == 0 <==> counts[s] == 0 {
      LengthsOfUsed(counts, sorted, c, lengths, s);
    }
  }

  lemma EncodableParts(list: seq<Coded>, size: nat)
    requires Encodable(list, size)
    ensures Listable(list, size) && Complete(list)
  {
  }

  method CopyLengths(bits: array<nat>, masks: array<nat>)
    requires bits.Length == masks.Length && bits != masks
    modifies masks
    ensures masks[..] == bits[..]
  {
    var i := 0;
    while i < bits.Length
      invariant i <= bits.Length && masks[..i] == bits[..i]
    {
      masks[i] := bits[i];
      i := i + 1;
    }
  }

  /** HuffmanCanonizeTree and HuffmanCreateCodewords (lines 514-672). */
  method CreateMasks(ghost counts: seq<nat>, sorted: seq<Tree>, c: array<nat>, max: nat, masks: array<nat>)
    returns (ok: bool, cost: nat)
    requires SortedUsed(counts, sorted) && Fits(c[..], |sorted|, max) && max <= MAX_CODEWORD_LENGTH
    requires masks.Length == |counts| && c.Length == LENGTH_LIMIT
    modifies masks
    ensures ok && Codebook(masks[..], max) && cost == CodeCost(counts, MaskLengths(masks[..]))
    ensures forall s :: 0 <= s < |counts| ==> (LengthOf(masks[s]) == 0 <==> counts[s] == 0)
    ensures old(FromTree(c[..], sorted)) ==> Cheapest(sorted, cost)
    ensures old(Limited(c[..], sorted, max)) ==> LimitedCode(counts, MaskLengths(masks[..]), max)
  {
    hide *;
    FitsMeans(c[..], |sorted|, max);
    SortedAlphabet(counts, sorted);
    Limits();
    assert c[0] == c[..][0];
    var bits, costs;
    ok, bits, costs := AssignLengths(sorted, c, masks.Length);
    ghost var lengths := bits[..];
    CanonicalFacts(counts, sorted, c[..], lengths, max);
    SortedIsByCount(counts, sorted);
    if FromTree(c[..], sorted) { FromTreeIsCheapest(c[..], sorted, lengths); }
    if Limited(c[..], sorted, max) { LimitedCodeIntro(counts, sorted, c[..], lengths, max); }
    var chain := ChainByLength(bits);
    var asc := LinkChains(chain, lengths);
    cost := SuffixCost(costs);
    CopyLengths(bits, masks);
    ok := HuffmanCreateCodewords(asc, masks, Listed(lengths, UNIT));
    PlacedIsCodebook(masks[..], lengths, max);
    assert forall s {:trigger masks[s]} :: 0 <= s < |counts| ==> MaskLengths(masks[..])[s] == LengthOf(masks[s]) by {
      forall s | 0 <= s < |counts| ensures MaskLengths(masks[..])[s] == LengthOf(masks[s]) { MaskLength(masks[..], s); }
    }
  }

  lemma LimitedCodeIntro(counts: seq<nat>, sorted: seq<Tree>, c: seq<nat>, lengths: seq<nat>, max: nat)
    requires SortedUsed(counts, sorted) && Fits(c, |sorted|, max) && Limited(c, sorted, max) && |lengths| == |counts|
    requires Assigned(c, sorted, |sorted|, lengths)
    ensures LimitedCode(counts, lengths, max)
  {
    hide *;
    FitsMeans(c, |sorted|, max);
    AssignedHistogram(counts, sorted, c, lengths);
    LimitedByIntro(counts, sorted, c, lengths, max);
  }

  lemma LimitedByIntro(counts: seq<nat>, sorted: seq<Tree>, c: seq<nat>, lengths: seq<nat>, max: nat)
    requires SortedUsed(counts, sorted) && Fits(c, |sorted|, max) && Limited(c, sorted, max) && IsHistogram(c, lengths)
    requires Assigned(c, sorted, |sorted|, lengths)
    ensures LimitedCode(counts, lengths, max)
  {
    assert LimitedBy(counts, sorted, c, lengths, max);
  }

  lemma MaskLength(masks: seq<nat>, s: nat)
    requires s < |masks|
    ensures MaskLengths(masks)[s] == LengthOf(masks[s])
  {
  }

  // ------------------------------------------------------------------ Xpress9HuffmanCreateTree

  /** What a successful call leaves for counts that are not all zero: a complete prefix code within
      the limit, in which exactly the counted symbols have codewords, and its exact cost. */
  ghost predicate CodeFor(counts: seq<nat>, max: nat, masks: seq<nat>, cost: nat)
  {
    && |masks| == |counts| && Codebook(masks, max)
    && (forall s :: 0 <= s < |counts| ==> (LengthOf(masks[s]) == 0 <==> counts[s] == 0))
    && cost == CodeCost(counts, MaskLengths(masks))
  }

  lemma {:induction false} OneUsed(counts: seq<nat>, n: nat, f: nat -> nat, s: nat)
    requires s < n && forall i :: 0 <= i < n && i != s ==> f(i) == 0
    ensures Over(n, f) == f(s)
    decreases n
  {
    if s < n - 1 { OneUsed(counts, n - 1, f, s); } else { OverZero(n - 1, f); }
  }

  lemma {:induction false} OverZero(n: nat, f: nat -> nat)
    requires forall i :: 0 <= i < n ==> f(i) == 0
    ensures Over(n, f) == 0
  {
    if n > 0 { OverZero(n - 1, f); }
  }

  lemma {:induction false} LevelOne(lengths: seq<nat>, s: nat, b: nat, i: nat)
    requires s < |lengths| && i <= |lengths| && b >= 1
    requires forall m :: 0 <= m < |lengths| ==> lengths[m] == if m == s then 1 else 0
    ensures Level(lengths, b, i) == if b == 1 && i <= s then [Coded(s, 1)] else []
    decreases |lengths| - i
  {
    if i < |lengths| { LevelOne(lengths, s, b, i + 1); }
  }

  lemma {:induction false} ListedOne(lengths: seq<nat>, s: nat, b: nat)
    requires s < |lengths|
    requires forall m :: 0 <= m < |lengths| ==> lengths[m] == if m == s then 1 else 0
    ensures Listed(lengths, b) == if b >= 1 then [Coded(s, 1)] else []
    decreases b
  {
    if b > 0 {
      ListedOne(lengths, s, b - 1);
      LevelOne(lengths, s, b, 0);
    }
  }

  lemma SingleList(x: Coded)
    requires x.bits == 1
    ensures Lengths([x]) && CodeLists.Code([x], 0) == 0
  {
    assert Edge([x], 1) == 0;
    ShrSmall(0, UNIT - x.bits);
  }

  lemma SingleAccepted(lengths: seq<nat>, s: nat)
    requires s < |lengths|
    requires forall m :: 0 <= m < |lengths| ==> lengths[m] == if m == s then 1 else 0
    ensures Listed(lengths, UNIT) == [Coded(s, 1)] && Acceptable(lengths) && CodeLists.Code([Coded(s, 1)], 0) == 0
  {
    ListedOne(lengths, s, UNIT);
    SingleList(Coded(s, 1));
  }

  lemma SingleMask(masks: seq<nat>, s: nat)
    requires s < |masks| && masks[s] == 1 && CodeLists.Code([Coded(s, 1)], 0) == 0
    ensures MaskOf(masks, [Coded(s, 1)], 0)
  {
    hide CodeLists.Code;
    ReverseZero(1);
  }

  /** A lone used symbol gets the one-bit codeword 0; its code is not complete. */
  lemma SingleCode(counts: seq<nat>, s: nat, masks: seq<nat>, max: nat)
    requires |masks| == |counts| && s < |counts| && max >= 1 && counts[s] > 0
    requires forall i :: 0 <= i < |counts| && i != s ==> counts[i] == 0
    requires forall i :: 0 <= i < |masks| ==> masks[i] == if i == s then 1 else 0
    ensures CodeFor(counts, max, masks, counts[s])
  {
    hide Reverse, MaskOf, Listed, CodeLists.Code;
    var lengths := MaskLengths(masks);
    SingleAccepted(lengths, s);
    SingleMask(masks, s);
    OneUsed(counts, |counts|, Spent(counts, lengths), s);
  }

  lemma UsedOrZero(counts: seq<nat>, s: nat)
    requires s < |counts|
    ensures counts[s] == 0 || Leaf(s, counts[s]) in Used(counts, |counts|)
  {
    UsedElements(counts, |counts|);
  }

  lemma UsedNone(counts: seq<nat>)
    requires Used(counts, |counts|) == []
    ensures forall s :: 0 <= s < |counts| ==> counts[s] == 0
  {
    UsedElements(counts, |counts|);
    forall s | 0 <= s < |counts| ensures counts[s] == 0 {
      UsedOrZero(counts, s);
    }
  }

  lemma UsedOne(counts: seq<nat>)
    requires |Used(counts, |counts|)| == 1
    ensures var t := Used(counts, |counts|)[0];
      t.Leaf? && t.symbol < |counts| && t.count == counts[t.symbol] > 0
      && forall i :: 0 <= i < |counts| && i != t.symbol ==> counts[i] == 0
  {
    UsedElements(counts, |counts|);
    var used := Used(counts, |counts|);
    forall i | 0 <= i < |counts| && i != used[0].symbol ensures counts[i] == 0 {
      UsedOrZero(counts, i);
    }
  }

  method CreateSingle(ghost counts: seq<nat>, leaf: Tree, max: nat, masks: array<nat>) returns (cost: nat)
    requires masks.Length == |counts| && Used(counts, |counts|) == [leaf] && leaf.Leaf? && max >= 1
    requires leaf.symbol < masks.Length
    modifies masks
    ensures CodeFor(counts, max, masks[..], cost)
  {
    var i := 0;
    while i < masks.Length
      invariant i <= masks.Length && forall m :: 0 <= m < i ==> masks[m] == 0
    {
      masks[i] := 0;
      i := i + 1;
    }
    masks[leaf.symbol] := Packed(0, 1);
    cost := leaf.count;
    UsedOne(counts);
    SingleCode(counts, leaf.symbol, masks[..], max);
  }

  lemma CountsSmall(counts: seq<nat>)
    requires CountSum(counts) < 0x1_0000_0000
    ensures BySymbol(Used(counts, |counts|))
    ensures forall i :: 0 <= i < |Used(counts, |counts|)| ==> Used(counts, |counts|)[i].count < 0x1_0000_0000
  {
    UsedElements(counts, |counts|);
    forall s | 0 <= s < |counts| ensures counts[s] < 0x1_0000_0000 { OneTerm(|counts|, CountAt(counts), s); }
  }

  lemma SortedIntro(counts: seq<nat>, sorted: seq<Tree>)
    requires StableOrder(sorted) && multiset(sorted) == multiset(Used(counts, |counts|))
    ensures SortedUsed(counts, sorted)
  {
  }

  lemma CodeForIntro(counts: seq<nat>, max: nat, masks: seq<nat>, cost: nat)
    requires |masks| == |counts| && Codebook(masks, max)
    requires forall s :: 0 <= s < |counts| ==> (LengthOf(masks[s]) == 0 <==> counts[s] == 0)
    requires cost == CodeCost(counts, MaskLengths(masks))
    ensures CodeFor(counts, max, masks, cost)
  {
  }

  /** No prefix code for the used symbols, in the order of their counts, costs less. */
  ghost predicate CheapestFor(counts: seq<nat>, cost: nat)
  {
    forall sorted :: SortedUsed(counts, sorted) ==> Cheapest(sorted, cost)
  }

  /** A code that the call makes for counts that are not all zero: within the limit, from a minimal tree shortened as far as
      the limit asks, and cheapest where it cannot bind. */
  ghost predicate Made(counts: seq<nat>, max: nat, masks: seq<nat>, cost: nat)
  {
    && CodeFor(counts, max, masks, cost)
    && (|Used(counts, |counts|)| > 1 ==>
          LimitedCode(counts, MaskLengths(masks), max) && (CountSum(counts) < Fib(max + 3) ==> CheapestFor(counts, cost)))
  }

  lemma IsMade(counts: seq<nat>, max: nat, masks: seq<nat>, cost: nat)
    requires CodeFor(counts, max, masks, cost)
    requires |Used(counts, |counts|)| > 1 ==> LimitedCode(counts, MaskLengths(masks), max)
    requires |Used(counts, |counts|)| > 1 && CountSum(counts) < Fib(max + 3) ==> CheapestFor(counts, cost)
    ensures Made(counts, max, masks, cost)
  {
    hide CodeFor, LimitedCode, CheapestFor, Used, CountSum, Fib;
  }

  lemma OneOrder(counts: seq<nat>, sorted: seq<Tree>, cost: nat)
    requires SortedUsed(counts, sorted) && Cheapest(sorted, cost)
    ensures CheapestFor(counts, cost)
  {
    hide Cheapest;
    forall other | SortedUsed(counts, other)
      ensures Cheapest(other, cost)
    {
      SortedAlphabet(counts, sorted);
      OrderIsUnique(sorted, other);
    }
  }

  /** Returns the number of used symbols; |counts| + 1 would be the failure of an assertion, and never
      happens. With no used symbol the masks and the cost are left as they were. */
  method Xpress9HuffmanCreateTree(counts: seq<nat>, max: nat, masks: array<nat>, cost0: nat) returns (n: nat, cost: nat)
    requires masks.Length == |counts| && CountSum(counts) < 0x1_0000_0000
    requires 1 <= max <= MAX_CODEWORD_LENGTH && |Used(counts, |counts|)| <= Pow2(max)
    modifies masks
    ensures n == |Used(counts, |counts|)|
    ensures n == 0 ==> masks[..] == old(masks[..]) && cost == cost0 && forall s :: 0 <= s < |counts| ==> counts[s] == 0
    ensures n > 0 ==> CodeFor(counts, max, masks[..], cost)
    ensures n > 1 && CountSum(counts) < Fib(max + 3) ==> CheapestFor(counts, cost)
    ensures n > 1 ==> LimitedCode(counts, MaskLengths(masks[..]), max)
  {
    hide *;
    var used := HuffmanCreateTemp(counts);
    n, cost := |used|, cost0;
    if n <= 1 {
      if n == 1 {
        UsedOne(counts);
        assert used == [used[0]];
        cost := CreateSingle(counts, used[0], max, masks);
      } else {
        UsedNone(counts);
      }
      return;
    }
    var failure: nat := |counts| + 1;
    CountsSmall(counts);
    var sorted := SortByCount(used);
    SortedIntro(counts, sorted);
    SortedIsByCount(counts, sorted);
    var ok, c := CreateHistogram(counts, sorted, max);
    if !ok { n := failure; return; }
    ok, cost := CreateMasks(counts, sorted, c, max, masks);
    if !ok { n := failure; return; }
    CodeForIntro(counts, max, masks[..], cost);
    if Cheapest(sorted, cost) { OneOrder(counts, sorted, cost); }
  }
}
