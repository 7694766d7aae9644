/** HuffmanCreateTree (Xpress9EncHuffman.c:296-390): a Huffman tree from a sorted list by two queues;
    every greedy run is optimal among all prefix codes and its tree is shallow. */
module HuffmanTree {
  import opened Powers
  import opened DepthCost

  datatype Tree = Leaf(symbol: nat, count: nat) | Node(count: nat, left: Tree, right: Tree)

  function Counts(f: seq<Tree>): (ws: seq<nat>)
    ensures |ws| == |f| && forall i :: 0 <= i < |f| ==> ws[i] == f[i].count
  {
    seq(|f|, i requires 0 <= i < |f| => f[i].count)
  }

  ghost function LeafBag(t: Tree): multiset<Tree>
  {
    match t
    case Leaf(_, _) => multiset{t}
    case Node(_, l, r) => LeafBag(l) + LeafBag(r)
  }

  ghost function Bag(f: seq<Tree>): multiset<Tree>
  {
    if f == [] then multiset{} else LeafBag(f[0]) + Bag(f[1..])
  }

  /** The sum of count times depth over all leaves, for a root at depth d. */
  ghost function WeightedDepth(t: Tree, d: nat): nat
  {
    match t
    case Leaf(_, c) => c * d
    case Node(_, l, r) => WeightedDepth(l, d + 1) + WeightedDepth(r, d + 1)
  }

  /** The sum of the counts of the inner nodes. */
  ghost function Inner(t: Tree): nat
  {
    match t
    case Leaf(_, _) => 0
    case Node(c, l, r) => c + Inner(l) + Inner(r)
  }

  ghost predicate Sound(t: Tree)
  {
    match t
    case Leaf(_, _) => true
    case Node(c, l, r) => c == l.count + r.count && Sound(l) && Sound(r)
  }

  lemma {:induction false} DepthIsInner(t: Tree, d: nat)
    requires Sound(t)
    ensures WeightedDepth(t, d) == t.count * d + Inner(t)
  {
    match t
    case Leaf(_, _) =>
    case Node(c, l, r) =>
      DepthIsInner(l, d + 1);
      DepthIsInner(r, d + 1);
      OneDeeper(l.count, r.count, d);
  }

  lemma OneDeeper(a: nat, b: nat, d: nat)
    ensures a * (d + 1) + b * (d + 1) == (a + b) * d + (a + b)
  {
  }

  // ------------------------------------------------------------------ greedy runs

  ghost function Without(f: seq<Tree>, i: nat, j: nat): seq<Tree>
    requires i < j < |f|
  {
    f[..i] + f[i + 1..j] + f[j + 1..]
  }

  /** Two lightest trees of f are merged; the new tree goes to the end. */
  ghost predicate MergeAt(f: seq<Tree>, g: seq<Tree>, i: nat, j: nat)
  {
    && i < j < |f|
    && (Lightest(Counts(f), i, j) || Lightest(Counts(f), j, i))
    && (g == Without(f, i, j) + [Node(f[i].count + f[j].count, f[i], f[j])]
        || g == Without(f, i, j) + [Node(f[i].count + f[j].count, f[j], f[i])])
  }

  ghost predicate GreedyMerge(f: seq<Tree>, g: seq<Tree>)
  {
    exists i, j :: MergeAt(f, g, i, j)
  }

  ghost predicate GreedyRun(run: seq<seq<Tree>>, leaves: seq<Tree>, root: Tree)
  {
    && |run| >= 1 && run[0] == leaves && run[|run| - 1] == [root]
    && forall k :: 0 <= k < |run| - 1 ==> GreedyMerge(run[k], run[k + 1])
  }

  // ------------------------------------------------------------------ what a run keeps

  ghost function TotalInner(f: seq<Tree>): nat
  {
    if f == [] then 0 else Inner(f[0]) + TotalInner(f[1..])
  }

  ghost function Total(f: seq<Tree>): nat
  {
    if f == [] then 0 else f[0].count + Total(f[1..])
  }

  lemma {:induction false} BagConcat(f: seq<Tree>, g: seq<Tree>)
    ensures Bag(f + g) == Bag(f) + Bag(g)
  {
    hide LeafBag;
    if f == [] {
      assert f + g == g;
    } else {
      BagConcat(f[1..], g);
      assert (f + g)[1..] == f[1..] + g;
    }
  }

  lemma {:induction false} SumsConcat(f: seq<Tree>, g: seq<Tree>)
    ensures TotalInner(f + g) == TotalInner(f) + TotalInner(g)
    ensures Total(f + g) == Total(f) + Total(g)
  {
    if f == [] {
      assert f + g == g;
    } else {
      SumsConcat(f[1..], g);
      assert (f + g)[1..] == f[1..] + g;
    }
  }

  lemma ForestOne(t: Tree)
    ensures Bag([t]) == LeafBag(t) && TotalInner([t]) == Inner(t) && Total([t]) == t.count
  {
    assert [t][1..] == [];
  }

  lemma BagAt(f: seq<Tree>, i: nat)
    requires i < |f|
    ensures Bag(f) == Bag(f[..i]) + (LeafBag(f[i]) + Bag(f[i + 1..]))
  {
    hide Bag, LeafBag;
    assert f == f[..i] + ([f[i]] + f[i + 1..]);
    BagConcat(f[..i], [f[i]] + f[i + 1..]);
    BagConcat([f[i]], f[i + 1..]);
    ForestOne(f[i]);
  }

  lemma SumsAt(f: seq<Tree>, i: nat)
    requires i < |f|
    ensures TotalInner(f) == TotalInner(f[..i]) + Inner(f[i]) + TotalInner(f[i + 1..])
    ensures Total(f) == Total(f[..i]) + f[i].count + Total(f[i + 1..])
  {
    hide TotalInner, Total, Inner;
    assert f == f[..i] + ([f[i]] + f[i + 1..]);
    SumsConcat(f[..i], [f[i]] + f[i + 1..]);
    SumsConcat([f[i]], f[i + 1..]);
    ForestOne(f[i]);
  }

  lemma BagWithout(f: seq<Tree>, i: nat, j: nat)
    requires i < j < |f|
    ensures Bag(f) == Bag(Without(f, i, j)) + LeafBag(f[i]) + LeafBag(f[j])
  {
    hide Bag, LeafBag;
    var a, b, c := f[..i], f[i + 1..j], f[j + 1..];
    BagAt(f, j);
    BagAt(f[..j], i);
    assert f[..j][..i] == a && f[..j][i + 1..] == b && f[..j][i] == f[i];
    BagConcat(a, b);
    BagConcat(a + b, c);
  }

  lemma SumsWithout(f: seq<Tree>, i: nat, j: nat)
    requires i < j < |f|
    ensures TotalInner(f) == TotalInner(Without(f, i, j)) + Inner(f[i]) + Inner(f[j])
    ensures Total(f) == Total(Without(f, i, j)) + f[i].count + f[j].count
  {
    hide TotalInner, Total, Inner;
    var a, b, c := f[..i], f[i + 1..j], f[j + 1..];
    SumsAt(f, j);
    SumsAt(f[..j], i);
    assert f[..j][..i] == a && f[..j][i + 1..] == b && f[..j][i] == f[i];
    SumsConcat(a, b);
    SumsConcat(a + b, c);
  }

  ghost predicate AllSound(f: seq<Tree>)
  {
    forall i :: 0 <= i < |f| ==> Sound(f[i])
  }

  /** What a merge appends. */
  lemma MergedTree(f: seq<Tree>, g: seq<Tree>, i: nat, j: nat) returns (n: Tree)
    requires MergeAt(f, g, i, j)
    ensures g == Without(f, i, j) + [n] && n.count == f[i].count + f[j].count
    ensures n == Node(n.count, f[i], f[j]) || n == Node(n.count, f[j], f[i])
  {
    n := g[|g| - 1];
  }

  lemma MergeBag(f: seq<Tree>, g: seq<Tree>, i: nat, j: nat)
    requires MergeAt(f, g, i, j)
    ensures Bag(g) == Bag(f)
  {
    var n := MergedTree(f, g, i, j);
    assert LeafBag(n) == LeafBag(f[i]) + LeafBag(f[j]);
    hide *;
    BagWithout(f, i, j);
    BagConcat(Without(f, i, j), [n]);
    ForestOne(n);
  }

  lemma MergeSums(f: seq<Tree>, g: seq<Tree>, i: nat, j: nat)
    requires MergeAt(f, g, i, j)
    ensures Total(g) == Total(f)
    ensures TotalInner(g) == TotalInner(f) + f[i].count + f[j].count
  {
    var n := MergedTree(f, g, i, j);
    assert Inner(n) == n.count + Inner(f[i]) + Inner(f[j]);
    hide *;
    SumsWithout(f, i, j);
    SumsConcat(Without(f, i, j), [n]);
    ForestOne(n);
  }

  lemma MergeSound(f: seq<Tree>, g: seq<Tree>, i: nat, j: nat)
    requires MergeAt(f, g, i, j) && AllSound(f)
    ensures AllSound(g) && Counts(g) == Merged(Counts(f), i, j)
  {
    var n := MergedTree(f, g, i, j);
    forall m | 0 <= m < |g| ensures Sound(g[m]) {
      if m < |g| - 1 { assert g[m] in f; }
    }
    assert Counts(g) == Merged(Counts(f), i, j);
  }

  // ------------------------------------------------------------------ optimality

  ghost predicate Cheap(leaves: seq<Tree>, f: seq<Tree>)
  {
    && AllSound(f)
    && forall limit: nat :: Dominates(limit, Counts(leaves), TotalInner(f), Counts(f))
  }

  lemma {:induction false} RunIsCheap(run: seq<seq<Tree>>, leaves: seq<Tree>, root: Tree, k: nat)
    requires GreedyRun(run, leaves, root) && k < |run| && AllSound(leaves) && TotalInner(leaves) == 0
    ensures Cheap(leaves, run[k]) && Bag(run[k]) == Bag(leaves) && Total(run[k]) == Total(leaves)
  {
    if k == 0 {
      forall limit: nat ensures Dominates(limit, Counts(leaves), 0, Counts(leaves)) {
        DominatesStart(limit, Counts(leaves));
      }
    } else {
      RunIsCheap(run, leaves, root, k - 1);
      assert GreedyMerge(run[k - 1], run[k - 1 + 1]);
      var i, j :| MergeAt(run[k - 1], run[k], i, j);
      MergeBag(run[k - 1], run[k], i, j);
      MergeSums(run[k - 1], run[k], i, j);
      MergeSound(run[k - 1], run[k], i, j);
      var f, g := run[k - 1], run[k];
      forall limit: nat ensures Dominates(limit, Counts(leaves), TotalInner(g), Counts(g)) {
        GreedyStep(limit, Counts(leaves), TotalInner(f), Counts(f), i, j);
      }
    }
  }

  ghost predicate AllLeaves(f: seq<Tree>)
  {
    forall i :: 0 <= i < |f| ==> f[i].Leaf?
  }

  lemma {:induction false} LeavesHaveNoInner(f: seq<Tree>)
    requires AllLeaves(f)
    ensures AllSound(f) && TotalInner(f) == 0 && Bag(f) == multiset(f)
  {
    if f != [] {
      LeavesHaveNoInner(f[1..]);
      assert forall i :: 1 <= i < |f| ==> f[i] == f[1..][i - 1];
      assert f == [f[0]] + f[1..];
    }
  }

  /** No prefix code for the same counts costs less than the tree of a greedy run. */
  lemma GreedyIsOptimal(run: seq<seq<Tree>>, leaves: seq<Tree>, root: Tree, code: seq<Item>, limit: nat)
    requires GreedyRun(run, leaves, root) && AllLeaves(leaves)
    requires Weighs(code, Counts(leaves)) && PrefixCode(code, limit)
    ensures WeightedDepth(root, 0) <= Cost(code)
    ensures Sound(root) && LeafBag(root) == multiset(leaves) && root.count == Total(leaves)
  {
    LeavesHaveNoInner(leaves);
    RunIsCheap(run, leaves, root, |run| - 1);
    ForestOne(root);
    assert [root][0] == root;
    DominatesEnd(limit, Counts(leaves), Inner(root), Counts([root]), code);
    DepthIsInner(root, 0);
  }

  /** A tree of exactly these leaves that no prefix code for their counts undercuts. */
  ghost predicate Minimal(root: Tree, leaves: seq<Tree>)
  {
    && Sound(root) && LeafBag(root) == multiset(leaves) && root.count == Total(leaves)
    && forall code: seq<Item>, limit: nat :: Weighs(code, Counts(leaves)) && PrefixCode(code, limit) ==>
         WeightedDepth(root, 0) <= Cost(code)
  }

  lemma GreedyIsMinimal(run: seq<seq<Tree>>, leaves: seq<Tree>, root: Tree)
    requires GreedyRun(run, leaves, root) && AllLeaves(leaves)
    ensures Minimal(root, leaves)
  {
    forall code: seq<Item>, limit: nat | Weighs(code, Counts(leaves)) && PrefixCode(code, limit)
      ensures WeightedDepth(root, 0) <= Cost(code)
    {
      GreedyIsOptimal(run, leaves, root, code, limit);
    }
    LeavesHaveNoInner(leaves);
    RunIsCheap(run, leaves, root, |run| - 1);
    ForestOne(root);
  }

  // ------------------------------------------------------------------ depth

  ghost function Height(t: Tree): nat
  {
    match t
    case Leaf(_, _) => 0
    case Node(_, l, r) => 1 + if Height(l) > Height(r) then Height(l) else Height(r)
  }

  /** A son of one brother never weighs more than the other brother. */
  ghost predicate Growing(t: Tree)
  {
    match t
    case Leaf(_, c) => c > 0
    case Node(_, l, r) => Growing(l) && Growing(r) && Outweighs(r, l) && Outweighs(l, r)
  }

  ghost predicate Outweighs(t: Tree, u: Tree)
  {
    u.Node? ==> t.count >= u.left.count && t.count >= u.right.count
  }

  ghost predicate Tame(f: seq<Tree>)
  {
    && (forall i :: 0 <= i < |f| ==> Growing(f[i]))
    && forall i, j :: 0 <= i < |f| && 0 <= j < |f| && i != j ==> Outweighs(f[i], f[j])
  }

  lemma TameMerged(f: seq<Tree>, i: nat, j: nat, n: Tree)
    requires i < j < |f| && Tame(f) && n.Node? && n.count == f[i].count + f[j].count
    requires (n.left == f[i] && n.right == f[j]) || (n.left == f[j] && n.right == f[i])
    requires Lightest(Counts(f), i, j) || Lightest(Counts(f), j, i)
    ensures Growing(n)
    ensures forall m :: 0 <= m < |f| && m != i && m != j ==> Outweighs(f[m], n) && Outweighs(n, f[m])
  {
    var ws := Counts(f);
    forall m | 0 <= m < |f| && m != i && m != j ensures Outweighs(f[m], n) && Outweighs(n, f[m]) {
      assert f[m].count == ws[m] && ws[i] == f[i].count && ws[j] == f[j].count;
      assert Outweighs(f[i], f[m]);
    }
  }

  lemma MergeTame(f: seq<Tree>, g: seq<Tree>, i: nat, j: nat)
    requires MergeAt(f, g, i, j) && Tame(f)
    ensures Tame(g)
  {
    hide Growing, Outweighs;
    var n := MergedTree(f, g, i, j);
    TameMerged(f, i, j, n);
    TameWithout(f, g, i, j, n);
  }

  lemma TameWithout(f: seq<Tree>, g: seq<Tree>, i: nat, j: nat, n: Tree)
    requires i < j < |f| && g == Without(f, i, j) + [n] && Tame(f) && Growing(n)
    requires forall m :: 0 <= m < |f| && m != i && m != j ==> Outweighs(f[m], n) && Outweighs(n, f[m])
    ensures Tame(g)
  {
    hide Growing, Outweighs;
    forall x | 0 <= x < |g| ensures Growing(g[x]) {
      if x < |g| - 1 { assert g[x] == f[CameFrom(i, j, x)]; }
    }
    forall x, y | 0 <= x < |g| && 0 <= y < |g| && x != y ensures Outweighs(g[x], g[y]) {
      if x < |g| - 1 { assert g[x] == f[CameFrom(i, j, x)]; }
      if y < |g| - 1 { assert g[y] == f[CameFrom(i, j, y)]; }
    }
  }

  /** Where the x-th tree of a merged forest stood before. */
  function CameFrom(i: nat, j: nat, x: nat): (y: nat)
    requires i < j
    ensures y != i && y != j
  {
    if x < i then x else if x + 1 < j then x + 1 else x + 2
  }

  lemma {:induction false} RunIsTame(run: seq<seq<Tree>>, leaves: seq<Tree>, root: Tree, k: nat)
    requires GreedyRun(run, leaves, root) && k < |run| && Tame(leaves)
    ensures Tame(run[k])
  {
    if k != 0 {
      RunIsTame(run, leaves, root, k - 1);
      assert GreedyMerge(run[k - 1], run[k - 1 + 1]);
      var i, j :| MergeAt(run[k - 1], run[k], i, j);
      MergeTame(run[k - 1], run[k], i, j);
    }
  }

  ghost function Fib(n: nat): nat
  {
    if n < 2 then n else Fib(n - 1) + Fib(n - 2)
  }

  lemma {:induction false} FibMonotone(m: nat, n: nat)
    requires m <= n
    ensures Fib(m) <= Fib(n)
    decreases n
  {
    if m < n && n >= 2 { FibMonotone(m, n - 1); }
  }

  /** A tree of height h weighs at least the Fibonacci number h + 2. */
  lemma {:induction false} WeightGrows(t: Tree)
    requires Growing(t) && Sound(t)
    ensures t.count >= Fib(Height(t) + 2)
  {
    match t
    case Leaf(_, _) => assert Fib(2) == 1;
    case Node(_, l, r) =>
      WeightGrows(l);
      WeightGrows(r);
      if Height(l) > Height(r) {
        HigherBrother(l, r);
      } else {
        HigherBrother(r, l);
      }
  }

  lemma HigherBrother(l: Tree, r: Tree)
    requires Growing(l) && Growing(r) && Sound(l) && Sound(r) && Outweighs(r, l) && Height(l) >= Height(r)
    requires l.count >= Fib(Height(l) + 2) && r.count >= Fib(Height(r) + 2)
    ensures l.count + r.count >= Fib(Height(l) + 3)
    decreases l, 0
  {
    match l
    case Leaf(_, _) => assert Fib(3) == 2;
    case Node(_, a, b) =>
      WeightGrows(if Height(a) > Height(b) then a else b);
  }

  /** Counts that add up to less than 2^32 never need a codeword of more than 45 bits. */
  lemma GreedyIsShallow(run: seq<seq<Tree>>, leaves: seq<Tree>, root: Tree)
    requires GreedyRun(run, leaves, root) && AllLeaves(leaves) && Total(leaves) < 0x1_0000_0000
    requires forall i :: 0 <= i < |leaves| ==> leaves[i].count > 0
    ensures Height(root) <= 45
  {
    hide Fib;
    RootOfRun(run, leaves, root);
    WeightGrows(root);
    FibBound(Height(root) + 2);
  }

  /** The total that a tree higher than max needs: below it the limit max does not bind. */
  lemma GreedyIsWithin(run: seq<seq<Tree>>, leaves: seq<Tree>, root: Tree, max: nat)
    requires GreedyRun(run, leaves, root) && AllLeaves(leaves) && Total(leaves) < Fib(max + 3)
    requires forall i :: 0 <= i < |leaves| ==> leaves[i].count > 0
    ensures Height(root) <= max
  {
    hide Fib;
    RootOfRun(run, leaves, root);
    WeightGrows(root);
    if Height(root) > max { FibMonotone(max + 3, Height(root) + 2); }
  }

  lemma RootOfRun(run: seq<seq<Tree>>, leaves: seq<Tree>, root: Tree)
    requires GreedyRun(run, leaves, root) && AllLeaves(leaves)
    requires forall i :: 0 <= i < |leaves| ==> leaves[i].count > 0
    ensures Sound(root) && Growing(root) && root.count == Total(leaves)
  {
    hide Total, TotalInner, Bag;
    LeavesHaveNoInner(leaves);
    RunIsCheap(run, leaves, root, |run| - 1);
    RunIsTame(run, leaves, root, |run| - 1);
    ForestOne(root);
    assert [root][0] == root;
  }

  lemma FibBound(n: nat)
    ensures Fib(n) < 0x1_0000_0000 ==> n <= 47
  {
    hide Fib;
    if n >= 48 {
      var c: nat := 48;
      FibMonotone(c, n);
      FibAt48(c);
    }
  }

  lemma FibAt48(n: nat)
    requires n == 48
    ensures Fib(n) == 4807526976
  {
    assert Fib(12) == 144 && Fib(13) == 233;
    assert Fib(24) == 46368 && Fib(25) == 75025;
    assert Fib(36) == 14930352 && Fib(37) == 24157817;
    assert Fib(48) == 4807526976;
  }

  // ------------------------------------------------------------------ a small tall tree

  function Ones(): seq<Tree> { [Leaf(0, 1), Leaf(1, 1), Leaf(2, 1), Leaf(3, 1), Leaf(4, 1)] }

  /** Five counts of 1 give a tree of height 3. */
  lemma FiveOnesAreTall() returns (run: seq<seq<Tree>>, root: Tree)
    ensures GreedyRun(run, Ones(), root) && Height(root) == 3 && root.count == 5
  {
    var f := Ones();
    var first := Node(2, f[0], f[1]);
    var second := Node(2, f[2], f[3]);
    var third := Node(3, f[4], first);
    root := Node(5, second, third);
    run := [f, [f[2], f[3], f[4], first], [f[4], first, second], [second, third], [root]];
    assert MergeAt(run[0], run[0 + 1], 0, 1) && MergeAt(run[1], run[1 + 1], 0, 1);
    assert MergeAt(run[2], run[2 + 1], 0, 1) && MergeAt(run[3], run[3 + 1], 0, 1);
  }

  /** No positive counts with a smaller sum do. */
  lemma TallNeedsFive(run: seq<seq<Tree>>, leaves: seq<Tree>, root: Tree)
    requires GreedyRun(run, leaves, root) && AllLeaves(leaves) && Height(root) >= 3
    requires forall i :: 0 <= i < |leaves| ==> leaves[i].count > 0
    ensures root.count >= 5
  {
    RootOfRun(run, leaves, root);
    WeightGrows(root);
    FibMonotone(5, Height(root) + 2);
    assert Fib(5) == 5;
  }
}
