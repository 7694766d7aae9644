/** HuffmanComputeBitLength (Xpress9EncHuffman.c:397-450): the histogram of leaf depths of a tree,
    gathered with an explicit stack of 64 entries. */
module BitLengths {
  import opened Powers
  import opened CodeLists
  import opened Histogram
  import opened HuffmanTree

  /** The number of leaves at depth b, for a root at depth d. */
  ghost function At(t: Tree, d: nat, b: nat): nat
  {
    match t
    case Leaf(_, _) => if b == d then 1 else 0
    case Node(_, l, r) => At(l, d + 1, b) + At(r, d + 1, b)
  }

  ghost function LeafCount(t: Tree): nat
  {
    match t
    case Leaf(_, _) => 1
    case Node(_, l, r) => LeafCount(l) + LeafCount(r)
  }

  ghost predicate Counted(c: seq<nat>, t: Tree, d: nat)
  {
    |c| == LENGTH_LIMIT && forall b :: 0 <= b < LENGTH_LIMIT ==> c[b] == At(t, d, b)
  }

  ghost function Depths(t: Tree, d: nat): (c: seq<nat>)
    ensures Counted(c, t, d)
  {
    seq(LENGTH_LIMIT, b requires 0 <= b < LENGTH_LIMIT => At(t, d, b))
  }

  lemma {:induction false} HistogramAdd(c: seq<nat>, a: seq<nat>, b: seq<nat>, i: nat)
    requires |c| == LENGTH_LIMIT && |a| == LENGTH_LIMIT && |b| == LENGTH_LIMIT && i <= LENGTH_LIMIT
    requires forall m :: 0 <= m < LENGTH_LIMIT ==> c[m] == a[m] + b[m]
    ensures Kraft(c, i) == Kraft(a, i) + Kraft(b, i) && Leaves(c, i) == Leaves(a, i) + Leaves(b, i)
    decreases LENGTH_LIMIT - i
  {
    if i < LENGTH_LIMIT {
      HistogramAdd(c, a, b, i + 1);
      PointsAdd(a[i], b[i], i);
    }
  }

  lemma {:induction false} HistogramOne(c: seq<nat>, d: nat, i: nat)
    requires |c| == LENGTH_LIMIT && d < LENGTH_LIMIT && i <= LENGTH_LIMIT
    requires forall m :: 0 <= m < LENGTH_LIMIT ==> c[m] == if m == d then 1 else 0
    ensures Kraft(c, i) == if i <= d then Size(d) else 0
    ensures Leaves(c, i) == if i <= d then 1 else 0
    decreases LENGTH_LIMIT - i
  {
    if i < LENGTH_LIMIT {
      HistogramOne(c, d, i + 1);
      PointsAre(c[i], i);
    }
  }

  /** The leaves of a tree fill exactly the part of the code space that its root stands for. */
  lemma {:induction false} TreeIsFull(t: Tree, d: nat)
    requires d + Height(t) < LENGTH_LIMIT
    ensures Kraft(Depths(t, d), 0) == Size(d) && Leaves(Depths(t, d), 0) == LeafCount(t)
  {
    match t
    case Leaf(_, _) => HistogramOne(Depths(t, d), d, 0);
    case Node(_, l, r) =>
      TreeIsFull(l, d + 1);
      TreeIsFull(r, d + 1);
      HistogramAdd(Depths(t, d), Depths(l, d + 1), Depths(r, d + 1), 0);
      SizeHalf(d + 1);
  }

  lemma {:induction false} NoLeafAbove(t: Tree, d: nat, b: nat)
    requires b < d
    ensures At(t, d, b) == 0
  {
    match t
    case Leaf(_, _) =>
    case Node(_, l, r) =>
      NoLeafAbove(l, d + 1, b);
      NoLeafAbove(r, d + 1, b);
  }

  lemma {:induction false} NoLeafBelow(t: Tree, d: nat, b: nat)
    requires b > d + Height(t)
    ensures At(t, d, b) == 0
  {
    match t
    case Leaf(_, _) =>
    case Node(_, l, r) =>
      NoLeafBelow(l, d + 1, b);
      NoLeafBelow(r, d + 1, b);
  }

  lemma CountedIsFull(c: seq<nat>, t: Tree)
    requires t.Node? && Height(t) < LENGTH_LIMIT && Counted(c, t, 0)
    ensures FullTree(c) && Leaves(c, 1) == LeafCount(t)
  {
    TreeIsFull(t, 0);
    assert c == Depths(t, 0);
    NoLeafAbove(t.left, 1, 0);
    NoLeafAbove(t.right, 1, 0);
  }

  // ------------------------------------------------------------------ the traversal

  datatype Frame = Frame(tree: Tree, bits: nat)

  ghost function StackAt(stack: seq<Frame>, b: nat): nat
  {
    if stack == [] then 0 else StackAt(stack[..|stack| - 1], b) + At(stack[|stack| - 1].tree, stack[|stack| - 1].bits, b)
  }

  /** Depths increase up the stack, so it never holds more frames than the tree is deep. */
  ghost predicate Stacked(stack: seq<Frame>, here: Frame, height: nat)
  {
    && (forall k :: 0 <= k < |stack| ==> k <= stack[k].bits <= here.bits && stack[k].bits + Height(stack[k].tree) <= height)
    && (forall j, k :: 0 <= j < k < |stack| ==> stack[j].bits < stack[k].bits)
    && here.bits + Height(here.tree) <= height
  }

  ghost predicate Sums(c: seq<nat>, stack: seq<Frame>, here: Frame, root: Tree)
    requires |c| == LENGTH_LIMIT
  {
    forall b :: 0 <= b < LENGTH_LIMIT ==> c[b] + StackAt(stack, b) + At(here.tree, here.bits, b) == At(root, 0, b)
  }

  ghost function Work(stack: seq<Frame>): nat
  {
    if stack == [] then 0 else Work(stack[..|stack| - 1]) + LeafCount(stack[|stack| - 1].tree)
  }

  lemma StackBound(stack: seq<Frame>, here: Frame, height: nat)
    requires Stacked(stack, here, height)
    ensures |stack| <= height + 1 && here.bits <= height
  {
    if |stack| > 0 { assert stack[|stack| - 1].bits <= height; }
  }

  lemma Descend(c: seq<nat>, stack: seq<Frame>, here: Frame, right: Frame, root: Tree)
    requires |c| == LENGTH_LIMIT && Stacked(stack, here, Height(root)) && Sums(c, stack, here, root)
    requires here.tree.Node? && right == Frame(here.tree.right, here.bits + 1)
    ensures Stacked(stack + [right], Frame(here.tree.left, here.bits + 1), Height(root))
    ensures Sums(c, stack + [right], Frame(here.tree.left, here.bits + 1), root)
    ensures Work(stack + [right]) + LeafCount(here.tree.left) == Work(stack) + LeafCount(here.tree)
  {
    assert (stack + [right])[..|stack|] == stack;
    if |stack| > 0 { assert stack[|stack| - 1].bits >= |stack| - 1; }
    assert forall b :: StackAt(stack + [right], b) == StackAt(stack, b) + At(right.tree, right.bits, b);
  }

  lemma AtRoot(c: seq<nat>, root: Tree)
    requires |c| == LENGTH_LIMIT && forall b :: 0 <= b < LENGTH_LIMIT ==> c[b] == 0
    ensures Sums(c, [], Frame(root, 0), root) && Stacked([], Frame(root, 0), Height(root))
  {
  }

  /** A leaf has been counted; the traversal goes on with the top of the stack. */
  lemma LeafDone(c: seq<nat>, stack: seq<Frame>, here: Frame, root: Tree)
    requires |c| == LENGTH_LIMIT && here.bits < LENGTH_LIMIT && here.tree.Leaf?
    requires Sums(c, stack, here, root) && Stacked(stack, here, Height(root))
    ensures var next := c[here.bits := c[here.bits] + 1];
      if stack == [] then Counted(next, root, 0)
      else
        var rest, top := stack[..|stack| - 1], stack[|stack| - 1];
        Sums(next, rest, top, root) && Stacked(rest, top, Height(root))
        && Work(rest) + LeafCount(top.tree) < Work(stack) + LeafCount(here.tree)
  {
  }

  method HuffmanComputeBitLength(root: Tree) returns (ok: bool, counts: array<nat>)
    requires Height(root) < LENGTH_LIMIT - 1
    ensures ok && fresh(counts) && counts.Length == LENGTH_LIMIT && Counted(counts[..], root, 0)
  {
    hide Sums, Stacked, StackAt, Work, Counted, At;
    counts := new nat[LENGTH_LIMIT](_ => 0);
    var stack := [];
    var here := Frame(root, 0);
    AtRoot(counts[..], root);
    while true
      invariant fresh(counts) && Sums(counts[..], stack, here, root)
      invariant Stacked(stack, here, Height(root))
      decreases Work(stack) + LeafCount(here.tree)
    {
      ghost var work := Work(stack) + LeafCount(here.tree);
      while here.tree.Node?
        invariant Sums(counts[..], stack, here, root)
        invariant Stacked(stack, here, Height(root))
        invariant Work(stack) + LeafCount(here.tree) == work
        decreases Height(here.tree)
      {
        var right := Frame(here.tree.right, here.bits + 1);
        Descend(counts[..], stack, here, right, root);
        stack, here := stack + [right], Frame(here.tree.left, here.bits + 1);
        StackBound(stack, here, Height(root));
        if |stack| >= LENGTH_LIMIT { return false, counts; }
      }
      StackBound(stack, here, Height(root));
      if here.bits >= LENGTH_LIMIT { return false, counts; }
      ghost var before := counts[..];
      counts[here.bits] := counts[here.bits] + 1;
      assert counts[..] == before[here.bits := before[here.bits] + 1];
      LeafDone(before, stack, here, root);
      if stack == [] { break; }
      stack, here := stack[..|stack| - 1], stack[|stack| - 1];
    }
    ok := true;
  }
}
