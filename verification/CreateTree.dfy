/** HuffmanCreateTree (Xpress9EncHuffman.c:296-390): the two-queue construction is a greedy run. */
module CreateTree {
  import opened Powers
  import opened DepthCost
  import opened HuffmanTree

  ghost predicate ByCount(f: seq<Tree>)
  {
    forall i, j :: 0 <= i < j < |f| ==> f[i].count <= f[j].count
  }

  /** What is still to be merged: the leaves from li on, then the inner nodes from h on. */
  ghost function Pending(leaves: seq<Tree>, li: nat, nodes: seq<Tree>, h: nat): seq<Tree>
    requires li <= |leaves| && h <= |nodes|
  {
    leaves[li..] + nodes[h..]
  }

  /** Both queues are sorted, nothing pending is lighter than floor and the youngest node is at most
      twice as heavy, so that the next node will not be lighter than it. */
  ghost predicate Queues(leaves: seq<Tree>, li: nat, nodes: seq<Tree>, h: nat, floor: nat)
  {
    && li <= |leaves| && h < |nodes|
    && ByCount(leaves[li..]) && ByCount(nodes[h..])
    && (forall i :: 0 <= i < |Pending(leaves, li, nodes, h)| ==> Pending(leaves, li, nodes, h)[i].count >= floor)
    && nodes[|nodes| - 1].count <= 2 * floor
  }

  /** dl leaves and dh nodes are taken from the heads, and they are no heavier than what follows. */
  ghost predicate Heads(leaves: seq<Tree>, li: nat, nodes: seq<Tree>, h: nat, dl: nat, dh: nat)
  {
    && dl + dh == 2 && li + dl <= |leaves| && h + dh <= |nodes|
    && (dl >= 1 && h + dh < |nodes| ==> leaves[li + dl - 1].count <= nodes[h + dh].count)
    && (dh >= 1 && li + dl < |leaves| ==> nodes[h + dh - 1].count <= leaves[li + dl].count)
  }

  lemma HeadsAreLightest(leaves: seq<Tree>, li: nat, nodes: seq<Tree>, h: nat, floor: nat, dl: nat, dh: nat,
                         i: nat, j: nat)
    requires Queues(leaves, li, nodes, h, floor) && Heads(leaves, li, nodes, h, dl, dh)
    requires i == (if dl == 0 then |leaves| - li else 0)
    requires j == (if dl == 2 then 1 else if dl == 1 then |leaves| - li else |leaves| - li + 1)
    ensures i < j < |Pending(leaves, li, nodes, h)|
    ensures Lightest(Counts(Pending(leaves, li, nodes, h)), i, j) || Lightest(Counts(Pending(leaves, li, nodes, h)), j, i)
  {
    var f := Pending(leaves, li, nodes, h);
    var l := leaves[li..];
    forall k | 0 <= k < |f| && k != i && k != j ensures f[i].count <= f[k].count && f[j].count <= f[k].count {
      if k < |l| {
        assert f[k] == l[k];
      } else {
        assert f[k] == nodes[h..][k - |l|];
      }
    }
  }

  lemma HeadsRemoved(leaves: seq<Tree>, li: nat, nodes: seq<Tree>, h: nat, dl: nat, dh: nat, i: nat, j: nat, n: Tree)
    requires dl + dh == 2 && li + dl <= |leaves| && h + dh <= |nodes|
    requires i == (if dl == 0 then |leaves| - li else 0)
    requires j == (if dl == 2 then 1 else if dl == 1 then |leaves| - li else |leaves| - li + 1)
    ensures i < j < |Pending(leaves, li, nodes, h)|
    ensures Without(Pending(leaves, li, nodes, h), i, j) + [n] == Pending(leaves, li + dl, nodes + [n], h + dh)
  {
  }

  lemma Appended(nodes: seq<Tree>, h: nat, dh: nat, n: Tree)
    requires h + dh <= |nodes| && h < |nodes| && ByCount(nodes[h..]) && nodes[|nodes| - 1].count <= n.count
    ensures ByCount((nodes + [n])[h + dh..])
  {
    var rest := nodes[h..];
    assert (nodes + [n])[h + dh..] == rest[dh..] + [n];
    assert rest[|rest| - 1] == nodes[|nodes| - 1];
  }

  lemma QueuesNext(leaves: seq<Tree>, li: nat, nodes: seq<Tree>, h: nat, floor: nat, dl: nat, dh: nat,
                   x: Tree, y: Tree, n: Tree)
    requires Queues(leaves, li, nodes, h, floor) && Heads(leaves, li, nodes, h, dl, dh)
    requires n.count == x.count + y.count && floor <= x.count <= y.count
    requires forall t :: t in leaves[li + dl..] || t in nodes[h + dh..] ==> y.count <= t.count
    ensures Queues(leaves, li + dl, nodes + [n], h + dh, y.count)
  {
    Appended(nodes, h, dh, n);
    StillSorted(leaves, li, dl);
    PendingFloor(leaves, li + dl, nodes, h + dh, n, y.count);
    hide ByCount, Pending;
  }

  lemma StillSorted(leaves: seq<Tree>, li: nat, dl: nat)
    requires li + dl <= |leaves| && ByCount(leaves[li..])
    ensures ByCount(leaves[li + dl..])
  {
    assert leaves[li + dl..] == leaves[li..][dl..];
  }

  lemma PendingFloor(leaves: seq<Tree>, li: nat, nodes: seq<Tree>, h: nat, n: Tree, floor: nat)
    requires li <= |leaves| && h <= |nodes| && n.count >= floor
    requires forall t :: t in leaves[li..] || t in nodes[h..] ==> floor <= t.count
    ensures forall i :: 0 <= i < |Pending(leaves, li, nodes + [n], h)| ==> Pending(leaves, li, nodes + [n], h)[i].count >= floor
  {
    assert Pending(leaves, li, nodes + [n], h) == (leaves[li..] + nodes[h..]) + [n];
  }

  function Merge(x: Tree, y: Tree): Tree
  {
    Node((x.count + y.count) % 0x1_0000_0000, x, y)
  }

  /** The two heads taken, lighter one first. */
  ghost predicate Taken(leaves: seq<Tree>, li: nat, nodes: seq<Tree>, h: nat, dl: nat, dh: nat, x: Tree, y: Tree)
  {
    && dl + dh == 2 && li + dl <= |leaves| && h + dh <= |nodes| && x.count <= y.count
    && match dl
       case 0 => x == nodes[h] && y == nodes[h + 1]
       case 1 => (x == leaves[li] && y == nodes[h]) || (x == nodes[h] && y == leaves[li])
       case _ => x == leaves[li] && y == leaves[li + 1]
  }

  lemma {:induction false} TotalOfTwo(leaves: seq<Tree>, li: nat, nodes: seq<Tree>, h: nat, dl: nat, dh: nat, x: Tree, y: Tree)
    requires Taken(leaves, li, nodes, h, dl, dh, x, y)
    ensures x.count + y.count <= Total(Pending(leaves, li, nodes, h))
  {
    var f := Pending(leaves, li, nodes, h);
    if dl == 0 {
      SumsWithout(f, |leaves| - li, |leaves| - li + 1);
    } else if dl == 1 {
      SumsWithout(f, 0, |leaves| - li);
    } else {
      SumsWithout(f, 0, 1);
    }
  }

  lemma HeadsInPending(leaves: seq<Tree>, li: nat, nodes: seq<Tree>, h: nat, dl: nat, dh: nat, x: Tree, y: Tree,
                       i: nat, j: nat)
    requires Taken(leaves, li, nodes, h, dl, dh, x, y)
    requires i == (if dl == 0 then |leaves| - li else 0)
    requires j == (if dl == 2 then 1 else if dl == 1 then |leaves| - li else |leaves| - li + 1)
    ensures i < j < |Pending(leaves, li, nodes, h)|
    ensures var f := Pending(leaves, li, nodes, h); (f[i] == x && f[j] == y) || (f[i] == y && f[j] == x)
  {
  }

  lemma TwoQueueMerge(leaves: seq<Tree>, li: nat, nodes: seq<Tree>, h: nat, floor: nat, dl: nat, dh: nat, x: Tree, y: Tree,
                      n: Tree)
    returns (i: nat, j: nat)
    requires Queues(leaves, li, nodes, h, floor) && Heads(leaves, li, nodes, h, dl, dh)
    requires Taken(leaves, li, nodes, h, dl, dh, x, y) && n == Node(x.count + y.count, x, y)
    ensures MergeAt(Pending(leaves, li, nodes, h), Pending(leaves, li + dl, nodes + [n], h + dh), i, j)
  {
    hide Queues, Heads, Taken, Lightest, Pending, Counts, Without;
    i, j := TakenAt(leaves, li, nodes, h, dl, dh, x, y);
    HeadsAreLightest(leaves, li, nodes, h, floor, dl, dh, i, j);
    HeadsRemoved(leaves, li, nodes, h, dl, dh, i, j, n);
    HeadsInPending(leaves, li, nodes, h, dl, dh, x, y, i, j);
  }

  lemma TakenAt(leaves: seq<Tree>, li: nat, nodes: seq<Tree>, h: nat, dl: nat, dh: nat, x: Tree, y: Tree)
    returns (i: nat, j: nat)
    requires Taken(leaves, li, nodes, h, dl, dh, x, y)
    ensures dl + dh == 2 && li + dl <= |leaves| && h + dh <= |nodes|
    ensures i == (if dl == 0 then |leaves| - li else 0)
    ensures j == (if dl == 2 then 1 else if dl == 1 then |leaves| - li else |leaves| - li + 1)
  {
    i := if dl == 0 then |leaves| - li else 0;
    j := if dl == 2 then 1 else if dl == 1 then |leaves| - li else |leaves| - li + 1;
  }

  /** One merge of the two-queue construction is a greedy merge. */
  lemma TwoQueueStep(leaves: seq<Tree>, li: nat, nodes: seq<Tree>, h: nat, floor: nat, dl: nat, dh: nat, x: Tree, y: Tree)
    requires Queues(leaves, li, nodes, h, floor) && Heads(leaves, li, nodes, h, dl, dh)
    requires Taken(leaves, li, nodes, h, dl, dh, x, y) && Total(Pending(leaves, li, nodes, h)) < 0x1_0000_0000
    ensures GreedyMerge(Pending(leaves, li, nodes, h), Pending(leaves, li + dl, nodes + [Merge(x, y)], h + dh))
    ensures Queues(leaves, li + dl, nodes + [Merge(x, y)], h + dh, y.count)
    ensures Total(Pending(leaves, li + dl, nodes + [Merge(x, y)], h + dh)) < 0x1_0000_0000
  {
    var n := Merge(x, y);
    TotalOfTwo(leaves, li, nodes, h, dl, dh, x, y);
    assert x.count <= y.count;
    RestIsHeavier(leaves, li, nodes, h, floor, dl, dh, x, y);
    QueuesNext(leaves, li, nodes, h, floor, dl, dh, x, y, n);
    var i, j := TwoQueueMerge(leaves, li, nodes, h, floor, dl, dh, x, y, n);
    MergeSums(Pending(leaves, li, nodes, h), Pending(leaves, li + dl, nodes + [n], h + dh), i, j);
  }

  lemma RestIsHeavier(leaves: seq<Tree>, li: nat, nodes: seq<Tree>, h: nat, floor: nat, dl: nat, dh: nat, x: Tree, y: Tree)
    requires Queues(leaves, li, nodes, h, floor) && Heads(leaves, li, nodes, h, dl, dh)
    requires Taken(leaves, li, nodes, h, dl, dh, x, y)
    ensures floor <= x.count
    ensures forall t :: t in leaves[li + dl..] || t in nodes[h + dh..] ==> y.count <= t.count
  {
    var f, l, q := Pending(leaves, li, nodes, h), leaves[li..], nodes[h..];
    assert x in f by {
      if dl == 0 { assert f[|l|] == nodes[h]; } else { assert f[0] == leaves[li]; if dl == 1 { assert f[|l|] == nodes[h]; } }
    }
    assert leaves[li + dl..] == l[dl..] && nodes[h + dh..] == q[dh..];
  }

  lemma FirstTwo(leaves: seq<Tree>, n: Tree, i: nat, j: nat)
    requires |leaves| >= 2 && ByCount(leaves) && n == Node(leaves[0].count + leaves[1].count, leaves[0], leaves[1])
    requires i == 0 && j == 1
    ensures MergeAt(leaves, Pending(leaves, 2, [n], 0), i, j)
  {
    assert Without(leaves, i, j) + [n] == Pending(leaves, 2, [n], 0);
    var ws := Counts(leaves);
    assert Lightest(ws, i, j);
  }

  lemma FirstMerge(leaves: seq<Tree>, n: Tree)
    requires |leaves| >= 2 && ByCount(leaves) && n == Node(leaves[0].count + leaves[1].count, leaves[0], leaves[1])
    ensures leaves[0].count + leaves[1].count <= Total(leaves)
    ensures GreedyMerge(leaves, Pending(leaves, 2, [n], 0))
    ensures Total(Pending(leaves, 2, [n], 0)) == Total(leaves)
  {
    hide Total, MergeAt, Without, Pending;
    FirstTwo(leaves, n, 0, 1);
    SumsWithout(leaves, 0, 1);
    MergeSums(leaves, Pending(leaves, 2, [n], 0), 0, 1);
  }

  lemma FirstQueues(leaves: seq<Tree>, n: Tree)
    requires |leaves| >= 2 && ByCount(leaves) && n.count == leaves[0].count + leaves[1].count
    ensures Queues(leaves, 2, [n], 0, leaves[1].count)
  {
    assert forall i :: 0 <= i < |leaves| - 2 ==> leaves[2..][i] == leaves[2 + i];
  }

  lemma RunningStart(leaves: seq<Tree>, nodes: seq<Tree>) returns (run: seq<seq<Tree>>)
    requires |leaves| >= 2 && ByCount(leaves) && Total(leaves) < 0x1_0000_0000
    requires nodes == [Merge(leaves[0], leaves[1])]
    ensures leaves[0].count + leaves[1].count < 0x1_0000_0000
    ensures Running(run, leaves, 2, nodes, 0, leaves[1].count)
  {
    hide Total, Queues, Pending, GreedyMerge;
    var n := Node(leaves[0].count + leaves[1].count, leaves[0], leaves[1]);
    FirstMerge(leaves, n);
    FirstQueues(leaves, n);
    run := [leaves, Pending(leaves, 2, nodes, 0)];
  }

  lemma RunningBounds(run: seq<seq<Tree>>, leaves: seq<Tree>, li: nat, nodes: seq<Tree>, h: nat, floor: nat)
    requires Running(run, leaves, li, nodes, h, floor)
    ensures li <= |leaves| && h < |nodes| && Queues(leaves, li, nodes, h, floor)
  {
  }

  lemma LastTwo(run: seq<seq<Tree>>, leaves: seq<Tree>, nodes: seq<Tree>, h: nat, floor: nat)
    requires Running(run, leaves, |leaves|, nodes, h, floor) && h + 1 < |nodes|
    ensures Heads(leaves, |leaves|, nodes, h, 0, 2) && Taken(leaves, |leaves|, nodes, h, 0, 2, nodes[h], nodes[h + 1])
  {
    assert nodes[h..][0] == nodes[h] && nodes[h..][1] == nodes[h + 1];
  }

  lemma RunEnds(run: seq<seq<Tree>>, leaves: seq<Tree>, nodes: seq<Tree>, h: nat, floor: nat)
    requires Running(run, leaves, |leaves|, nodes, h, floor) && h + 1 == |nodes|
    ensures GreedyRun(run, leaves, nodes[h])
  {
    assert Pending(leaves, |leaves|, nodes, h) == [nodes[h]];
  }

  lemma RunExtends(run: seq<seq<Tree>>, g: seq<Tree>)
    requires |run| >= 1 && (forall k :: 0 <= k < |run| - 1 ==> GreedyMerge(run[k], run[k + 1]))
    requires GreedyMerge(run[|run| - 1], g)
    ensures forall k :: 0 <= k < |run + [g]| - 1 ==> GreedyMerge((run + [g])[k], (run + [g])[k + 1])
  {
    var all := run + [g];
    forall k | 0 <= k < |all| - 1 ensures GreedyMerge(all[k], all[k + 1]) {
      if k < |run| - 1 { assert GreedyMerge(run[k], run[k + 1]); }
    }
  }

  /** The invariant of both loops. */
  ghost predicate Running(run: seq<seq<Tree>>, leaves: seq<Tree>, li: nat, nodes: seq<Tree>, h: nat, floor: nat)
  {
    && Queues(leaves, li, nodes, h, floor)
    && Total(Pending(leaves, li, nodes, h)) < 0x1_0000_0000
    && |run| >= 1 && run[0] == leaves && run[|run| - 1] == Pending(leaves, li, nodes, h)
    && forall k :: 0 <= k < |run| - 1 ==> GreedyMerge(run[k], run[k + 1])
  }

  lemma RunningNext(run: seq<seq<Tree>>, leaves: seq<Tree>, li: nat, nodes: seq<Tree>, h: nat, floor: nat,
                    dl: nat, dh: nat, x: Tree, y: Tree)
    requires Running(run, leaves, li, nodes, h, floor) && Heads(leaves, li, nodes, h, dl, dh)
    requires Taken(leaves, li, nodes, h, dl, dh, x, y)
    ensures Running(run + [Pending(leaves, li + dl, nodes + [Merge(x, y)], h + dh)], leaves, li + dl,
                    nodes + [Merge(x, y)], h + dh, y.count)
  {
    TwoQueueStep(leaves, li, nodes, h, floor, dl, dh, x, y);
    RunExtends(run, Pending(leaves, li + dl, nodes + [Merge(x, y)], h + dh));
  }

  /** Lines 330-368: the lighter head first, a leaf before a node of the same count. */
  method TakeTwo(leaves: seq<Tree>, li0: nat, nodes: seq<Tree>, h0: nat, ghost floor: nat)
    returns (x: Tree, y: Tree, dl: nat, dh: nat)
    requires Queues(leaves, li0, nodes, h0, floor) && li0 < |leaves|
    ensures dl + dh == 2 && Heads(leaves, li0, nodes, h0, dl, dh) && Taken(leaves, li0, nodes, h0, dl, dh, x, y)
  {
    var li, h := li0, h0;
    QueueHeads(leaves[li0..]);
    QueueHeads(nodes[h0..]);
    if leaves[li].count <= nodes[h].count {
      x := leaves[li];
      li := li + 1;
      if li < |leaves| && leaves[li].count <= nodes[h].count {
        y := leaves[li];
        li := li + 1;
      } else {
        y := nodes[h];
        h := h + 1;
      }
    } else {
      x := nodes[h];
      h := h + 1;
      if h == |nodes| || leaves[li].count <= nodes[h].count {
        y := leaves[li];
        li := li + 1;
      } else {
        y := nodes[h];
        h := h + 1;
      }
    }
    dl, dh := li - li0, h - h0;
  }

  lemma QueueHeads(q: seq<Tree>)
    requires ByCount(q)
    ensures |q| > 1 ==> q[0].count <= q[1].count
    ensures |q| > 2 ==> q[1].count <= q[2].count
  {
  }

  /** Lines 371-384: no leaves are left. */
  method MergeNodes(ghost leaves: seq<Tree>, nodes0: seq<Tree>, h0: nat, ghost floor0: nat, ghost run0: seq<seq<Tree>>)
    returns (root: Tree, ghost run: seq<seq<Tree>>)
    requires h0 < |nodes0| && Running(run0, leaves, |leaves|, nodes0, h0, floor0)
    ensures GreedyRun(run, leaves, root)
  {
    hide *;
    var nodes, h: nat := nodes0, h0;
    ghost var floor := floor0;
    run := run0;
    while h < |nodes| - 1
      invariant h < |nodes| && Running(run, leaves, |leaves|, nodes, h, floor)
      decreases |nodes| - h
    {
      var x, y := nodes[h], nodes[h + 1];
      LastTwo(run, leaves, nodes, h, floor);
      RunningNext(run, leaves, |leaves|, nodes, h, floor, 0, 2, x, y);
      run := run + [Pending(leaves, |leaves| + 0, nodes + [Merge(x, y)], h + 2)];
      nodes, floor, h := nodes + [Merge(x, y)], y.count, h + 2;
      RunningBounds(run, leaves, |leaves|, nodes, h, floor);
    }
    root := nodes[h];
    RunEnds(run, leaves, nodes, h, floor);
  }

  ghost predicate Positive(leaves: seq<Tree>) { forall i :: 0 <= i < |leaves| ==> leaves[i].count > 0 }

  lemma RootIsMinimal(run: seq<seq<Tree>>, leaves: seq<Tree>, root: Tree)
    requires GreedyRun(run, leaves, root) && AllLeaves(leaves) && Total(leaves) < 0x1_0000_0000
    ensures Minimal(root, leaves) && (Positive(leaves) ==> Height(root) <= 45)
  {
    hide GreedyRun, AllLeaves, Minimal, Total, Height;
    GreedyIsMinimal(run, leaves, root);
    if Positive(leaves) { GreedyIsShallow(run, leaves, root); }
  }

  /** Fewer than two leaves fail the source's assertions; otherwise the result ends a greedy run. */
  method HuffmanCreateTree(leaves: seq<Tree>) returns (ok: bool, root: Tree, ghost run: seq<seq<Tree>>)
    requires ByCount(leaves) && Total(leaves) < 0x1_0000_0000
    ensures ok <==> |leaves| >= 2
    ensures ok ==> GreedyRun(run, leaves, root)
    ensures ok && AllLeaves(leaves) ==> Minimal(root, leaves)
    ensures ok && AllLeaves(leaves) && Positive(leaves) ==> Height(root) <= 45
  {
    ok, root, run := false, Leaf(0, 0), [];
    if |leaves| < 2 { return; }
    hide *;
    var nodes := [Merge(leaves[0], leaves[1])];
    run := RunningStart(leaves, nodes);
    if leaves[0].count + leaves[1].count >= 0x1_0000_0000 { return; }
    var li: nat, h: nat := 2, 0;
    ghost var floor := leaves[1].count;
    while li < |leaves|
      invariant li <= |leaves| && h < |nodes| && Running(run, leaves, li, nodes, h, floor)
      decreases |leaves| + |nodes| - li - h
    {
      RunningBounds(run, leaves, li, nodes, h, floor);
      var x, y, dl, dh := TakeTwo(leaves, li, nodes, h, floor);
      RunningNext(run, leaves, li, nodes, h, floor, dl, dh, x, y);
      run := run + [Pending(leaves, li + dl, nodes + [Merge(x, y)], h + dh)];
      nodes, li, h, floor := nodes + [Merge(x, y)], li + dl, h + dh, y.count;
      RunningBounds(run, leaves, li, nodes, h, floor);
    }
    root, run := MergeNodes(leaves, nodes, h, floor, run);
    if AllLeaves(leaves) { RootIsMinimal(run, leaves, root); }
    ok := true;
  }
}
