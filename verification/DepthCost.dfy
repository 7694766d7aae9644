/** Assignments of code lengths to weighted symbols: merging the two lightest symbols never makes the
    best achievable cost worse. This is the exchange argument behind Huffman's algorithm, stated for
    every assignment whose Kraft sum is at most one, that is, for every prefix code. */
module DepthCost {
  import opened Powers

  datatype Item = Item(w: nat, d: nat)

  ghost function Sum(items: seq<Item>, f: Item -> int): int
  {
    if items == [] then 0 else f(items[0]) + Sum(items[1..], f)
  }

  ghost function Removed(items: seq<Item>, i: nat): seq<Item>
    requires i < |items|
  {
    items[..i] + items[i + 1..]
  }

  lemma {:induction false} SumConcat(a: seq<Item>, b: seq<Item>, f: Item -> int)
    ensures Sum(a + b, f) == Sum(a, f) + Sum(b, f)
  {
    if a == [] {
      assert a + b == b;
    } else {
      SumConcat(a[1..], b, f);
      assert (a + b)[1..] == a[1..] + b;
    }
  }

  lemma SumAt(items: seq<Item>, i: nat, f: Item -> int)
    requires i < |items|
    ensures Sum(items, f) == Sum(Removed(items, i), f) + f(items[i])
  {
    var a, x, b := items[..i], [items[i]], items[i + 1..];
    assert items == a + (x + b);
    SumConcat(a, x + b, f);
    SumConcat(x, b, f);
    SumConcat(a, b, f);
    assert Sum(x, f) == f(items[i]) + Sum(x[1..], f);
  }

  lemma SumUpdate(items: seq<Item>, i: nat, x: Item, f: Item -> int)
    requires i < |items|
    ensures Sum(items[i := x], f) == Sum(items, f) - f(items[i]) + f(x)
  {
    SumAt(items, i, f);
    SumAt(items[i := x], i, f);
    assert Removed(items[i := x], i) == Removed(items, i);
  }

  // ------------------------------------------------------------------ Kraft sum and cost

  /** The share of the code space of depth limit that a codeword of d bits takes. */
  ghost function Share(limit: nat): Item -> int
  {
    (x: Item) => if x.d <= limit then Pow2(limit - x.d) else 0
  }

  ghost function Bits(): Item -> int
  {
    (x: Item) => x.w * x.d
  }

  ghost function Cost(items: seq<Item>): int
  {
    Sum(items, Bits())
  }

  /** The depths belong to a prefix code. */
  ghost predicate PrefixCode(items: seq<Item>, limit: nat)
  {
    && (forall i :: 0 <= i < |items| ==> items[i].d <= limit)
    && Sum(items, Share(limit)) <= Pow2(limit)
  }

  ghost predicate Weighs(items: seq<Item>, ws: seq<nat>)
  {
    |items| == |ws| && forall i :: 0 <= i < |items| ==> items[i].w == ws[i]
  }

  /** Exchanging the depths of two symbols. */
  ghost function Swapped(items: seq<Item>, i: nat, j: nat): seq<Item>
    requires i < |items| && j < |items|
  {
    items[i := Item(items[i].w, items[j].d)][j := Item(items[j].w, items[i].d)]
  }

  lemma SwapKeeps(items: seq<Item>, i: nat, j: nat, limit: nat)
    requires i < |items| && j < |items| && i != j && PrefixCode(items, limit)
    requires items[i].w <= items[j].w && items[i].d <= items[j].d
    ensures PrefixCode(Swapped(items, i, j), limit) && Cost(Swapped(items, i, j)) <= Cost(items)
  {
    var x, y := items[i], items[j];
    var once := items[i := Item(x.w, y.d)];
    SumUpdate(items, i, Item(x.w, y.d), Share(limit));
    SumUpdate(once, j, Item(y.w, x.d), Share(limit));
    SumUpdate(items, i, Item(x.w, y.d), Bits());
    SumUpdate(once, j, Item(y.w, x.d), Bits());
    Rearrange(x.w, y.w, x.d, y.d);
  }

  lemma Rearrange(v: nat, w: nat, c: nat, d: nat)
    requires v <= w && c <= d
    ensures v * d + w * c <= v * c + w * d
  {
    assert (w - v) * (d - c) >= 0;
    assert (w - v) * (d - c) == w * d - w * c - v * d + v * c;
  }

  ghost predicate Deepest(items: seq<Item>, m: nat)
  {
    forall i :: 0 <= i < |items| ==> items[i].d <= m
  }

  /** All symbols but the p-th lie above level m: their shares are multiples of a whole node. */
  lemma {:induction false} SharesAligned(items: seq<Item>, limit: nat, m: nat)
    requires 0 < m <= limit && forall i :: 0 <= i < |items| ==> items[i].d < m
    ensures Multiple(Sum(items, Share(limit)), Pow2(limit - m + 1))
  {
    if items == [] {
      MultipleIs(0, 0, Pow2(limit - m + 1));
    } else {
      SharesAligned(items[1..], limit, m);
      Pow2Multiple(limit - m + 1, limit - items[0].d);
      MultipleSum(Pow2(limit - items[0].d), Sum(items[1..], Share(limit)), Pow2(limit - m + 1));
    }
  }

  lemma {:induction false} SharesPositive(items: seq<Item>, limit: nat)
    requires forall i :: 0 <= i < |items| ==> items[i].d <= limit
    ensures Sum(items, Share(limit)) >= |items|
  {
    if items != [] { SharesPositive(items[1..], limit); }
  }

  /** A lone deepest codeword can be shortened by a bit. */
  lemma Shorten(items: seq<Item>, p: nat, limit: nat)
    requires p < |items| && PrefixCode(items, limit) && items[p].d > 0
    requires forall i :: 0 <= i < |items| && i != p ==> items[i].d < items[p].d
    ensures PrefixCode(items[p := Item(items[p].w, items[p].d - 1)], limit)
    ensures Cost(items[p := Item(items[p].w, items[p].d - 1)]) <= Cost(items)
  {
    var m, x := items[p].d, Item(items[p].w, items[p].d - 1);
    var rest := Removed(items, p);
    SumAt(items, p, Share(limit));
    SumUpdate(items, p, x, Share(limit));
    SumUpdate(items, p, x, Bits());
    SharesAligned(rest, limit, m);
    var node := Pow2(limit - m + 1);
    Pow2Multiple(limit - m + 1, limit);
    if Sum(rest, Share(limit)) < Pow2(limit) {
      MultipleGap(Sum(rest, Share(limit)), Pow2(limit), node);
    }
    assert items[p].w * m - items[p].w * (m - 1) == items[p].w;
  }

  lemma DeepestExists(items: seq<Item>) returns (p: nat)
    requires items != []
    ensures p < |items| && Deepest(items, items[p].d)
  {
    p := 0;
    var n := 1;
    while n < |items|
      invariant p < n <= |items| && forall i :: 0 <= i < n ==> items[i].d <= items[p].d
    {
      if items[n].d > items[p].d { p := n; }
      n := n + 1;
    }
  }

  lemma TwoNeedDepth(items: seq<Item>, limit: nat)
    requires |items| >= 2 && PrefixCode(items, limit)
    ensures exists i :: 0 <= i < |items| && items[i].d > 0
  {
    if forall i :: 0 <= i < |items| ==> items[i].d == 0 {
      SumAt(items, 0, Share(limit));
      SumAt(Removed(items, 0), 0, Share(limit));
      SharesPositive(Removed(Removed(items, 0), 0), limit);
    }
  }

  ghost function Depths(): Item -> int { (x: Item) => x.d }

  lemma {:induction false} DepthsNonneg(items: seq<Item>)
    ensures Sum(items, Depths()) >= 0
  {
    if items != [] { DepthsNonneg(items[1..]); }
  }

  /** Some code at least as good has two codewords of maximal length. */
  lemma {:induction false} TwoDeepest(items: seq<Item>, limit: nat) returns (better: seq<Item>, p: nat, q: nat)
    requires |items| >= 2 && PrefixCode(items, limit)
    ensures |better| == |items| && forall i :: 0 <= i < |items| ==> better[i].w == items[i].w
    ensures PrefixCode(better, limit) && Cost(better) <= Cost(items)
    ensures p < |better| && q < |better| && p != q && better[p].d == better[q].d > 0 && Deepest(better, better[p].d)
    decreases Sum(items, Depths())
  {
    p := DeepestExists(items);
    TwoNeedDepth(items, limit);
    if r :| 0 <= r < |items| && r != p && items[r].d == items[p].d {
      better, q := items, r;
    } else {
      var shorter := items[p := Item(items[p].w, items[p].d - 1)];
      Shorten(items, p, limit);
      SumUpdate(items, p, shorter[p], Depths());
      DepthsNonneg(items);
      better, p, q := TwoDeepest(shorter, limit);
    }
  }

  /** ws[i] <= ws[j] are two lightest weights. */
  ghost predicate Lightest(ws: seq<nat>, i: nat, j: nat)
  {
    && i < |ws| && j < |ws| && i != j && ws[i] <= ws[j]
    && forall k :: 0 <= k < |ws| && k != i && k != j ==> ws[j] <= ws[k]
  }

  lemma WeighsSame(items: seq<Item>, better: seq<Item>, ws: seq<nat>)
    requires Weighs(items, ws) && |better| == |items| && forall i :: 0 <= i < |items| ==> better[i].w == items[i].w
    ensures Weighs(better, ws)
  {
  }

  /** The two lightest symbols can be given the two longest codewords. */
  lemma LightestDeepest(items: seq<Item>, ws: seq<nat>, i: nat, j: nat, limit: nat) returns (better: seq<Item>)
    requires Weighs(items, ws) && Lightest(ws, i, j) && PrefixCode(items, limit)
    ensures Weighs(better, ws) && PrefixCode(better, limit) && Cost(better) <= Cost(items)
    ensures better[i].d == better[j].d > 0
  {
    var p, q;
    better, p, q := TwoDeepest(items, limit);
    WeighsSame(items, better, ws);
    // bring i down, in exchange for a deepest symbol other than j
    if better[i].d != better[p].d {
      if p == j { p, q := q, p; }
      var next := Swapped(better, i, p);
      SwapKeeps(better, i, p, limit);
      better, p := next, i;
    } else if q == i {
      p, q := q, p;
    }
    // bring j down, in exchange for a deepest symbol other than i
    if better[j].d != better[i].d {
      var next := Swapped(better, j, q);
      SwapKeeps(better, j, q, limit);
      better := next;
    }
  }

  /** The weights after merging two symbols into one. */
  ghost function Merged(ws: seq<nat>, i: nat, j: nat): seq<nat>
    requires i < |ws| && j < |ws| && i < j
  {
    ws[..i] + ws[i + 1..j] + ws[j + 1..] + [ws[i] + ws[j]]
  }

  ghost function Joined(items: seq<Item>, i: nat, j: nat): seq<Item>
    requires i < |items| && j < |items| && i < j && items[i].d > 0
  {
    items[..i] + items[i + 1..j] + items[j + 1..] + [Item(items[i].w + items[j].w, items[i].d - 1)]
  }

  lemma JoinedSum(items: seq<Item>, i: nat, j: nat, f: Item -> int)
    requires i < |items| && j < |items| && i < j && items[i].d > 0
    ensures Sum(Joined(items, i, j), f)
            == Sum(items, f) - f(items[i]) - f(items[j]) + f(Item(items[i].w + items[j].w, items[i].d - 1))
  {
    hide Sum;
    var top := Item(items[i].w + items[j].w, items[i].d - 1);
    var rest := items[..i] + items[i + 1..j] + items[j + 1..];
    var once := Removed(items, j);
    SumAt(items, j, f);
    SumAt(once, i, f);
    assert once[i] == items[i] && Removed(once, i) == rest;
    SumConcat(rest, [top], f);
    SumOne(top, f);
  }

  lemma SumOne(x: Item, f: Item -> int)
    ensures Sum([x], f) == f(x)
  {
    assert [x][1..] == [];
  }

  lemma JoinSiblings(items: seq<Item>, i: nat, j: nat, limit: nat)
    requires i < j < |items| && items[i].d == items[j].d > 0 && PrefixCode(items, limit)
    ensures PrefixCode(Joined(items, i, j), limit)
    ensures Cost(Joined(items, i, j)) + items[i].w + items[j].w == Cost(items)
  {
    var top := Item(items[i].w + items[j].w, items[i].d - 1);
    JoinedSum(items, i, j, Share(limit));
    JoinedSum(items, i, j, Bits());
    SiblingBits(items[i].w, items[j].w, items[i].d);
    assert Share(limit)(top) == Share(limit)(items[i]) + Share(limit)(items[j]) by {
      assert Pow2(limit - top.d) == 2 * Pow2(limit - items[i].d);
    }
  }

  lemma SiblingBits(x: nat, y: nat, d: nat)
    requires d > 0
    ensures (x + y) * (d - 1) == x * d + y * d - x - y
  {
  }

  /** cost plus the best code for ws is no more than the best code for ws0. */
  ghost predicate Dominates(limit: nat, ws0: seq<nat>, cost: int, ws: seq<nat>)
  {
    forall items0 :: Weighs(items0, ws0) && PrefixCode(items0, limit) ==> Covered(limit, items0, cost, ws)
  }

  ghost predicate Covered(limit: nat, items0: seq<Item>, cost: int, ws: seq<nat>)
  {
    exists items :: Weighs(items, ws) && PrefixCode(items, limit) && cost + Cost(items) <= Cost(items0)
  }

  lemma DominatesStart(limit: nat, ws: seq<nat>)
    ensures Dominates(limit, ws, 0, ws)
  {
    forall items0 | Weighs(items0, ws) && PrefixCode(items0, limit) ensures Covered(limit, items0, 0, ws) {
      assert 0 + Cost(items0) <= Cost(items0);
    }
  }

  lemma {:induction false} CostNonneg(items: seq<Item>)
    ensures Cost(items) >= 0
  {
    if items != [] {
      CostNonneg(items[1..]);
      assert items[0].w * items[0].d >= 0;
    }
  }

  /** A bound on every code for the original weights. */
  lemma DominatesEnd(limit: nat, ws0: seq<nat>, cost: int, ws: seq<nat>, items0: seq<Item>)
    requires Dominates(limit, ws0, cost, ws) && Weighs(items0, ws0) && PrefixCode(items0, limit)
    ensures cost <= Cost(items0)
  {
    assert Covered(limit, items0, cost, ws);
    var items :| Weighs(items, ws) && PrefixCode(items, limit) && cost + Cost(items) <= Cost(items0);
    CostNonneg(items);
  }

  lemma GreedyItems(limit: nat, ws: seq<nat>, i: nat, j: nat, items: seq<Item>) returns (joined: seq<Item>)
    requires i < j < |ws| && Weighs(items, ws) && PrefixCode(items, limit)
    requires Lightest(ws, i, j) || Lightest(ws, j, i)
    ensures Weighs(joined, Merged(ws, i, j)) && PrefixCode(joined, limit)
    ensures Cost(joined) + ws[i] + ws[j] <= Cost(items)
  {
    var better;
    if Lightest(ws, i, j) {
      better := LightestDeepest(items, ws, i, j, limit);
    } else {
      better := LightestDeepest(items, ws, j, i, limit);
    }
    JoinSiblings(better, i, j, limit);
    joined := Joined(better, i, j);
  }

  /** The greedy step: merging two lightest weights costs their sum and loses nothing. */
  lemma GreedyStep(limit: nat, ws0: seq<nat>, cost: int, ws: seq<nat>, i: nat, j: nat)
    requires Dominates(limit, ws0, cost, ws) && i < j < |ws|
    requires Lightest(ws, i, j) || Lightest(ws, j, i)
    ensures Dominates(limit, ws0, cost + ws[i] + ws[j], Merged(ws, i, j))
  {
    forall items0 | Weighs(items0, ws0) && PrefixCode(items0, limit)
      ensures Covered(limit, items0, cost + ws[i] + ws[j], Merged(ws, i, j))
    {
      assert Covered(limit, items0, cost, ws);
      var items :| Weighs(items, ws) && PrefixCode(items, limit) && cost + Cost(items) <= Cost(items0);
      var joined := GreedyItems(limit, ws, i, j, items);
      assert cost + ws[i] + ws[j] + Cost(joined) <= Cost(items0);
    }
  }
}
