/** HuffmanDecodeFillTables (Xpress9DecHuffman.c:154-321): the tables are built bottom-up, each from
    right to left, out of the leaves in list order and the tables already built, first in first out. */
module FillTables {
  import opened Powers
  import opened BitStrings
  import opened CodeLists
  import opened DecodeTables
  import opened ReverseMask

  /** A queue entry: the table-th table, whose node is at level bits. */
  type Node = Coded

  lemma ReverseInjective(i: nat, j: nat, w: nat)
    requires i < Pow2(w) && j < Pow2(w) && Reverse(i, w) == Reverse(j, w)
    ensures i == j
  {
    ReverseInvolutive(i, w);
    ReverseInvolutive(j, w);
  }

  /** The innermost loop: every slot below a node gets the node's entry. */
  method FillSlots(table: array<int>, off: nat, w: nat, from: nat, to: nat, e: int)
    requires from < to <= Pow2(w) && off + Pow2(w) <= table.Length
    modifies table
    ensures forall s :: from <= s < to ==> table[off + Reverse(s, w)] == e
    ensures forall s :: 0 <= s < Pow2(w) && !(from <= s < to) ==>
              table[off + Reverse(s, w)] == old(table[off + Reverse(s, w)])
    ensures forall x :: 0 <= x < table.Length && !(off <= x < off + Pow2(w)) ==> table[x] == old(table[x])
  {
    var i := to;
    while i != from
      invariant from <= i <= to
      invariant forall s :: i <= s < to ==> table[off + Reverse(s, w)] == e
      invariant forall s :: 0 <= s < Pow2(w) && !(i <= s < to) ==>
                  table[off + Reverse(s, w)] == old(table[off + Reverse(s, w)])
      invariant forall x :: 0 <= x < table.Length && !(off <= x < off + Pow2(w)) ==> table[x] == old(table[x])
    {
      i := i - 1;
      var r := HuffmanReverseMask(i, w);
      forall s | 0 <= s < Pow2(w) && s != i ensures Reverse(s, w) != r {
        if Reverse(s, w) == r { ReverseInjective(s, i, w); }
      }
      table[off + r] := e;
    }
  }

  // ------------------------------------------------------------------ geometry of one table

  lemma CancelScale(x: nat, c: nat, m: nat, s: nat)
    requires s > 0 && x * s == c * (m * s)
    ensures x == c * m
  {
    assert c * (m * s) == c * m * s;
    MulCancelEqual(x, c * m, s);
  }

  lemma WholeBlock(v: nat, m: nat, u: nat, i: nat, c: nat)
    requires m > 0 && i > 0 && v * (m * u) + i == c * m
    ensures m <= i
  {
    assert v * (m * u) == v * u * m;
    MultipleIs(v * u * m, v * u, m);
    MultipleIs(c * m, c, m);
    MultipleGap(v * u * m, c * m, m);
  }

  /** A node (a, c) whose right end is the right end of slot i - 1 fits below slot i. */
  lemma NodeFits(tab: Tab, l: nat, i: nat, a: nat, c: nat)
    requires l == tab.level + tab.width && tab.level < a <= l <= UNIT && 0 < i
    requires Slot(tab.code, tab.width, i) * Size(l) == (c + 1) * Size(a)
    ensures Pow2(l - a) <= i
    ensures Slot(tab.code, tab.width, i) == (c + 1) * Pow2(l - a)
  {
    SizeMultiple(a, l);
    CancelScale(Slot(tab.code, tab.width, i), c + 1, Pow2(l - a), Size(l));
    Pow2Add(l - a, a - tab.level);
    ShlIs(tab.code, tab.width);
    WholeBlock(tab.code, Pow2(l - a), Pow2(a - tab.level), i, c + 1);
  }

  /** ... and owns exactly the 2^(l-a) slots below slot i. */
  lemma NodeSlots(tab: Tab, l: nat, i: nat, a: nat, c: nat)
    requires l == tab.level + tab.width && tab.level < a <= l <= UNIT && Pow2(l - a) <= i
    requires Slot(tab.code, tab.width, i) == (c + 1) * Pow2(l - a)
    ensures forall s: nat :: i - Pow2(l - a) <= s < i ==> Under(tab, s, a, c)
    ensures Slot(tab.code, tab.width, i - Pow2(l - a)) * Size(l) == c * Size(a)
  {
    var m := Pow2(l - a);
    AddOne(c, m);
    forall s: nat | i - m <= s < i ensures Under(tab, s, a, c) {
      ShrInterval(Slot(tab.code, tab.width, s), l - a, c);
    }
    SizeMultiple(a, l);
    MulAssoc(c, m, Size(l));
  }

  lemma AddOne(c: nat, m: nat)
    ensures (c + 1) * m == c * m + m
  {
  }

  lemma MulAssoc(a: nat, b: nat, c: nat)
    ensures a * b * c == a * (b * c)
  {
  }

  lemma BetweenMultiples(v: nat, w: nat, i: nat, s: nat, e: nat)
    requires 0 < i < w && s > 0 && (v * w + i) * s == e
    ensures v * (w * s) < e < v * (w * s) + w * s
  {
    assert (v * w + i) * s == v * (w * s) + i * s;
    MulMonotone(1, i, s);
    MulMonotone(i + 1, w, s);
    AddOne(i, s);
  }

  /** A leaf reached in the middle of a table lies below the table's root. */
  lemma LeafBelowRoot(list: seq<Coded>, k: nat, tab: Tab, l: nat, i: nat)
    requires l == tab.level + tab.width <= UNIT && 0 < i < Pow2(tab.width)
    requires Lengths(list) && Sorted(list) && k <= |list|
    requires Slot(tab.code, tab.width, i) * Size(l) == Edge(list, k)
    ensures k < |list| && list[k].bits > tab.level
  {
    var r := tab.level;
    SizeMultiple(r, l);
    ShlIs(tab.code, tab.width);
    BetweenMultiples(tab.code, Pow2(tab.width), i, Size(l), Edge(list, k));
    if list[k].bits <= r {
      EdgeAligned(list, k, list[k].bits);
      MultipleIs(tab.code * Size(r), tab.code, Size(r));
      MultiplePow2(Edge(list, k), UNIT - r, UNIT - list[k].bits);
      MultipleGap(tab.code * Size(r), Edge(list, k), Size(r));
    }
  }

  // ------------------------------------------------------------------ one table

  /** The nodes of queue name tables already built. */
  ghost predicate Known(tabs: seq<Tab>, tail: nat, node: Node)
  {
    && node.symbol < |tabs|
    && tabs[node.symbol].level == node.bits <= UNIT
    && tabs[node.symbol].width == tail
    && tabs[node.symbol].off == node.symbol * Pow2(tail)
  }

  ghost predicate AllKnown(tabs: seq<Tab>, tail: nat, queue: seq<Node>)
  {
    forall j :: 0 <= j < |queue| ==> Known(tabs, tail, queue[j])
  }

  /** The first nq queued nodes and then leaf k lie side by side, right to left, from edge. */
  ghost predicate Chain(list: seq<Coded>, tabs: seq<Tab>, tail: nat, queue: seq<Node>, nq: nat, k: nat, edge: int)
    requires Lengths(list) && k <= |list| && nq <= |queue| && AllKnown(tabs, tail, queue)
    decreases nq
  {
    if nq == 0 then Edge(list, k) == edge
    else
      && (tabs[queue[0].symbol].code + 1) * Size(queue[0].bits) == edge
      && Chain(list, tabs, tail, queue[1..], nq - 1, k, edge - Size(queue[0].bits))
  }

  /** The first nq nodes lie below level r and no deeper than l; the next one does not. */
  ghost predicate Ready(queue: seq<Node>, nq: nat, r: nat, l: nat)
    requires nq <= |queue|
  {
    && (forall j :: 0 <= j < nq ==> r < queue[j].bits <= l)
    && (nq < |queue| ==> queue[nq].bits <= r)
  }

  ghost predicate Filled(t: seq<int>, list: seq<Coded>, tabs: seq<Tab>, tab: Tab, tail: nat, i: nat)
    requires Lengths(list)
  {
    && Shape(tab, |t|)
    && forall s :: i <= s < Pow2(tab.width) ==>
         EntryOk(list, tabs, |tabs|, tab, tail, s, t[tab.off + Reverse(s, tab.width)])
  }

  predicate IsInt16(e: int) { -0x8000 <= e < 0x8000 }

  lemma SlotUnfold(tab: Tab, l: nat)
    requires l == tab.level + tab.width <= UNIT
    ensures Slot(tab.code, tab.width, Pow2(tab.width)) * Size(l) == (tab.code + 1) * Size(tab.level)
    ensures Slot(tab.code, tab.width, 0) * Size(l) == tab.code * Size(tab.level)
  {
    SizeMultiple(tab.level, l);
    ShlIs(tab.code, tab.width);
    AddOne(tab.code, Pow2(tab.width));
    MulAssoc(tab.code + 1, Pow2(tab.width), Size(l));
    MulAssoc(tab.code, Pow2(tab.width), Size(l));
  }

  ghost predicate Entries(list: seq<Coded>, tabs: seq<Tab>, tab: Tab, tail: nat, j: nat, i: nat, e: int)
    requires Lengths(list)
  {
    forall s :: j <= s < i ==> EntryOk(list, tabs, |tabs|, tab, tail, s, e)
  }

  method FillItem(table: array<int>, ghost list: seq<Coded>, ghost tabs: seq<Tab>, ghost tab: Tab, ghost tail: nat,
                  off: nat, w: nat, j: nat, i: nat, e: int)
    requires Lengths(list) && tab.off == off && tab.width == w && j < i <= Pow2(w)
    requires Filled(table[..], list, tabs, tab, tail, i) && Entries(list, tabs, tab, tail, j, i, e)
    modifies table
    ensures Filled(table[..], list, tabs, tab, tail, j)
    ensures forall x :: 0 <= x < table.Length && !(off <= x < off + Pow2(w)) ==> table[x] == old(table[x])
  {
    FillSlots(table, off, w, j, i, e);
    forall s | j <= s < Pow2(w)
      ensures EntryOk(list, tabs, |tabs|, tab, tail, s, table[off + Reverse(s, w)])
    {
      if s >= i {
        assert EntryOk(list, tabs, |tabs|, tab, tail, s, old(table[..])[off + Reverse(s, w)]);
      }
    }
  }

  function JumpValue(node: Node, tail: nat, off: nat, r: nat): int
  {
    node.symbol * Pow2(tail) - off + (node.bits - r)
  }

  function LeafValue(leaf: Coded, r: nat): int
  {
    16 * leaf.symbol + (leaf.bits - r)
  }

  lemma OffsetOrder(p: nat, q: nat, u: nat)
    requires p < q && u >= 1
    ensures p * (16 * u) % 16 == 0 && p * (16 * u) + 16 <= q * (16 * u)
  {
    assert p * (16 * u) == 16 * (p * u);
    MulMonotone(p + 1, q, 16 * u);
    AddOne(p, 16 * u);
  }

  lemma TableOffset(p: nat, q: nat, tail: nat)
    requires 4 <= tail && p < q
    ensures p * Pow2(tail) % 16 == 0 && p * Pow2(tail) + 16 <= q * Pow2(tail)
  {
    Pow2Add(4, tail - 4);
    assert Pow2(4) == 16;
    OffsetOrder(p, q, Pow2(tail - 4));
  }

  /** What holds between two items of a table: i slots are left, the queue's first nq nodes and leaf k
      lie from the right end of slot i - 1 leftwards. */
  ghost predicate Filling(list: seq<Coded>, tabs: seq<Tab>, tail: nat, tab: Tab, l: nat,
                          queue: seq<Node>, nq: nat, k: nat, i: nat)
  {
    && 4 <= tail && l == tab.level + tab.width <= UNIT && tab.off == |tabs| * Pow2(tail) && i <= Pow2(tab.width)
    && Lengths(list) && Sorted(list) && k <= |list| && (k < |list| ==> list[k].bits <= l)
    && nq <= |queue| && AllKnown(tabs, tail, queue) && Ready(queue, nq, tab.level, l)
    && (i == Pow2(tab.width) && nq == 0 ==> k < |list| && list[k].bits > tab.level)
    && Chain(list, tabs, tail, queue, nq, k, Slot(tab.code, tab.width, i) * Size(l))
  }

  lemma NodeEntries(list: seq<Coded>, tabs: seq<Tab>, tail: nat, tab: Tab, node: Node, j: nat, i: nat)
    requires Lengths(list) && 4 <= tail && Known(tabs, tail, node) && tab.off == |tabs| * Pow2(tail)
    requires tab.level < node.bits <= tab.level + tab.width
    requires forall s: nat :: j <= s < i ==> Under(tab, s, node.bits, tabs[node.symbol].code)
    ensures Entries(list, tabs, tab, tail, j, i, JumpValue(node, tail, tab.off, tab.level))
  {
    TableOffset(node.symbol, |tabs|, tail);
    var e := JumpValue(node, tail, tab.off, tab.level);
    forall s | j <= s < i ensures EntryOk(list, tabs, |tabs|, tab, tail, s, e) {
      assert JumpEntry(tab, s, e, tabs[node.symbol], tail);
    }
  }

  /** Taking the first queued node. */
  lemma TakeNode(list: seq<Coded>, tabs: seq<Tab>, tail: nat, tab: Tab, l: nat, queue: seq<Node>, nq: nat, k: nat, i: nat)
    requires Filling(list, tabs, tail, tab, l, queue, nq, k, i) && 0 < i && 0 < nq
    ensures Pow2(l - queue[0].bits) <= i
    ensures Entries(list, tabs, tab, tail, i - Pow2(l - queue[0].bits), i, JumpValue(queue[0], tail, tab.off, tab.level))
    ensures Filling(list, tabs, tail, tab, l, queue[1..], nq - 1, k, i - Pow2(l - queue[0].bits))
  {
    var node := queue[0];
    assert Known(tabs, tail, node);
    var to := tabs[node.symbol];
    NodeFits(tab, l, i, to.level, to.code);
    NodeSlots(tab, l, i, to.level, to.code);
    AddOne(to.code, Size(to.level));
    NodeEntries(list, tabs, tail, tab, node, i - Pow2(l - node.bits), i);
  }

  lemma LeafEntries(list: seq<Coded>, tabs: seq<Tab>, tail: nat, tab: Tab, k: nat, j: nat, i: nat)
    requires Lengths(list) && k < |list| && tab.level < list[k].bits <= tab.level + tab.width
    requires forall s: nat :: j <= s < i ==> Under(tab, s, list[k].bits, Code(list, k))
    ensures Entries(list, tabs, tab, tail, j, i, LeafValue(list[k], tab.level))
  {
    var e := LeafValue(list[k], tab.level);
    forall s | j <= s < i ensures EntryOk(list, tabs, |tabs|, tab, tail, s, e) {
      assert LeafEntry(list, tab, s, e, k);
    }
  }

  lemma NextLeaf(list: seq<Coded>, tabs: seq<Tab>, tail: nat, tab: Tab, l: nat, queue: seq<Node>, k: nat, i: nat)
    requires Filling(list, tabs, tail, tab, l, queue, 0, k, i) && 0 < i
    ensures k < |list| && tab.level < list[k].bits <= l
  {
    if i < Pow2(tab.width) { LeafBelowRoot(list, k, tab, l, i); }
  }

  /** Taking the next leaf. */
  lemma TakeLeaf(list: seq<Coded>, tabs: seq<Tab>, tail: nat, tab: Tab, l: nat, queue: seq<Node>, k: nat, i: nat)
    requires Filling(list, tabs, tail, tab, l, queue, 0, k, i) && 0 < i
    requires k < |list| && tab.level < list[k].bits <= l
    ensures Pow2(l - list[k].bits) <= i
    ensures Entries(list, tabs, tab, tail, i - Pow2(l - list[k].bits), i, LeafValue(list[k], tab.level))
    ensures Filling(list, tabs, tail, tab, l, queue, 0, k + 1, i - Pow2(l - list[k].bits))
  {
    var c := Code(list, k);
    CodeAligned(list, k);
    NodeFits(tab, l, i, list[k].bits, c);
    NodeSlots(tab, l, i, list[k].bits, c);
    LeafEntries(list, tabs, tail, tab, k, i - Pow2(l - list[k].bits), i);
  }

  /** How far a table is filled, in halves of the table: a node takes at most one half, a leaf of the
      table's lowest level one slot. */
  ghost predicate Regular(w: nat, i: nat, nodes: nat, leaves: nat)
  {
    2 * (Pow2(w) - i) <= nodes * Pow2(w) + 2 * leaves
  }

  lemma RegularStep(w: nat, i: nat, nodes: nat, leaves: nat, d: nat)
    requires d <= w && Pow2(d) <= i && Regular(w, i, nodes, leaves)
    ensures d < w ==> Regular(w, i - Pow2(d), nodes + 1, leaves)
    ensures d == 0 ==> Regular(w, i - Pow2(d), nodes, leaves + 1)
  {
    Pow2Monotone(d, w);
    AddOne(nodes, Pow2(w));
  }

  lemma JumpFits(tabs: seq<Tab>, tail: nat, node: Node, tab: Tab)
    requires 4 <= tail && Known(tabs, tail, node) && tab.off == |tabs| * Pow2(tail) <= 0x8000
    requires tab.level <= node.bits <= tab.level + 15
    ensures IsInt16(JumpValue(node, tail, tab.off, tab.level))
  {
    TableOffset(node.symbol, |tabs|, tail);
  }

  ghost predicate InProgress(t: seq<int>, list: seq<Coded>, tabs: seq<Tab>, tail: nat, tab: Tab, l: nat,
                             queue: seq<Node>, nq: nat, k: nat, i: nat)
  {
    Filling(list, tabs, tail, tab, l, queue, nq, k, i) && Filled(t, list, tabs, tab, tail, i)
  }

  /** Nothing outside [off, off + n) differs. */
  ghost predicate SameOutside(t: seq<int>, u: seq<int>, off: nat, n: nat)
  {
    |t| == |u| && forall x :: 0 <= x < |t| && !(off <= x < off + n) ==> t[x] == u[x]
  }

  method PlaceNode(table: array<int>, ghost list: seq<Coded>, ghost tabs: seq<Tab>, tail: nat, ghost tab: Tab, off: nat,
                   r: nat, l: nat, queue: seq<Node>, ghost nq: nat, ghost k: nat, i: nat, ghost nodes: nat, ghost leaves: nat)
    returns (ok: bool, j: nat)
    requires tab.off == off && tab.level == r < l && tab.width == l - r && 0 < i && 0 < nq
    requires InProgress(table[..], list, tabs, tail, tab, l, queue, nq, k, i)
    modifies table
    ensures SameOutside(table[..], old(table[..]), off, Pow2(l - r))
    ensures ok ==> j < i && InProgress(table[..], list, tabs, tail, tab, l, queue[1..], nq - 1, k, j)
    ensures ok && Regular(tab.width, i, nodes, leaves) ==> Regular(tab.width, j, nodes + 1, leaves)
    ensures !ok ==> off > 0x8000
  {
    var e := JumpValue(queue[0], tail, off, r);
    if !IsInt16(e) {
      if off <= 0x8000 { JumpFits(tabs, tail, queue[0], tab); }
      return false, 0;
    }
    TakeNode(list, tabs, tail, tab, l, queue, nq, k, i);
    if Regular(tab.width, i, nodes, leaves) { RegularStep(tab.width, i, nodes, leaves, l - queue[0].bits); }
    j := i - Pow2(l - queue[0].bits);
    FillItem(table, list, tabs, tab, tail, off, l - r, j, i, e);
    ok := true;
  }

  method PlaceLeaf(table: array<int>, list: seq<Coded>, ghost tabs: seq<Tab>, ghost tail: nat, ghost tab: Tab, off: nat,
                   r: nat, l: nat, ghost queue: seq<Node>, k: nat, i: nat, ghost nodes: nat, ghost leaves: nat)
    returns (ok: bool, j: nat)
    requires tab.off == off && tab.level == r < l && tab.width == l - r && 0 < i
    requires InProgress(table[..], list, tabs, tail, tab, l, queue, 0, k, i)
    modifies table
    ensures SameOutside(table[..], old(table[..]), off, Pow2(l - r))
    ensures k < |list| && r < list[k].bits <= l && (k > 0 ==> list[k].bits <= list[k - 1].bits)
    ensures ok ==> j < i && InProgress(table[..], list, tabs, tail, tab, l, queue, 0, k + 1, j)
    ensures ok && Regular(tab.width, i, nodes, leaves) && list[k].bits == l ==> Regular(tab.width, j, nodes, leaves + 1)
    ensures !ok ==> list[k].symbol >= 0x800
  {
    NextLeaf(list, tabs, tail, tab, l, queue, k, i);
    assert k > 0 ==> Before(list[k - 1], list[k]);
    var e := LeafValue(list[k], r);
    if !IsInt16(e) { return false, 0; }
    TakeLeaf(list, tabs, tail, tab, l, queue, k, i);
    if Regular(tab.width, i, nodes, leaves) && list[k].bits == l { RegularStep(tab.width, i, nodes, leaves, 0); }
    j := i - Pow2(l - list[k].bits);
    FillItem(table, list, tabs, tab, tail, off, l - r, j, i, e);
    ok := true;
  }

  lemma StartProgress(t: seq<int>, list: seq<Coded>, tabs: seq<Tab>, tail: nat, tab: Tab, l: nat,
                      queue: seq<Node>, nq: nat, k: nat)
    requires Shape(tab, |t|) && Filling(list, tabs, tail, tab, l, queue, nq, k, Pow2(tab.width))
    ensures nq <= |queue| && k <= |list| && Lengths(list)
    ensures InProgress(t, list, tabs, tail, tab, l, queue, nq, k, Pow2(tab.width))
    ensures Regular(tab.width, Pow2(tab.width), 0, 0)
    ensures forall off, n :: SameOutside(t, t, off, n)
  {
  }

  lemma Front(t: seq<int>, list: seq<Coded>, tabs: seq<Tab>, tail: nat, tab: Tab, l: nat,
              queue: seq<Node>, nq: nat, k: nat, i: nat)
    requires InProgress(t, list, tabs, tail, tab, l, queue, nq, k, i)
    ensures nq <= |queue| && (nq > 0 <==> |queue| > 0 && queue[0].bits > tab.level)
  {
  }

  lemma SameTwice(t: seq<int>, u: seq<int>, v: seq<int>, off: nat, n: nat)
    requires SameOutside(u, t, off, n) && SameOutside(v, u, off, n)
    ensures SameOutside(v, t, off, n)
  {
  }

  /** Fills one table (lines 234-294), consuming queued nodes below its root and then leaves. */
  method FillOne(table: array<int>, list: seq<Coded>, ghost tabs: seq<Tab>, tail: nat, ghost tab: Tab, off: nat,
                 r: nat, l: nat, queue0: seq<Node>, k0: nat, ghost nq0: nat)
    returns (ok: bool, queue: seq<Node>, k: nat, ghost nq: nat)
    requires r < l && tab.off == off && tab.level == r && tab.width == l - r && Shape(tab, table.Length)
    requires Filling(list, tabs, tail, tab, l, queue0, nq0, k0, Pow2(tab.width))
    modifies table
    ensures SameOutside(table[..], old(table[..]), off, Pow2(l - r))
    ensures ok ==> InProgress(table[..], list, tabs, tail, tab, l, queue, nq, k, 0)
    ensures ok ==> nq <= nq0 && queue == queue0[nq0 - nq..] && k0 <= k && (nq == 0 || k == k0)
    ensures ok ==> forall m :: k0 <= m < k ==> list[m].bits > r
    ensures ok ==> (k0 < k && list[k - 1].bits < l) || Regular(tab.width, 0, nq0 - nq, k - k0)
    ensures !ok ==> off > 0x8000 || exists m :: 0 <= m < |list| && list[m].symbol >= 0x800
  {
    hide *;
    queue, k, nq := queue0, k0, nq0;
    var i: nat := Pow2(l - r);
    StartProgress(table[..], list, tabs, tail, tab, l, queue, nq, k);
    while i != 0
      invariant nq <= nq0 <= |queue0| && queue == queue0[nq0 - nq..] && k0 <= k <= |list| && (nq == 0 || k == k0)
      invariant InProgress(table[..], list, tabs, tail, tab, l, queue, nq, k, i)
      invariant forall m :: k0 <= m < k ==> list[m].bits > r
      invariant SameOutside(table[..], old(table[..]), off, Pow2(l - r))
      invariant (k0 < k && list[k - 1].bits < l) || Regular(tab.width, i, nq0 - nq, k - k0)
      decreases i
    {
      Front(table[..], list, tabs, tail, tab, l, queue, nq, k, i);
      ghost var t0 := table[..];
      if |queue| > 0 && queue[0].bits > r {
        ok, i := PlaceNode(table, list, tabs, tail, tab, off, r, l, queue, nq, k, i, nq0 - nq, k - k0);
        SameTwice(old(table[..]), t0, table[..], off, Pow2(l - r));
        if !ok { return; }
        queue, nq := queue[1..], nq - 1;
      } else {
        ok, i := PlaceLeaf(table, list, tabs, tail, tab, off, r, l, queue, k, i, nq0 - nq, k - k0);
        SameTwice(old(table[..]), t0, table[..], off, Pow2(l - r));
        if !ok { return; }
        k := k + 1;
      }
    }
    ok := true;
  }

  // ------------------------------------------------------------------ the queue between two tables

  /** The nodes lie side by side, right to left, from one edge to the other. */
  ghost predicate Run(tabs: seq<Tab>, tail: nat, nodes: seq<Node>, from: int, to: int)
    requires AllKnown(tabs, tail, nodes)
  {
    if nodes == [] then from == to
    else
      && (tabs[nodes[0].symbol].code + 1) * Size(nodes[0].bits) == from
      && Run(tabs, tail, nodes[1..], from - Size(nodes[0].bits), to)
  }

  lemma {:induction false} RunIsChain(list: seq<Coded>, tabs: seq<Tab>, tail: nat, queue: seq<Node>, k: nat, from: int)
    requires Lengths(list) && k <= |list| && AllKnown(tabs, tail, queue) && Run(tabs, tail, queue, from, Edge(list, k))
    ensures Chain(list, tabs, tail, queue, |queue|, k, from)
  {
    if queue != [] { RunIsChain(list, tabs, tail, queue[1..], k, from - Size(queue[0].bits)); }
  }

  lemma {:induction false} RunAppend(tabs: seq<Tab>, tail: nat, nodes: seq<Node>, node: Node, from: int, to: int)
    requires AllKnown(tabs, tail, nodes) && Known(tabs, tail, node) && Run(tabs, tail, nodes, from, to)
    requires (tabs[node.symbol].code + 1) * Size(node.bits) == to
    ensures Run(tabs, tail, nodes + [node], from, to - Size(node.bits))
  {
    if nodes == [] {
      assert [node][1..] == [];
    } else {
      RunAppend(tabs, tail, nodes[1..], node, from - Size(nodes[0].bits), to);
      assert (nodes + [node])[1..] == nodes[1..] + [node];
    }
  }

  lemma {:induction false} RunAligned(tabs: seq<Tab>, tail: nat, nodes: seq<Node>, from: int, to: int, b: nat)
    requires AllKnown(tabs, tail, nodes) && Run(tabs, tail, nodes, from, to) && b <= UNIT
    requires Multiple(from, Size(b)) && forall j :: 0 <= j < |nodes| ==> nodes[j].bits == b
    ensures Multiple(to, Size(b))
  {
    if nodes != [] {
      MultipleIs(Size(b), 1, Size(b));
      MultipleSum(from, Size(b), Size(b));
      RunAligned(tabs, tail, nodes[1..], from - Size(b), to, b);
    }
  }

  lemma {:induction false} MoreTables(list: seq<Coded>, tabs: seq<Tab>, tab: Tab, tail: nat, queue: seq<Node>)
    requires AllKnown(tabs, tail, queue)
    ensures AllKnown(tabs + [tab], tail, queue)
    ensures forall from, to :: Run(tabs, tail, queue, from, to) ==> Run(tabs + [tab], tail, queue, from, to)
  {
    assert forall j :: 0 <= j < |queue| ==> Known(tabs, tail, queue[j]);
    if queue != [] { MoreTables(list, tabs, tab, tail, queue[1..]); }
  }

  lemma {:induction false} MoreTablesChain(list: seq<Coded>, tabs: seq<Tab>, tab: Tab, tail: nat, queue: seq<Node>, nq: nat, k: nat, edge: int)
    requires Lengths(list) && k <= |list| && nq <= |queue| && AllKnown(tabs, tail, queue)
    requires AllKnown(tabs + [tab], tail, queue) && Chain(list, tabs, tail, queue, nq, k, edge)
    ensures Chain(list, tabs + [tab], tail, queue, nq, k, edge)
    decreases nq
  {
    if nq != 0 { MoreTablesChain(list, tabs, tab, tail, queue[1..], nq - 1, k, edge - Size(queue[0].bits)); }
  }

  lemma {:induction false} ConsumedSize(list: seq<Coded>, k: nat, l: nat)
    requires Lengths(list) && k <= |list| && l <= UNIT && forall m :: 0 <= m < k ==> list[m].bits >= l
    ensures Edge(list, 0) <= Edge(list, k) + k * Size(l)
  {
    if k != 0 {
      ConsumedSize(list, k - 1, l);
      SizeMultiple(l, list[k - 1].bits);
      AddOne(k - 1, Size(l));
    }
  }

  /** When the leaves run out inside a table below the root table, there are more than 2^root of them. */
  lemma TooManyLeaves(list: seq<Coded>, k: nat, l: nat, root: nat, tail: nat)
    requires Complete(list) && k <= |list| && tail <= root < l <= UNIT
    requires forall m :: 0 <= m < k ==> list[m].bits >= l
    requires Edge(list, k) <= Size(l - tail)
    ensures k >= Pow2(root)
  {
    hide Pow2, Edge, Sorted;
    ConsumedSize(list, k, l);
    SizeMultiple(0, l);
    SizeMultiple(l - tail, l);
    TwiceBelow(root, l);
    Pow2Monotone(tail, root);
    if k < Pow2(root) {
      MulMonotone(k + 1, Pow2(root), Size(l));
      AddOne(k, Size(l));
      CountBound(Pow2(l), Pow2(tail), Pow2(root), Size(l));
    }
  }

  lemma TwiceBelow(root: nat, l: nat)
    requires root < l
    ensures 2 * Pow2(root) <= Pow2(l)
  {
    Pow2Monotone(root + 1, l);
  }

  lemma CountBound(whole: nat, part: nat, count: nat, s: nat)
    requires part <= count && 2 * count <= whole
    ensures count * s + part * s <= whole * s
  {
    MulMonotone(count + part, whole, s);
    assert (count + part) * s == count * s + part * s;
  }

  /** The queue at the start of a table. Its first nx nodes are left over from the previous height, all
      at level a; the others were built at the current height, at level b, and fill the interval from
      its right end down to edge; the left-over nodes and then leaf k continue from there. */
  ghost predicate Layout(list: seq<Coded>, tabs: seq<Tab>, tail: nat, root: nat, queue: seq<Node>,
                         nx: nat, a: nat, b: nat, k: nat, edge: int)
  {
    && 4 <= tail <= root <= 15 && Sorted(list) && Complete(list) && k < |list|
    && AllKnown(tabs, tail, queue)
    && (queue == [] ==> k == 0 && tabs == [])
    && (queue != [] ==> nx < |queue|) && Levels(queue, nx, a, b)
    && Chain(list, tabs, tail, queue, nx, k, edge)
    && Run(tabs, tail, queue[nx..], Pow2(UNIT), edge)
    && (queue != [] ==> Heights(list, root, tail, nx, a, b, k))
  }

  ghost predicate Levels(queue: seq<Node>, nx: nat, a: nat, b: nat)
  {
    && nx <= |queue|
    && (forall j :: 0 <= j < nx ==> queue[j].bits == a)
    && (forall j :: nx <= j < |queue| ==> queue[j].bits == b)
  }

  ghost predicate Heights(list: seq<Coded>, root: nat, tail: nat, nx: nat, a: nat, b: nat, k: nat)
    requires k < |list|
  {
    && root < b + tail <= UNIT
    && (forall m :: 0 <= m < k ==> list[m].bits > b)
    && (nx == 0 ==> list[k].bits <= b + tail)
    && (nx != 0 ==> b < a && list[k].bits <= b + tail && a <= b + tail
                    && (list[k].bits == b + tail || a == b + tail)
                    && forall m :: 0 <= m < k ==> list[m].bits > a)
  }

  /** Lines 213-221: the level of the deepest pending leaf or node. */
  function Deepest(leaf: Coded, queue: seq<Node>): (l: nat)
    ensures l >= leaf.bits && (|queue| > 0 ==> l >= queue[0].bits)
  {
    if |queue| > 0 && leaf.bits < queue[0].bits then queue[0].bits else leaf.bits
  }

  lemma ConsumedDeeper(list: seq<Coded>, tabs: seq<Tab>, tail: nat, root: nat, queue: seq<Node>,
                       nx: nat, a: nat, b: nat, k: nat, edge: int)
    requires Layout(list, tabs, tail, root, queue, nx, a, b, k, edge)
    ensures forall m :: 0 <= m < k ==> list[m].bits >= Deepest(list[k], queue)
  {
    forall m | 0 <= m < k ensures list[m].bits >= Deepest(list[k], queue) {
      assert Before(list[m], list[k]);
    }
  }

  /** The right end of the next table and the number of queued nodes it may take. */
  lemma NextTable(list: seq<Coded>, tabs: seq<Tab>, tail: nat, root: nat, queue: seq<Node>,
                  nx: nat, a: nat, b: nat, k: nat, edge: int, r: nat, l: nat)
    returns (same: bool, nq: nat, from: nat)
    requires Layout(list, tabs, tail, root, queue, nx, a, b, k, edge)
    requires if Deepest(list[k], queue) <= root then r == 0 && l == root
             else l == Deepest(list[k], queue) && r == l - tail
    ensures same ==> queue != [] && nq == nx && from == edge && r == b && l > root
    ensures !same ==> nq == |queue| && from == Pow2(UNIT) && nx == 0 && (queue != [] ==> r < b <= l)
    ensures Ready(queue, nq, r, l) && Chain(list, tabs, tail, queue, nq, k, from)
    ensures Multiple(from, Size(r)) && (nq == 0 ==> list[k].bits > r) && list[k].bits <= l <= UNIT
  {
    assert queue[..] == queue && queue[0..] == queue;
    if queue == [] {
      same, nq, from := false, 0, Pow2(UNIT);
      Pow2Multiple(UNIT - r, UNIT);
    } else if nx > 0 || list[k].bits == b + tail {
      same, nq := true, nx;
      Pow2Multiple(UNIT - r, UNIT);
      assert r == b;
      RunAligned(tabs, tail, queue[nx..], Pow2(UNIT), edge, b);
      ChainNonneg(list, tabs, tail, queue, nx, k, edge);
      from := edge;
    } else {
      same, nq, from := false, |queue|, Pow2(UNIT);
      Pow2Multiple(UNIT - r, UNIT);
      RunIsChain(list, tabs, tail, queue, k, from);
    }
  }

  lemma ChainNonneg(list: seq<Coded>, tabs: seq<Tab>, tail: nat, queue: seq<Node>, nq: nat, k: nat, edge: int)
    requires Lengths(list) && k <= |list| && nq <= |queue| && AllKnown(tabs, tail, queue)
    requires Chain(list, tabs, tail, queue, nq, k, edge)
    ensures edge >= Edge(list, k) && (nq > 0 ==> edge > Edge(list, k))
    decreases nq
  {
    if nq > 0 { ChainNonneg(list, tabs, tail, queue[1..], nq - 1, k, edge - Size(queue[0].bits)); }
  }

  lemma {:induction false} ChainExtend(list: seq<Coded>, tabs: seq<Tab>, tail: nat, queue: seq<Node>, node: Node, nq: nat, k: nat, edge: int)
    requires Lengths(list) && k <= |list| && nq <= |queue| && AllKnown(tabs, tail, queue) && Known(tabs, tail, node)
    requires Chain(list, tabs, tail, queue, nq, k, edge)
    ensures Chain(list, tabs, tail, queue + [node], nq, k, edge)
    decreases nq
  {
    if nq > 0 {
      ChainExtend(list, tabs, tail, queue[1..], node, nq - 1, k, edge - Size(queue[0].bits));
      assert (queue + [node])[1..] == queue[1..] + [node];
    }
  }

  /** Leaves remain after every table below the root table: this is where the bound on the number of
      symbols is needed. */
  lemma LeavesRemain(list: seq<Coded>, tabs: seq<Tab>, tail: nat, root: nat, tab: Tab, l: nat,
                     queue: seq<Node>, nq: nat, k: nat, queue': seq<Node>, nq': nat, k': nat, from: nat)
    requires Complete(list) && |list| <= Pow2(root) && k < |list| && tail <= root < l <= UNIT
    requires forall m :: 0 <= m < k ==> list[m].bits >= l
    requires nq <= |queue| && AllKnown(tabs, tail, queue) && Chain(list, tabs, tail, queue, nq, k, from)
    requires tab.level == l - tail && tab.width == tail && from == (tab.code + 1) * Size(tab.level)
    requires Filling(list, tabs, tail, tab, l, queue', nq', k', 0) && (nq' == 0 || k' == k)
    ensures k' < |list|
  {
    if k' == |list| {
      SlotUnfold(tab, l);
      assert tab.code * Size(tab.level) == 0;
      if tab.code > 0 { MulMonotone(1, tab.code, Size(tab.level)); }
      ChainNonneg(list, tabs, tail, queue, nq, k, from);
      TooManyLeaves(list, k, l, root, tail);
    }
  }

  lemma NewRun(tabs: seq<Tab>, tail: nat, built: seq<Node>, tab: Tab, edge: int)
    requires AllKnown(tabs, tail, built) && Run(tabs, tail, built, Pow2(UNIT), edge)
    requires tab.off == |tabs| * Pow2(tail) && tab.width == tail && tab.level <= UNIT
    requires edge == (tab.code + 1) * Size(tab.level)
    ensures AllKnown(tabs + [tab], tail, built + [Coded(|tabs|, tab.level)])
    ensures Run(tabs + [tab], tail, built + [Coded(|tabs|, tab.level)], Pow2(UNIT), tab.code * Size(tab.level))
  {
    MoreTables([], tabs, tab, tail, built);
    AddOne(tab.code, Size(tab.level));
    RunAppend(tabs + [tab], tail, built, Coded(|tabs|, tab.level), Pow2(UNIT), edge);
  }

  lemma NewChain(list: seq<Coded>, tabs: seq<Tab>, tail: nat, tab: Tab, l: nat, queue: seq<Node>, nq: nat, k: nat)
    requires Filling(list, tabs, tail, tab, l, queue, nq, k, 0) && tab.width == tail
    ensures AllKnown(tabs + [tab], tail, queue + [Coded(|tabs|, tab.level)])
    ensures Chain(list, tabs + [tab], tail, queue + [Coded(|tabs|, tab.level)], nq, k, tab.code * Size(tab.level))
  {
    SlotUnfold(tab, l);
    MoreTables(list, tabs, tab, tail, queue);
    MoreTablesChain(list, tabs, tab, tail, queue, nq, k, tab.code * Size(tab.level));
    ChainExtend(list, tabs + [tab], tail, queue, Coded(|tabs|, tab.level), nq, k, tab.code * Size(tab.level));
  }

  lemma NewHeights(list: seq<Coded>, tabs: seq<Tab>, tail: nat, root: nat, queue: seq<Node>,
                   nx: nat, a: nat, b: nat, k: nat, edge: int, same: bool, r: nat, l: nat, nq': nat, k': nat)
    requires Layout(list, tabs, tail, root, queue, nx, a, b, k, edge)
    requires l == Deepest(list[k], queue) && root < l <= UNIT && r == l - tail
    requires same ==> queue != [] && r == b && nq' <= nx
    requires !same ==> nq' <= |queue| && nx == 0 && (queue != [] ==> r < b <= l)
    requires k <= k' < |list| && (nq' == 0 || k' == k) && forall m :: k <= m < k' ==> list[m].bits > r
    ensures Heights(list, root, tail, nq', if same then a else b, r, k')
  {
    ConsumedDeeper(list, tabs, tail, root, queue, nx, a, b, k, edge);
    if k < k' { assert Before(list[k], list[k']); }
  }

  lemma NewLevels(queue: seq<Node>, nx: nat, a: nat, b: nat, same: bool, nq: nat, nq': nat, node: Node)
    requires Levels(queue, nx, a, b) && nq' <= nq <= |queue|
    requires if same then nq == nx && node.bits == b else nq == |queue| && nx == 0
    ensures Levels(queue[nq - nq'..] + [node], nq', if same then a else b, node.bits)
  {
  }

  lemma Advance(list: seq<Coded>, tabs: seq<Tab>, tail: nat, root: nat, queue: seq<Node>,
                nx: nat, a: nat, b: nat, k: nat, edge: int, same: bool, nq: nat, from: nat, tab: Tab, l: nat,
                queue': seq<Node>, nq': nat, k': nat)
    requires Layout(list, tabs, tail, root, queue, nx, a, b, k, edge)
    requires |list| <= Pow2(root) && l == Deepest(list[k], queue) && root < l <= UNIT
    requires same ==> queue != [] && nq == nx && from == edge && tab.level == b
    requires !same ==> nq == |queue| && from == Pow2(UNIT) && nx == 0 && (queue != [] ==> tab.level < b <= l)
    requires Chain(list, tabs, tail, queue, nq, k, from)
    requires tab.level == l - tail && tab.width == tail && from == (tab.code + 1) * Size(tab.level)
    requires nq' <= nq && queue' == queue[nq - nq'..] && k <= k' && (nq' == 0 || k' == k)
    requires Filling(list, tabs, tail, tab, l, queue', nq', k', 0)
    requires forall m :: k <= m < k' ==> list[m].bits > tab.level
    ensures Layout(list, tabs + [tab], tail, root, queue' + [Coded(|tabs|, tab.level)],
                   nq', if same then a else b, tab.level, k', tab.code * Size(tab.level))
  {
    hide Chain, Heights, Levels, Sorted, Size, Pow2, Known, Ready, Slot, Edge, Deepest;
    var node, r := Coded(|tabs|, tab.level), tab.level;
    ConsumedDeeper(list, tabs, tail, root, queue, nx, a, b, k, edge);
    LeavesRemain(list, tabs, tail, root, tab, l, queue, nq, k, queue', nq', k', from);
    NewChain(list, tabs, tail, tab, l, queue', nq', k');
    NewHeights(list, tabs, tail, root, queue, nx, a, b, k, edge, same, r, l, nq', k');
    var built := if same then queue[nx..] else [];
    NewRun(tabs, tail, built, tab, from);
    assert (queue' + [node])[nq'..] == built + [node];
    NewLevels(queue, nx, a, b, same, nq, nq', node);
  }

  /** The tables stand in table[..n]; the last one is the root table. */
  ghost predicate Built(t: seq<int>, list: seq<Coded>, tabs: seq<Tab>, root: nat, tail: nat, n: nat)
    requires Lengths(list)
  {
    && Pow2(root) <= n <= |t| && tabs != []
    && tabs[|tabs| - 1] == Tab(n - Pow2(root), root, 0, 0)
    && TabsOk(t, list, tabs, tail)
  }

  lemma AddTable(t: seq<int>, u: seq<int>, list: seq<Coded>, tabs: seq<Tab>, tab: Tab, tail: nat)
    requires Lengths(list) && TabsOk(t, list, tabs, tail) && Filled(u, list, tabs, tab, tail, 0)
    requires SameOutside(u, t, tab.off, Pow2(tab.width))
    requires forall q :: 0 <= q < |tabs| ==> tabs[q].off + Pow2(tabs[q].width) <= tab.off
    ensures TabsOk(u, list, tabs + [tab], tail)
  {
    var all := tabs + [tab];
    forall q | 0 <= q < |all| ensures TabOk(u, list, all, q, tail) {
      if q < |tabs| {
        assert TabOk(t, list, tabs, q, tail);
        forall i | 0 <= i < Pow2(all[q].width)
          ensures EntryOk(list, all, q, all[q], tail, i, u[all[q].off + Reverse(i, all[q].width)])
        {
          EntryKeeps(list, tabs, tab, q, tabs[q], tail, i, t[all[q].off + Reverse(i, all[q].width)]);
        }
      } else {
        forall i | 0 <= i < Pow2(tab.width)
          ensures EntryOk(list, all, q, all[q], tail, i, u[all[q].off + Reverse(i, all[q].width)])
        {
          EntryKeeps(list, tabs, tab, q, tab, tail, i, u[tab.off + Reverse(i, tab.width)]);
        }
      }
    }
  }

  lemma EntryKeeps(list: seq<Coded>, tabs: seq<Tab>, more: Tab, q: nat, tab: Tab, tail: nat, i: nat, e: int)
    requires Lengths(list) && q <= |tabs| && EntryOk(list, tabs, q, tab, tail, i, e)
    ensures EntryOk(list, tabs + [more], q, tab, tail, i, e)
  {
    if k: nat :| LeafEntry(list, tab, i, e, k) {
    } else {
      var p: nat :| p < q && JumpEntry(tab, i, e, tabs[p], tail);
      assert JumpEntry(tab, i, e, (tabs + [more])[p], tail);
    }
  }

  // ------------------------------------------------------------------ how much table space is enough

  /** Entries that always suffice: one root table, and tail tables of which all but one per height are
      filled by nodes (each at least half a table wide) or by leaves one slot wide. */
  ghost function SpaceNeeded(list: seq<Coded>, root: nat, tail: nat): nat
    requires list != []
  {
    Pow2(root) + if list[0].bits <= root then 0 else 2 * |list| + 2 * Pow2(tail) * (list[0].bits - root)
  }

  /** p entries a table; count tables built, pending nodes queued, k leaves used, d heights finished. */
  ghost predicate Budget(p: nat, count: nat, pending: nat, k: nat, d: nat)
  {
    p * (count + pending) <= 2 * k + 2 * p * d
  }

  lemma BudgetRegular(p: nat, count: nat, pending: nat, k: nat, d: nat, nodes: nat, leaves: nat)
    requires Budget(p, count, pending, k, d) && nodes <= pending && 2 * p <= nodes * p + 2 * leaves
    ensures Budget(p, count + 1, pending - nodes + 1, k + leaves, d)
  {
    assert p * (count + 1 + (pending - nodes + 1)) == p * (count + pending) + 2 * p - nodes * p;
  }

  lemma BudgetHeight(p: nat, count: nat, pending: nat, k: nat, d: nat, nodes: nat, leaves: nat)
    requires Budget(p, count, pending, k, d) && nodes <= pending
    ensures Budget(p, count + 1, pending - nodes + 1, k + leaves, d + 1)
  {
    assert p * (count + 1 + (pending - nodes + 1)) == p * (count + pending) + 2 * p - nodes * p;
    assert nodes * p >= 0;
    assert 2 * p * (d + 1) == 2 * p * d + 2 * p;
  }

  lemma BudgetSpace(p: nat, count: nat, pending: nat, k: nat, d: nat, n: nat, heights: nat)
    requires Budget(p, count, pending, k, d) && k <= n && d <= heights
    ensures count * p <= 2 * n + 2 * p * heights
    ensures d < heights ==> count * p + p <= 2 * n + 2 * p * heights
  {
    MulMonotone(d, heights, 2 * p);
    assert p * (count + pending) == count * p + pending * p;
    assert pending * p >= 0;
    if d < heights {
      MulMonotone(d + 1, heights, 2 * p);
      assert 2 * p * (d + 1) == 2 * p * d + 2 * p;
    }
  }

  // ------------------------------------------------------------------ all tables

  ghost predicate TailTables(tabs: seq<Tab>, tail: nat)
  {
    forall q :: 0 <= q < |tabs| ==> tabs[q].off == q * Pow2(tail) && tabs[q].width == tail
  }

  /** At most d heights are finished and the next table is no higher than list[0].bits - d. */
  ghost predicate Frugal(list: seq<Coded>, count: nat, root: nat, tail: nat, queue: seq<Node>, k: nat, d: nat)
    requires k < |list|
  {
    && (list[0].bits <= root ==> count == 0 && queue == [] && k == 0)
    && (list[0].bits > root ==> Deepest(list[k], queue) + d <= list[0].bits && root + d <= list[0].bits)
    && Budget(Pow2(tail), count, |queue|, k, d)
  }

  ghost predicate Head(t: seq<int>, list: seq<Coded>, tabs: seq<Tab>, tail: nat, root: nat, queue: seq<Node>,
                       nx: nat, a: nat, b: nat, k: nat, edge: int, d: nat)
  {
    && Layout(list, tabs, tail, root, queue, nx, a, b, k, edge)
    && TailTables(tabs, tail) && TabsOk(t, list, tabs, tail)
    && Frugal(list, |tabs|, root, tail, queue, k, d)
  }

  lemma SpaceSuffices(list: seq<Coded>, count: nat, root: nat, tail: nat, queue: seq<Node>, k: nat, d: nat, w: nat)
    requires k < |list| && Frugal(list, count, root, tail, queue, k, d)
    requires if Deepest(list[k], queue) <= root then w == root else w == tail && list[0].bits > root
    ensures count * Pow2(tail) + Pow2(w) <= SpaceNeeded(list, root, tail)
  {
    if list[0].bits > root {
      BudgetSpace(Pow2(tail), count, |queue|, k, d, |list|, list[0].bits - root);
    }
  }

  lemma FrugalNext(list: seq<Coded>, count: nat, root: nat, tail: nat, queue: seq<Node>, k: nat, d: nat,
                   l: nat, nodes: nat, k': nat, queue': seq<Node>)
    returns (d': nat)
    requires Sorted(list) && k < |list| && Frugal(list, count, root, tail, queue, k, d) && list[0].bits > root
    requires l == Deepest(list[k], queue) > root
    requires nodes <= |queue| && k <= k' < |list| && |queue'| == |queue| - nodes + 1
    requires queue'[0].bits <= l && (k < k' ==> queue'[0].bits < l)
    requires (k < k' && list[k' - 1].bits < l) || Regular(tail, 0, nodes, k' - k)
    ensures Frugal(list, count + 1, root, tail, queue', k', d')
  {
    assert k < k' ==> Before(list[k], list[k']) && Before(list[k' - 1], list[k']);
    if k < k' && list[k' - 1].bits < l {
      d' := d + 1;
      BudgetHeight(Pow2(tail), count, |queue|, k, d, nodes, k' - k);
    } else {
      d' := d;
      BudgetRegular(Pow2(tail), count, |queue|, k, d, nodes, k' - k);
    }
  }

  lemma RootOfEdge(from: nat, r: nat) returns (code: nat)
    requires r <= UNIT && from > 0 && Multiple(from, Size(r))
    ensures from == (code + 1) * Size(r)
  {
    var c :| from == c * Size(r);
    if c <= 0 { MulMonotone(c, 0, Size(r)); }
    code := c - 1;
  }

  lemma TablesBelow(tabs: seq<Tab>, tail: nat)
    requires TailTables(tabs, tail)
    ensures forall q :: 0 <= q < |tabs| ==> tabs[q].off + Pow2(tabs[q].width) <= |tabs| * Pow2(tail)
  {
    forall q | 0 <= q < |tabs| ensures tabs[q].off + Pow2(tabs[q].width) <= |tabs| * Pow2(tail) {
      MulMonotone(q + 1, |tabs|, Pow2(tail));
      AddOne(q, Pow2(tail));
    }
  }

  lemma NewShape(count: nat, tail: nat, tab: Tab, size: nat)
    requires 4 <= tail && tab.off == count * Pow2(tail) && tab.off + Pow2(tab.width) <= size
    requires tab.width <= 15 && tab.level + tab.width <= UNIT
    ensures Shape(tab, size)
  {
    TableOffset(count, count + 1, tail);
  }

  lemma RootIsLast(list: seq<Coded>, tabs: seq<Tab>, tail: nat, tab: Tab, queue: seq<Node>, nq: nat, k: nat)
    requires Filling(list, tabs, tail, tab, tab.width, queue, nq, k, 0) && tab.level == 0 && tab.code == 0
    requires forall j :: 0 <= j < |queue| ==> queue[j].bits > 0
    ensures queue == [] && k == |list|
  {
    SlotUnfold(tab, tab.width);
    assert tab.code * Size(tab.level) == 0;
    ChainNonneg(list, tabs, tail, queue, nq, k, 0);
    EdgeDecreases(list, k, |list|);
  }

  /** The level range of the next table (lines 213-232). */
  ghost predicate Range(list: seq<Coded>, queue: seq<Node>, k: nat, root: nat, tail: nat, r: nat, l: nat)
    requires k < |list|
  {
    if Deepest(list[k], queue) <= root then r == 0 && l == root
    else l == Deepest(list[k], queue) && r == l - tail
  }

  lemma PlanTable(size: nat, list: seq<Coded>, tabs: seq<Tab>, tail: nat, root: nat, queue: seq<Node>,
                  nx: nat, a: nat, b: nat, k: nat, edge: int, r: nat, l: nat)
    returns (same: bool, nq: nat, from: nat, tab: Tab)
    requires Layout(list, tabs, tail, root, queue, nx, a, b, k, edge)
    requires Range(list, queue, k, root, tail, r, l) && |tabs| * Pow2(tail) + Pow2(l - r) <= size
    ensures same ==> queue != [] && nq == nx && from == edge && r == b && l > root
    ensures !same ==> nq == |queue| && from == Pow2(UNIT) && nx == 0 && (queue != [] ==> r < b <= l)
    ensures tab.off == |tabs| * Pow2(tail) && tab.width == l - r && tab.level == r < l
    ensures from == (tab.code + 1) * Size(r) && Shape(tab, size)
    ensures nq <= |queue| && Chain(list, tabs, tail, queue, nq, k, from)
    ensures Filling(list, tabs, tail, tab, l, queue, nq, k, Pow2(tab.width))
  {
    same, nq, from := NextTable(list, tabs, tail, root, queue, nx, a, b, k, edge, r, l);
    FromPositive(list, tabs, tail, queue, nq, k, from);
    tab := RootTab(|tabs|, tail, from, r, l, size);
    PlanFilling(list, tabs, tail, tab, l, queue, nq, k, from);
  }

  lemma FromPositive(list: seq<Coded>, tabs: seq<Tab>, tail: nat, queue: seq<Node>, nq: nat, k: nat, from: int)
    requires Lengths(list) && k < |list| && nq <= |queue| && AllKnown(tabs, tail, queue)
    requires Chain(list, tabs, tail, queue, nq, k, from)
    ensures from > 0
  {
    ChainNonneg(list, tabs, tail, queue, nq, k, from);
    EdgeDecreases(list, k, |list|);
  }

  lemma RootTab(count: nat, tail: nat, from: nat, r: nat, l: nat, size: nat) returns (tab: Tab)
    requires 4 <= tail && r <= l <= UNIT && l - r <= 15 && from > 0 && Multiple(from, Size(r))
    requires count * Pow2(tail) + Pow2(l - r) <= size
    ensures tab.off == count * Pow2(tail) && tab.width == l - r && tab.level == r
    ensures from == (tab.code + 1) * Size(r) && Shape(tab, size)
  {
    var code := RootOfEdge(from, r);
    tab := Tab(count * Pow2(tail), l - r, r, code);
    NewShape(count, tail, tab, size);
  }

  lemma PlanFilling(list: seq<Coded>, tabs: seq<Tab>, tail: nat, tab: Tab, l: nat, queue: seq<Node>, nq: nat, k: nat, from: nat)
    requires 4 <= tail && l == tab.level + tab.width <= UNIT && tab.off == |tabs| * Pow2(tail)
    requires Lengths(list) && Sorted(list) && k < |list| && list[k].bits <= l && (nq == 0 ==> list[k].bits > tab.level)
    requires nq <= |queue| && AllKnown(tabs, tail, queue) && Ready(queue, nq, tab.level, l)
    requires Chain(list, tabs, tail, queue, nq, k, from) && from == (tab.code + 1) * Size(tab.level)
    ensures Filling(list, tabs, tail, tab, l, queue, nq, k, Pow2(tab.width))
  {
    SlotUnfold(tab, l);
  }

  lemma LastTable(t: seq<int>, u: seq<int>, list: seq<Coded>, tabs: seq<Tab>, tail: nat, root: nat, queue: seq<Node>,
                  nq: nat, tab: Tab, queue': seq<Node>, nq': nat, k': nat)
    requires TailTables(tabs, tail) && Lengths(list) && TabsOk(t, list, tabs, tail) && nq == |queue|
    requires tab.off == |tabs| * Pow2(tail) && tab.width == root && tab.level == 0
    requires Pow2(UNIT) == (tab.code + 1) * Size(0) && Shape(tab, |u|)
    requires InProgress(u, list, tabs, tail, tab, root, queue', nq', k', 0)
    requires nq' <= nq && queue' == queue[nq - nq'..] && SameOutside(u, t, tab.off, Pow2(root))
    ensures queue' == [] && k' == |list|
    ensures Built(u, list, tabs + [tab], root, tail, tab.off + Pow2(root))
  {
    MulCancelEqual(tab.code + 1, 1, Size(0));
    TablesBelow(tabs, tail);
    AddTable(t, u, list, tabs, tab, tail);
    RootIsLast(list, tabs, tail, tab, queue', nq', k');
  }

  lemma NextHead(t: seq<int>, u: seq<int>, list: seq<Coded>, tabs: seq<Tab>, tail: nat, root: nat, queue: seq<Node>,
                 nx: nat, a: nat, b: nat, k: nat, edge: int, d: nat, same: bool, nq: nat, from: nat, tab: Tab, l: nat,
                 queue': seq<Node>, nq': nat, k': nat)
    returns (d': nat)
    requires Head(t, list, tabs, tail, root, queue, nx, a, b, k, edge, d) && |list| <= Pow2(root)
    requires l == Deepest(list[k], queue) > root
    requires same ==> queue != [] && nq == nx && from == edge && tab.level == b
    requires !same ==> nq == |queue| && from == Pow2(UNIT) && nx == 0 && (queue != [] ==> tab.level < b <= l)
    requires nq <= |queue| && Chain(list, tabs, tail, queue, nq, k, from)
    requires tab.off == |tabs| * Pow2(tail) && tab.level == l - tail && tab.width == tail && Shape(tab, |u|)
    requires from == (tab.code + 1) * Size(tab.level)
    requires InProgress(u, list, tabs, tail, tab, l, queue', nq', k', 0)
    requires SameOutside(u, t, tab.off, Pow2(tab.width))
    requires nq' <= nq && queue' == queue[nq - nq'..] && k <= k' && (nq' == 0 || k' == k)
    requires forall m :: k <= m < k' ==> list[m].bits > tab.level
    requires (k < k' && list[k' - 1].bits < l) || Regular(tab.width, 0, nq - nq', k' - k)
    ensures Head(u, list, tabs + [tab], tail, root, queue' + [Coded(|tabs|, tab.level)],
                 nq', if same then a else b, tab.level, k', tab.code * Size(tab.level), d')
  {
    hide Chain, Run, Heights, Sorted, Size, Pow2, Known, Ready, Slot, Edge, TabsOk, AllKnown, Filled, Shape;
    TablesBelow(tabs, tail);
    AddTable(t, u, list, tabs, tab, tail);
    Advance(list, tabs, tail, root, queue, nx, a, b, k, edge, same, nq, from, tab, l, queue', nq', k');
    var next := queue' + [Coded(|tabs|, tab.level)];
    FrontLevel(queue, nx, a, b, same, nq, nq', Coded(|tabs|, tab.level), l);
    d' := FrugalNext(list, |tabs|, root, tail, queue, k, d, l, nq - nq', k', next);
  }

  lemma FrontLevel(queue: seq<Node>, nx: nat, a: nat, b: nat, same: bool, nq: nat, nq': nat, node: Node, l: nat)
    requires Levels(queue, nx, a, b) && nq' <= nq <= |queue| && node.bits < l
    requires if same then nq == nx && node.bits == b else nq == |queue|
    requires |queue| > 0 ==> queue[0].bits <= l
    requires !same && |queue| > 0 ==> nx == 0
    ensures (queue[nq - nq'..] + [node])[0].bits <= l
    ensures nq' == 0 ==> (queue[nq - nq'..] + [node])[0].bits < l
  {
  }

  /** Lines 296 and 311: the number under which the table just filled is queued, and the next offset. */
  method NextOffset(off: nat, tail: nat, ghost count: nat) returns (p: nat, next: nat)
    requires off == count * Pow2(tail)
    ensures p == count && next == (count + 1) * Pow2(tail) > off
  {
    DivOfProduct(count, Pow2(tail), 0);
    AddOne(count, Pow2(tail));
    p, next := off / Pow2(tail), off + Pow2(tail);
  }

  lemma StartHead(t: seq<int>, list: seq<Coded>, tail: nat, root: nat)
    requires 4 <= tail <= root <= 15 && Sorted(list) && Complete(list)
    ensures list != [] && Head(t, list, [], tail, root, [], 0, 0, 0, 0, Pow2(UNIT), 0)
  {
  }

  /** One round of the outer loop (lines 213-311) once the level range is chosen and space is there. */
  method BuildTable(table: array<int>, list: seq<Coded>, ghost tabs: seq<Tab>, root: nat, tail: nat, off: nat,
                    r: nat, l: nat, queue: seq<Node>, k: nat, ghost nx: nat, ghost a: nat, ghost b: nat,
                    ghost edge: int, ghost d: nat)
    returns (ok: bool, queue': seq<Node>, k': nat, ghost tab: Tab, ghost nx': nat, ghost a': nat, ghost edge': int,
             ghost d': nat)
    requires Head(table[..], list, tabs, tail, root, queue, nx, a, b, k, edge, d) && |list| <= Pow2(root)
    requires Range(list, queue, k, root, tail, r, l) && off == |tabs| * Pow2(tail) && off + Pow2(l - r) <= table.Length
    modifies table
    ensures ok && r == 0 ==> Built(table[..], list, tabs + [tab], root, tail, off + Pow2(root))
    ensures ok && r != 0 ==> Head(table[..], list, tabs + [tab], tail, root, queue' + [Coded(|tabs|, r)],
                                  nx', a', r, k', edge', d')
    ensures !ok ==> off > 0x8000 || exists m :: 0 <= m < |list| && list[m].symbol >= 0x800
  {
    hide AllKnown, Levels, Chain, Run, Heights, Built, Sorted, Complete, Lengths, Pow2, Known, Filling, Size, Deepest, TabsOk;
    ghost var t0 := table[..];
    ghost var same, nq, from;
    same, nq, from, tab := PlanTable(|t0|, list, tabs, tail, root, queue, nx, a, b, k, edge, r, l);
    ok, queue', k', nx' := FillOne(table, list, tabs, tail, tab, off, r, l, queue, k, nq);
    a', edge', d' := if same then a else b, tab.code * Size(r), 0;
    if ok {
      if r == 0 {
        LastTable(t0, table[..], list, tabs, tail, root, queue, nq, tab, queue', nx', k');
      } else {
        d' := NextHead(t0, table[..], list, tabs, tail, root, queue, nx, a, b, k, edge, d, same, nq, from, tab, l,
                       queue', nx', k');
      }
    }
  }

  method HuffmanDecodeFillTables(table: array<int>, list: seq<Coded>, root: nat, tail: nat)
    returns (n: nat, ghost tabs: seq<Tab>)
    requires Sorted(list) && Complete(list) && |list| <= Pow2(root)
    modifies table
    ensures n != 0 ==> Built(table[..], list, tabs, root, tail, n)
    ensures n != 0 && list[0].bits <= root ==> |tabs| == 1
    ensures n == 0 ==> !(4 <= tail <= root <= 15) || table.Length < SpaceNeeded(list, root, tail)
                       || table.Length > 0x8000 || exists m :: 0 <= m < |list| && list[m].symbol >= 0x800
  {
    hide AllKnown, Levels, Chain, Run, Heights, TailTables, TabsOk, Built, Sorted, Complete, Lengths, Pow2, Known, Filling;
    tabs, n := [], 0;
    if !(root >= 4 && tail >= 4 && root <= 15 && tail <= 15 && root >= tail) { return; }
    var queue: seq<Node>, k: nat, off: nat := [], 0, 0;
    ghost var nx: nat, a: nat, b: nat, edge: int, d: nat := 0, 0, 0, Pow2(UNIT), 0;
    StartHead(table[..], list, tail, root);
    while true
      invariant Head(table[..], list, tabs, tail, root, queue, nx, a, b, k, edge, d)
      invariant off == |tabs| * Pow2(tail)
      decreases table.Length - off
    {
      var l := Deepest(list[k], queue);
      var r: nat;
      if l <= root { r, l := 0, root; } else { r := l - tail; }
      SpaceSuffices(list, |tabs|, root, tail, queue, k, d, l - r);
      if off + Pow2(l - r) > table.Length { return; }
      var ok;
      ghost var tab;
      ok, queue, k, tab, nx, a, edge, d := BuildTable(table, list, tabs, root, tail, off, r, l, queue, k, nx, a, b, edge, d);
      if !ok { return; }
      if r == 0 {
        tabs, n := tabs + [tab], off + Pow2(l);
        return;
      }
      var p, next := NextOffset(off, tail, |tabs|);
      queue, b := queue + [Coded(p, r)], r;
      tabs, off := tabs + [tab], next;
    }
  }
}
