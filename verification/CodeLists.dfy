/** Length-ordered symbol lists and the canonical prefix code they denote.

    A list in the decoder's order (longest codeword first, then largest symbol) lays its symbols
    from right to left over the interval [0, 2^63): a symbol of length b takes 2^(63-b) points, and
    its codeword is the common prefix of those points. The list is complete when it fills the interval. */
module CodeLists {
  import opened Powers
  import opened BitStrings

  /** HUFFMAN_CODEWORD_LENGTH_LIMIT (Xpress9Internal.h:493). */
  const LENGTH_LIMIT: nat := 64
  const UNIT: nat := 63

  datatype Coded = Coded(symbol: nat, bits: nat)

  ghost predicate Lengths(list: seq<Coded>)
  {
    forall k :: 0 <= k < |list| ==> 1 <= list[k].bits <= UNIT
  }

  ghost predicate Before(x: Coded, y: Coded)
  {
    x.bits > y.bits || (x.bits == y.bits && x.symbol > y.symbol)
  }

  /** The order HuffmanDecodeSortSymbols asserts of its result. */
  ghost predicate Sorted(list: seq<Coded>)
  {
    forall i, j :: 0 <= i < j < |list| ==> Before(list[i], list[j])
  }

  function Size(bits: nat): (r: nat)
    requires bits <= UNIT
    ensures r > 0
  {
    Pow2(UNIT - bits)
  }

  /** The right end of symbol k: the points taken by symbols k, k+1, ... */
  ghost function Edge(list: seq<Coded>, k: nat): nat
    requires k <= |list| && Lengths(list)
    decreases |list| - k
  {
    if k == |list| then 0 else Size(list[k].bits) + Edge(list, k + 1)
  }

  ghost predicate Complete(list: seq<Coded>)
  {
    Lengths(list) && Edge(list, 0) == Pow2(UNIT)
  }

  lemma {:induction false} SizeMultiple(a: nat, b: nat)
    requires a <= b <= UNIT
    ensures Multiple(Size(a), Size(b)) && Size(b) <= Size(a)
    ensures a < b ==> 2 * Size(b) <= Size(a)
    ensures Size(a) == Pow2(b - a) * Size(b)
  {
    Pow2Multiple(UNIT - b, UNIT - a);
    Pow2Monotone(UNIT - b, UNIT - a);
    Pow2Add(b - a, UNIT - b);
  }

  lemma {:induction false} EdgeAligned(list: seq<Coded>, k: nat, b: nat)
    requires k <= |list| && Lengths(list) && b <= UNIT
    requires forall m :: k <= m < |list| ==> list[m].bits <= b
    ensures Multiple(Edge(list, k), Size(b))
    decreases |list| - k
  {
    if k == |list| {
      MultipleIs(0, 0, Size(b));
    } else {
      EdgeAligned(list, k + 1, b);
      SizeMultiple(list[k].bits, b);
      MultipleSum(Size(list[k].bits), Edge(list, k + 1), Size(b));
    }
  }

  lemma {:induction false} EdgeDecreases(list: seq<Coded>, i: nat, j: nat)
    requires i <= j <= |list| && Lengths(list)
    ensures Edge(list, j) <= Edge(list, i)
    ensures i < j ==> Edge(list, j) < Edge(list, i)
    decreases j - i
  {
    if i < j { EdgeDecreases(list, i + 1, j); }
  }

  /** The canonical codeword of symbol k, as a number of list[k].bits bits. */
  ghost function Code(list: seq<Coded>, k: nat): nat
    requires k < |list| && Lengths(list)
  {
    Shr(Edge(list, k + 1), UNIT - list[k].bits)
  }

  lemma CodeAligned(list: seq<Coded>, k: nat)
    requires k < |list| && Lengths(list) && Sorted(list)
    ensures Edge(list, k + 1) == Code(list, k) * Size(list[k].bits)
    ensures Edge(list, k) == (Code(list, k) + 1) * Size(list[k].bits)
  {
    var n := UNIT - list[k].bits;
    EdgeAligned(list, k + 1, list[k].bits);
    var c :| Edge(list, k + 1) == c * Pow2(n);
    if c < 0 { MulMonotone(c, -1, Pow2(n)); }
    ShrOfProduct(c, n, 0);
  }

  lemma CodeFits(list: seq<Coded>, k: nat)
    requires k < |list| && Sorted(list) && Complete(list)
    ensures Code(list, k) < Pow2(list[k].bits)
  {
    var b := list[k].bits;
    CodeAligned(list, k);
    EdgeDecreases(list, 0, k);
    Pow2Add(b, UNIT - b);
    MulCancel(Code(list, k) + 1, Pow2(b), Size(b));
  }

  /** Point x of the interval lies under symbol k. */
  ghost predicate Owns(list: seq<Coded>, k: nat, x: nat)
    requires k < |list| && Lengths(list)
  {
    Edge(list, k + 1) <= x < Edge(list, k)
  }

  lemma OwnerUnique(list: seq<Coded>, i: nat, j: nat, x: nat)
    requires i < |list| && j < |list| && Lengths(list)
    requires Owns(list, i, x) && Owns(list, j, x)
    ensures i == j
  {
    if i < j { EdgeDecreases(list, i + 1, j); }
    if j < i { EdgeDecreases(list, j + 1, i); }
  }

  lemma {:induction false} OwnerExists(list: seq<Coded>, from: nat, x: nat) returns (k: nat)
    requires from <= |list| && Lengths(list) && x < Edge(list, from)
    ensures from <= k < |list| && Owns(list, k, x)
    decreases |list| - from
  {
    if Edge(list, from + 1) <= x { k := from; } else { k := OwnerExists(list, from + 1, x); }
  }

  /** A point lies under a symbol exactly when its leading bits are the symbol's codeword. */
  lemma OwnsIsPrefix(list: seq<Coded>, k: nat, x: nat)
    requires k < |list| && Lengths(list) && Sorted(list)
    ensures Owns(list, k, x) <==> Shr(x, UNIT - list[k].bits) == Code(list, k)
  {
    CodeAligned(list, k);
    ShrInterval(x, UNIT - list[k].bits, Code(list, k));
  }
}
