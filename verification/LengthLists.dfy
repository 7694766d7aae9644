/** The symbol list and the canonical code of a table of codeword lengths. */
module LengthLists {
  import opened Powers
  import opened BitStrings
  import opened CodeLists
  import opened Histogram

  /** The symbols from i up whose codeword length is b, largest symbol first. */
  function Level(lengths: seq<nat>, b: nat, i: nat): seq<Coded>
    requires i <= |lengths|
    decreases |lengths| - i
  {
    if i == |lengths| then []
    else Level(lengths, b, i + 1) + (if lengths[i] == b then [Coded(i, b)] else [])
  }

  /** All symbols with codeword lengths 1..b, longest codeword first, then largest symbol first. */
  function Listed(lengths: seq<nat>, b: nat): seq<Coded>
    decreases |lengths|, b
  {
    if b == 0 then [] else Level(lengths, b, 0) + Listed(lengths, b - 1)
  }

  ghost predicate Descending(s: seq<Coded>)
  {
    forall i, j :: 0 <= i < j < |s| ==> s[i].symbol > s[j].symbol
  }

  lemma {:induction false} LevelElements(lengths: seq<nat>, b: nat, i: nat)
    requires i <= |lengths|
    ensures forall j :: 0 <= j < |Level(lengths, b, i)| ==>
              var x := Level(lengths, b, i)[j];
              i <= x.symbol < |lengths| && x.bits == b && lengths[x.symbol] == b
    ensures Descending(Level(lengths, b, i))
    ensures forall m :: i <= m < |lengths| && lengths[m] == b ==> Coded(m, b) in Level(lengths, b, i)
    decreases |lengths| - i
  {
    if i < |lengths| { LevelElements(lengths, b, i + 1); }
  }

  lemma {:induction false} ListedElements(lengths: seq<nat>, b: nat)
    ensures forall j :: 0 <= j < |Listed(lengths, b)| ==>
              var x := Listed(lengths, b)[j];
              x.symbol < |lengths| && 1 <= x.bits <= b && lengths[x.symbol] == x.bits
    ensures Sorted(Listed(lengths, b))
    ensures forall m :: 0 <= m < |lengths| && 1 <= lengths[m] <= b ==> Coded(m, lengths[m]) in Listed(lengths, b)
    decreases b
  {
    if b != 0 {
      LevelElements(lengths, b, 0);
      ListedElements(lengths, b - 1);
    }
  }

  /** Every length table that fits the limit gives a list in the decoder's order. */
  lemma ListIsSorted(lengths: seq<nat>)
    ensures Sorted(Listed(lengths, UNIT)) && Lengths(Listed(lengths, UNIT))
  {
    ListedElements(lengths, UNIT);
  }

  // ------------------------------------------------------------------ its histogram

  ghost predicate IsHistogram(c: seq<nat>, lengths: seq<nat>)
  {
    |c| == LENGTH_LIMIT && c[0] == 0 && forall b :: 1 <= b < LENGTH_LIMIT ==> c[b] == |Level(lengths, b, 0)|
  }

  lemma {:induction false} EdgeOfTail(a: seq<Coded>, b: seq<Coded>, k: nat)
    requires k <= |b| && Lengths(b) && Lengths(a + b)
    ensures Edge(a + b, |a| + k) == Edge(b, k)
    decreases |b| - k
  {
    if k < |b| { EdgeOfTail(a, b, k + 1); }
  }

  lemma {:induction false} EdgeOfLevel(a: seq<Coded>, b: seq<Coded>, bits: nat, k: nat)
    requires k <= |a| && Lengths(b) && Lengths(a + b) && bits <= UNIT
    requires forall j :: 0 <= j < |a| ==> a[j].bits == bits
    ensures Edge(a + b, k) == Points(|a| - k, bits) + Edge(b, 0)
    decreases |a| - k
  {
    if k < |a| { EdgeOfLevel(a, b, bits, k + 1); } else { EdgeOfTail(a, b, 0); }
  }

  lemma {:induction false} ListedLengths(lengths: seq<nat>, b: nat)
    requires b <= UNIT
    ensures Lengths(Listed(lengths, b))
  {
    ListedElements(lengths, b);
  }

  lemma {:induction false} KraftOfListed(c: seq<nat>, lengths: seq<nat>, b: nat)
    requires IsHistogram(c, lengths) && b <= UNIT
    ensures Lengths(Listed(lengths, b))
    ensures Kraft(c, 1) == Kraft(c, b + 1) + Edge(Listed(lengths, b), 0)
    decreases b
  {
    ListedLengths(lengths, b);
    if b != 0 {
      KraftOfListed(c, lengths, b - 1);
      LevelElements(lengths, b, 0);
      EdgeOfLevel(Level(lengths, b, 0), Listed(lengths, b - 1), b, 0);
    }
  }

  /** HuffmanDecodeVerifyTree tests the completeness of the code. */
  lemma FullTreeIsComplete(c: seq<nat>, lengths: seq<nat>)
    requires IsHistogram(c, lengths)
    ensures FullTree(c) <==> Complete(Listed(lengths, UNIT))
  {
    KraftOfListed(c, lengths, UNIT);
  }

  /** The codeword of the k-th symbol as it appears in the stream. */
  ghost function Word(list: seq<Coded>, k: nat): (w: Bits)
    requires k < |list| && Lengths(list)
    ensures |w| == list[k].bits
  {
    Msb(Code(list, k), list[k].bits)
  }

  lemma {:induction false} Range(n: nat) returns (s: set<nat>)
    ensures |s| == n && forall x :: x in s <==> 0 <= x < n
  {
    s := {};
    if n != 0 {
      var t := Range(n - 1);
      s := t + {n - 1};
    }
  }

  lemma {:induction false} DistinctBound(list: seq<Coded>, within: set<nat>)
    requires forall i, j :: 0 <= i < j < |list| ==> list[i].symbol != list[j].symbol
    requires forall i :: 0 <= i < |list| ==> list[i].symbol in within
    ensures |list| <= |within|
  {
    if list != [] {
      DistinctBound(list[1..], within - {list[0].symbol});
    }
  }

  /** A list has at most as many entries as the alphabet has symbols. */
  lemma SymbolCount(lengths: seq<nat>)
    ensures |Listed(lengths, UNIT)| <= |lengths|
  {
    ListedElements(lengths, UNIT);
    var all := Range(|lengths|);
    var list := Listed(lengths, UNIT);
    forall i, j | 0 <= i < j < |list| ensures list[i].symbol != list[j].symbol {
      assert Before(list[i], list[j]);
    }
    DistinctBound(list, all);
  }
}
