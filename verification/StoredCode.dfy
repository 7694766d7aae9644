/** The stored form (Xpress9EncHuffman.c:1124-1160): a code that needs no description. With M the top bit
    of the alphabet size, the first symbols get M bits and the others M + 1; it is canonical and complete. */
module StoredCode {
  import opened Powers
  import opened BitStrings
  import opened CodeLists
  import opened Histogram
  import opened LengthLists
  import opened HuffmanTree
  import opened SortSymbols
  import opened SumsOver
  import opened Canonize
  import opened DecodeHuffman
  import opened ReverseMask
  import opened Codewords
  import opened HuffmanCodes
  import opened ParseLengths

  /** The symbols lo to hi - 1, largest first. */
  function Down(lo: nat, hi: nat, b: nat): (s: seq<Coded>)
    requires lo <= hi
    ensures |s| == hi - lo && forall j :: 0 <= j < |s| ==> s[j] == Coded(hi - 1 - j, b)
    decreases hi - lo
  {
    if lo == hi then [] else Down(lo + 1, hi, b) + [Coded(lo, b)]
  }

  lemma {:induction false} StoredLevel(n: nat, b: nat, i: nat)
    requires n >= 2 && i <= n && b >= 1
    ensures var t := Threshold(n);
      Level(StoredLengths(n), b, i)
      == if b == TopBit(n) then Down(if i < t then i else t, t, b)
         else if b == TopBit(n) + 1 then Down(if i < t then t else i, n, b) else []
    decreases n - i
  {
    hide Threshold, TopBit, StoredLengths;
    if i < n {
      StoredAt(n, i);
      StoredLevel(n, b, i + 1);
    }
  }

  lemma StoredAt(n: nat, i: nat)
    requires n > 0 && i < n
    ensures StoredLengths(n)[i] == if i < Threshold(n) then TopBit(n) else TopBit(n) + 1
  {
  }

  ghost function StoredList(n: nat): seq<Coded>
    requires n > 0
  {
    Down(Threshold(n), n, TopBit(n) + 1) + Down(0, Threshold(n), TopBit(n))
  }

  lemma {:induction false} StoredListed(n: nat, b: nat)
    requires n >= 2
    ensures Listed(StoredLengths(n), b)
            == if b > TopBit(n) then StoredList(n)
               else if b == TopBit(n) && b >= 1 then Down(0, Threshold(n), b) else []
    decreases b
  {
    hide Threshold, TopBit, StoredLengths, Level, Down;
    if b != 0 {
      StoredLevel(n, b, 0);
      EmptyDown(Threshold(n), TopBit(n));
      StoredListed(n, b - 1);
      TopBitPositive(n);
    } else {
      TopBitPositive(n);
    }
  }

  lemma EmptyDown(t: nat, b: nat)
    ensures Down(t, t, b) == []
  {
  }

  lemma TopBitPositive(n: nat)
    requires n >= 2
    ensures TopBit(n) >= 1
  {
  }

  lemma {:induction false} TopBitBound(n: nat, m: nat)
    requires n < Pow2(m)
    ensures m > 0 ==> TopBit(n) < m
  {
    if n > 1 && m > 0 { TopBitBound(n / 2, m - 1); }
  }

  // ------------------------------------------------------------------ codewords

  lemma StoredEdges(n: nat, k: nat)
    requires n >= 2 && TopBit(n) + 1 <= UNIT && k <= n
    ensures Lengths(StoredList(n)) && |StoredList(n)| == n
    ensures var t := Threshold(n);
      Edge(StoredList(n), k)
      == if k <= n - t then Points(n - t - k, TopBit(n) + 1) + Points(t, TopBit(n)) else Points(n - k, TopBit(n))
  {
    hide Threshold, TopBit, Points, Down, Edge;
    var t, b := Threshold(n), TopBit(n);
    TopBitPositive(n);
    var high, low := Down(t, n, b + 1), Down(0, t, b);
    assert low + [] == low;
    NoEdge();
    EdgeOfLevel(low, [], b, 0);
    if k <= n - t {
      EdgeOfLevel(high, low, b + 1, k);
    } else {
      EdgeOfLevel(low, [], b, k - (n - t));
      EdgeOfTail(high, low, k - (n - t));
    }
  }

  lemma NoEdge()
    ensures Lengths([]) && Edge([], 0) == 0
  {
  }

  /** The code value of a symbol: itself, or counted on from twice the threshold. */
  function StoredCode(n: nat, i: nat): nat
    requires n > 0
  {
    if i < Threshold(n) then i else Threshold(n) + i
  }

  lemma StoredSorted(n: nat)
    requires n >= 2 && TopBit(n) + 1 <= UNIT
    ensures Listed(StoredLengths(n), UNIT) == StoredList(n) && Sorted(StoredList(n)) && Lengths(StoredList(n))
  {
    hide StoredList, Listed, StoredLengths, Sorted, Lengths;
    StoredListed(n, UNIT);
    ListIsSorted(StoredLengths(n));
  }

  lemma Doubled(x: nat, y: nat, s: nat)
    ensures x * s + y * (2 * s) == (x + 2 * y) * s
  {
  }

  lemma StoredPoints(n: nat, x: nat, y: nat)
    requires n >= 2 && TopBit(n) + 1 <= UNIT
    ensures Points(x, TopBit(n) + 1) + Points(y, TopBit(n)) == (x + 2 * y) * Size(TopBit(n) + 1)
  {
    hide TopBit, Points, Size;
    var b := TopBit(n);
    PointsAre(x, b + 1);
    PointsAre(y, b);
    SizeHalf(b + 1);
    Doubled(x, y, Size(b + 1));
  }

  /** The stored code is a complete prefix code. */
  lemma StoredIsComplete(n: nat)
    requires n >= 2 && TopBit(n) + 1 <= UNIT
    ensures Listed(StoredLengths(n), UNIT) == StoredList(n) && Complete(StoredList(n))
  {
    hide StoredList, TopBit, Points, Size, Edge, Listed, StoredLengths, Pow2;
    StoredSorted(n);
    StoredEdges(n, 0);
    StoredPoints(n, n - Threshold(n), Threshold(n));
    TopBitIs(n);
    SizeMultiple(0, TopBit(n) + 1);
    FullSize();
  }

  lemma FullSize()
    ensures Size(0) == Pow2(UNIT)
  {
  }

  /** Its canonical codewords are the values that the encoder counts out. */
  lemma StoredCodes(n: nat, i: nat)
    requires n >= 2 && TopBit(n) + 1 <= UNIT && i < n
    ensures var list := StoredList(n);
      Lengths(list) && |list| == n
      && list[n - 1 - i] == Coded(i, StoredLengths(n)[i]) && CodeLists.Code(list, n - 1 - i) == StoredCode(n, i)
  {
    hide TopBit, Points, Size, Edge, Listed, StoredLengths, Pow2, CodeLists.Code, Threshold;
    var t, b := Threshold(n), TopBit(n);
    var list := StoredList(n);
    StoredEdges(n, n - i);
    StoredSorted(n);
    StoredAt(n, i);
    CodeAligned(list, n - 1 - i);
    if i < t {
      PointsAre(i, b);
      MulCancelEqual(CodeLists.Code(list, n - 1 - i), i, Size(b));
    } else {
      StoredPoints(n, i - t, t);
      MulCancelEqual(CodeLists.Code(list, n - 1 - i), i + t, Size(b + 1));
    }
  }

  // ------------------------------------------------------------------ cost

  lemma {:induction false} StoredCost(counts: seq<nat>, j: nat)
    requires |counts| >= 2 && j <= |counts|
    ensures var n := |counts|;
      var t := Threshold(n);
      Over(j, Spent(counts, StoredLengths(n)))
      == Over(j, CountAt(counts)) * TopBit(n) + if j <= t then 0 else Over(j, CountAt(counts)) - Over(t, CountAt(counts))
    ensures j > Threshold(|counts|) ==> Over(j, CountAt(counts)) >= Over(Threshold(|counts|), CountAt(counts))
    decreases j
  {
    hide Threshold, TopBit, StoredLengths, Spent, CountAt;
    if j > 0 {
      StoredCost(counts, j - 1);
      SpentNext(counts, j - 1);
      Spread(Over(j - 1, CountAt(counts)), counts[j - 1], TopBit(|counts|));
    }
  }

  lemma SpentNext(counts: seq<nat>, i: nat)
    requires |counts| >= 2 && i < |counts|
    ensures var n := |counts|;
      Spent(counts, StoredLengths(n))(i) == counts[i] * (TopBit(n) + if i < Threshold(n) then 0 else 1)
    ensures CountAt(counts)(i) == counts[i]
  {
    hide Threshold, TopBit, StoredLengths;
    StoredAt(|counts|, i);
  }

  lemma Spread(a: nat, x: nat, m: nat)
    ensures a * m + x * m == (a + x) * m && a * m + x * (m + 1) == (a + x) * m + x
  {
  }

  // ------------------------------------------------------------------ packed codewords

  function StoredWord(n: nat, i: nat): nat
    requires n > 0
  {
    Packed(Reverse(StoredCode(n, i), StoredLength(n, i)), StoredLength(n, i))
  }

  lemma StoredIsCodebook(masks: seq<nat>, max: nat)
    requires |masks| >= 2 && TopBit(|masks|) < max <= MAX_CODEWORD_LENGTH
    requires forall i :: 0 <= i < |masks| ==> masks[i] == StoredWord(|masks|, i)
    ensures MaskLengths(masks) == StoredLengths(|masks|) && Codebook(masks, max)
    ensures forall i :: 0 <= i < |masks| ==> LengthOf(masks[i]) > 0
  {
    hide TopBit, Threshold, Listed, StoredList, StoredCode, Reverse, CodeLists.Code, Complete, Packed, LengthOf;
    var n := |masks|;
    var lengths := StoredLengths(n);
    TopBitPositive(n);
    forall i | 0 <= i < n ensures LengthOf(masks[i]) == StoredLength(n, i) > 0 {
      PackedLength(Reverse(StoredCode(n, i), StoredLength(n, i)), StoredLength(n, i));
    }
    assert MaskLengths(masks) == lengths;
    StoredIsComplete(n);
    var list := StoredList(n);
    CompleteIsNotSingle(list);
    StoredEdges(n, 0);
    forall k | 0 <= k < |list| ensures MaskOf(masks, list, k) {
      StoredCodes(n, n - 1 - k);
      assert masks[n - 1 - k] == StoredWord(n, n - 1 - k);
    }
  }

  lemma StoredFits(n: nat, i: nat)
    requires n >= 2 && i < n
    ensures StoredCode(n, i) < Pow2(StoredLength(n, i))
  {
    TopBitIs(n);
  }

  method StoreMasks(masks: array<nat>, bits: nat, threshold: nat)
    requires masks.Length >= 2 && bits == TopBit(masks.Length) && threshold == Threshold(masks.Length)
    modifies masks
    ensures forall i :: 0 <= i < masks.Length ==> masks[i] == StoredWord(masks.Length, i)
  {
    hide TopBit, Threshold, Reverse, Pow2, Packed;
    var n := masks.Length;
    var i: nat := 0;
    while i < threshold
      invariant i <= threshold <= n && forall j :: 0 <= j < i ==> masks[j] == StoredWord(n, j)
    {
      StoredFits(n, i);
      var r := HuffmanReverseMask(i, bits);
      masks[i] := Packed(r, bits);
      i := i + 1;
    }
    var code := i + i;
    while i < n
      invariant threshold <= i <= n && code == threshold + i
      invariant forall j :: 0 <= j < i ==> masks[j] == StoredWord(n, j)
    {
      StoredFits(n, i);
      var r := HuffmanReverseMask(code, bits + 1);
      masks[i] := Packed(r, bits + 1);
      code := code + 1;
      i := i + 1;
    }
  }
}
