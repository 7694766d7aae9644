/** Xpress9HuffmanCreateAndEncodeTable (Xpress9EncHuffman.c:1080-1222): a Huffman code and its description,
    or the stored code when that is no more expensive. */
module CreateAndEncode {
  import opened Powers
  import opened BitStrings
  import opened HuffmanTree
  import opened SortSymbols
  import opened SumsOver
  import opened Canonize
  import opened DecodeTables
  import opened Codewords
  import opened HuffmanCodes
  import opened BitIo
  import opened TableTokens
  import opened EncodeTable
  import opened ParseLengths
  import opened DecodeLengthTable
  import opened TableRoundTrip
  import opened StoredCode

  /** The form chosen for a table, with the code of its description. */
  datatype Form = Stored | Described(small: seq<nat>)

  ghost predicate FormOf(form: Form, lengths: seq<nat>, boundary: nat)
  {
    match form
    case Stored => lengths != [] && lengths == StoredLengths(|lengths|)
    case Described(small) => Describes(small, lengths, boundary)
  }

  /** The bits of a table. */
  ghost function TableBits(form: Form, lengths: seq<nat>, boundary: nat): Bits
    requires FormOf(form, lengths, boundary)
  {
    match form
    case Stored => Lsb(0, 3)
    case Described(small) => Lsb(1, 3) + Description(small, lengths, boundary)
  }

  /** The cost of a code: the bits of its table and of all counted symbols. */
  ghost function TotalCost(counts: seq<nat>, form: Form, lengths: seq<nat>, boundary: nat): nat
    requires FormOf(form, lengths, boundary)
  {
    |TableBits(form, lengths, boundary)| + CodeCost(counts, lengths)
  }

  /** Reading a table that was written restores its lengths and moves just past it. */
  lemma WrittenTableReads(form: Form, lengths: seq<nat>, boundary: nat, max: nat, mem: Bits, pos: nat)
    requires boundary > 0 && lengths != [] && FormOf(form, lengths, boundary)
    requires max <= MAX_CODEWORD_LENGTH && Bounded(lengths, max)
    requires Shows(mem, pos, TableBits(form, lengths, boundary))
    ensures ParseTable(mem, pos, |lengths|, boundary, max) == Good(lengths, pos + |TableBits(form, lengths, boundary)|)
  {
    hide Shows, Peek, ParseDescription, Description, Describes, Lsb, StoredLengths, Bounded;
    SmallPowers();
    match form
    case Stored =>
      PeekShown(mem, pos, 0, 3);
    case Described(small) =>
      ShowsParts(mem, pos, Lsb(1, 3), Description(small, lengths, boundary));
      PeekShown(mem, pos, 1, 3);
      TableReads(small, lengths, boundary, max, mem, pos + 3);
  }

  /** Lines 1131-1144: counting on both sides of the threshold. */
  method SumCounts(counts: seq<nat>, from: nat, to: nat) returns (sum: nat)
    requires from <= to <= |counts|
    ensures Over(to, CountAt(counts)) == Over(from, CountAt(counts)) + sum
  {
    sum := 0;
    var i := from;
    while i < to
      invariant from <= i <= to && Over(i, CountAt(counts)) == Over(from, CountAt(counts)) + sum
    {
      sum := sum + counts[i];
      i := i + 1;
    }
  }

  /** Lines 1122-1146. */
  method StoredCandidate(counts: seq<nat>) returns (bits: nat, threshold: nat, cost: nat)
    requires |counts| >= 2
    ensures bits == TopBit(|counts|) && threshold == Threshold(|counts|)
    ensures cost == CodeCost(counts, StoredLengths(|counts|)) + 3
  {
    hide TopBit, StoredLengths, Over, Pow2;
    bits := GetMsb(|counts|);
    TopBitIs(|counts|);
    threshold := Pow2(bits + 1) - |counts|;
    assert threshold == Threshold(|counts|);
    var count0 := SumCounts(counts, 0, threshold);
    var count1 := SumCounts(counts, threshold, |counts|);
    StoredCost(counts, |counts|);
    OverNone(CountAt(counts));
    cost := (count0 + count1) * bits + count1 + 3;
  }

  lemma OverNone(f: nat -> nat)
    ensures Over(0, f) == 0
  {
  }

  lemma {:induction false} NoCounts(counts: seq<nat>, lengths: seq<nat>, n: nat)
    requires n <= |counts| && forall s :: 0 <= s < |counts| ==> counts[s] == 0
    ensures Over(n, Spent(counts, lengths)) == 0
  {
    if n > 0 { NoCounts(counts, lengths, n - 1); }
  }

  lemma CodebookRange(masks: seq<nat>, max: nat)
    requires Codebook(masks, max) && max <= MAX_CODEWORD_LENGTH
    ensures LengthsInRange(masks) && Bounded(MaskLengths(masks), max)
  {
  }

  lemma CodeForParts(counts: seq<nat>, max: nat, masks: seq<nat>, cost: nat)
    requires CodeFor(counts, max, masks, cost)
    ensures |masks| == |counts| && Codebook(masks, max) && cost == CodeCost(counts, MaskLengths(masks))
    ensures forall s :: 0 <= s < |counts| ==> (LengthOf(masks[s]) == 0 <==> counts[s] == 0)
  {
  }

  lemma UsedFits(counts: seq<nat>, max: nat)
    requires |counts| >= 2 && TopBit(|counts|) < max
    ensures |Used(counts, |counts|)| <= Pow2(max)
  {
    UsedBound(counts, |counts|);
    TopBitIs(|counts|);
    Pow2Monotone(TopBit(|counts|) + 1, max);
  }

  /** The result for given counts: a code for all counted symbols, and a table for it. */
  ghost predicate Encoded(counts: seq<nat>, max: nat, boundary: nat, masks: seq<nat>, form: Form)
  {
    && |masks| == |counts| && Codebook(masks, max)
    && (forall s :: 0 <= s < |counts| && counts[s] > 0 ==> LengthOf(masks[s]) > 0)
    && FormOf(form, MaskLengths(masks), boundary)
  }

  lemma StoredEncoded(counts: seq<nat>, max: nat, boundary: nat, masks: seq<nat>)
    requires |masks| == |counts| >= 2 && TopBit(|masks|) < max <= MAX_CODEWORD_LENGTH
    requires forall i :: 0 <= i < |masks| ==> masks[i] == StoredWord(|masks|, i)
    ensures Encoded(counts, max, boundary, masks, Stored) && MaskLengths(masks) == StoredLengths(|counts|)
  {
    hide StoredWord, Codebook, LengthOf, TopBit;
    StoredIsCodebook(masks, max);
  }

  lemma DescribedEncoded(counts: seq<nat>, max: nat, boundary: nat, masks: seq<nat>, cost: nat, small: seq<nat>)
    requires CodeFor(counts, max, masks, cost) && Describes(small, MaskLengths(masks), boundary)
    ensures Encoded(counts, max, boundary, masks, Described(small))
  {
    hide Codebook, LengthOf, Describes;
  }

  /** The form that was chosen costs no more than either candidate: the stored form, and the description of the code that
      the tree builder makes, by the code that it makes for that description. */
  ghost predicate Chosen(counts: seq<nat>, max: nat, boundary: nat, form: Form, lengths: seq<nat>)
    requires counts != [] && boundary > 0 && FormOf(form, lengths, boundary)
  {
    && TotalCost(counts, form, lengths, boundary) <= CodeCost(counts, StoredLengths(|counts|)) + 3
    && (CountSum(counts) > 0 ==> exists described, small :: Candidate(counts, max, boundary, form, lengths, described, small))
  }

  ghost predicate Candidate(counts: seq<nat>, max: nat, boundary: nat, form: Form, lengths: seq<nat>, described: seq<nat>, small: seq<nat>)
    requires boundary > 0 && FormOf(form, lengths, boundary)
  {
    && Made(counts, max, described, CodeCost(counts, MaskLengths(described)))
    && SmallMade(small, MaskLengths(described), boundary) && Describes(small, MaskLengths(described), boundary)
    && TotalCost(counts, form, lengths, boundary) <= TotalCost(counts, Described(small), MaskLengths(described), boundary)
  }

  lemma IsChosen(counts: seq<nat>, max: nat, boundary: nat, form: Form, lengths: seq<nat>, described: seq<nat>, small: seq<nat>)
    requires counts != [] && boundary > 0 && FormOf(form, lengths, boundary)
    requires TotalCost(counts, form, lengths, boundary) <= CodeCost(counts, StoredLengths(|counts|)) + 3
    requires CountSum(counts) > 0 ==> Made(counts, max, described, CodeCost(counts, MaskLengths(described)))
    requires SmallMade(small, MaskLengths(described), boundary) && Describes(small, MaskLengths(described), boundary)
    requires CountSum(counts) > 0 ==>
               TotalCost(counts, form, lengths, boundary) <= TotalCost(counts, Described(small), MaskLengths(described), boundary)
    ensures Chosen(counts, max, boundary, form, lengths)
  {
    hide Made, SmallMade, Describes, TotalCost, CodeCost, StoredLengths, CountSum, MaskLengths;
    if CountSum(counts) > 0 { assert Candidate(counts, max, boundary, form, lengths, described, small); }
  }

  lemma ThreeBits(v: nat)
    requires v < 8
    ensures v < Pow2(3) && |Lsb(v, 3)| == 3
  {
    SmallPowers();
  }

  /** The table written, the code left in masks and the cost; huffman is the cost of the described code,
      when any symbol is counted. When none is, the masks are tried as they came. */
  method Xpress9HuffmanCreateAndEncodeTable(writer: BitWriter, counts: seq<nat>, max: nat, masks: array<nat>,
                                            boundary: nat, ghost m: nat)
    returns (cost: nat, ghost form: Form)
    requires writer.Valid() && boundary == Pow2(m) && masks.Length == |counts|
    requires 2 <= |counts| < 0x1_0000_0000 && TopBit(|counts|) < max <= MAX_CODEWORD_LENGTH
    requires CountSum(counts) < 0x1_0000_0000 && (CountSum(counts) == 0 ==> LengthsInRange(masks[..]))
    modifies writer, masks
    ensures writer.Valid() && boundary > 0 && Encoded(counts, max, boundary, masks[..], form)
    ensures writer.Emitted() == old(writer.Emitted()) + TableBits(form, MaskLengths(masks[..]), boundary)
    ensures cost == TotalCost(counts, form, MaskLengths(masks[..]), boundary)
    ensures FormOf(form, MaskLengths(masks[..]), boundary) && Chosen(counts, max, boundary, form, MaskLengths(masks[..]))
    ensures CountSum(counts) == 0 ==> form == Stored && cost == 3
  {
    hide *;
    PowerPositive(m);
    UsedFits(counts, max);
    LimitsPositive(TopBit(|counts|), max);
    var bits, threshold, candidate := StoredCandidate(counts);
    ghost var head := writer.Emitted();
    var n, huffman := Xpress9HuffmanCreateTree(counts, max, masks, 0);
    ghost var described := masks[..];
    if n > 0 {
      IsMade(counts, max, described, huffman);
      CodeForParts(counts, max, described, huffman);
      CodebookRange(described, max);
      SomeCounts(counts);
    } else {
      NoneCounted(counts);
    }
    ThreeBits(0);
    ThreeBits(1);
    FlushWidth();
    var trial := new BitWriter.Copy(writer);
    trial.Write(1, 3);
    var ok;
    ghost var small;
    ok, small := Xpress9HuffmanEncodeTable(trial, masks[..], boundary, m);
    BitsAssoc(head, Lsb(1, 3), Description(small, MaskLengths(described), boundary));
    huffman := huffman + trial.Tell() - writer.Tell();
    DescribedForm(small, MaskLengths(described), boundary);
    StoredForm(|counts|, boundary);
    if candidate <= huffman {
      writer.Write(0, 3);
      StoreMasks(masks, bits, threshold);
      StoredEncoded(counts, max, boundary, masks[..]);
      form := Stored;
      TotalCostIs(counts, form, MaskLengths(masks[..]), boundary);
      if n > 0 { TotalCostIs(counts, Described(small), MaskLengths(described), boundary); }
      EncodedForm(counts, max, boundary, masks[..], form);
      IsChosen(counts, max, boundary, form, MaskLengths(masks[..]), described, small);
      return candidate, form;
    }
    writer.Assign(trial);
    cost := huffman;
    form := Described(small);
    assert n > 0;
    DescribedEncoded(counts, max, boundary, masks[..], CodeCost(counts, MaskLengths(described)), small);
    TotalCostIs(counts, form, MaskLengths(masks[..]), boundary);
    IsChosen(counts, max, boundary, form, MaskLengths(masks[..]), described, small);
  }

  lemma EncodedForm(counts: seq<nat>, max: nat, boundary: nat, masks: seq<nat>, form: Form)
    requires Encoded(counts, max, boundary, masks, form)
    ensures FormOf(form, MaskLengths(masks), boundary)
  {
  }

  lemma LimitsPositive(n: nat, max: nat)
    requires n < max
    ensures 1 <= max
  {
  }

  lemma SomeCounts(counts: seq<nat>)
    requires |Used(counts, |counts|)| > 0
    ensures CountSum(counts) > 0
  {
    UsedBound(counts, |counts|);
  }

  lemma NoneCounted(counts: seq<nat>)
    requires counts != [] && forall s :: 0 <= s < |counts| ==> counts[s] == 0
    ensures CountSum(counts) == 0 && CodeCost(counts, StoredLengths(|counts|)) == 0
  {
    NoCounts(counts, StoredLengths(|counts|), |counts|);
    OverZero(|counts|, CountAt(counts));
  }

  lemma DescribedForm(small: seq<nat>, lengths: seq<nat>, boundary: nat)
    requires Describes(small, lengths, boundary)
    ensures FormOf(Described(small), lengths, boundary)
    ensures TableBits(Described(small), lengths, boundary) == Lsb(1, 3) + Description(small, lengths, boundary)
  {
  }

  lemma StoredForm(n: nat, boundary: nat)
    requires n > 0
    ensures FormOf(Stored, StoredLengths(n), boundary)
    ensures TableBits(Stored, StoredLengths(n), boundary) == Lsb(0, 3)
  {
  }

  lemma TotalCostIs(counts: seq<nat>, form: Form, lengths: seq<nat>, boundary: nat)
    requires FormOf(form, lengths, boundary)
    ensures TotalCost(counts, form, lengths, boundary) == |TableBits(form, lengths, boundary)| + CodeCost(counts, lengths)
  {
  }
}
