/** HuffmanCreateCodewords and Xpress9HuffmanCreateTree (Xpress9EncHuffman.c:622-797): canonical
    codewords, and the whole way from symbol counts to packed codewords. */
module Codewords {
  import opened Powers
  import opened BitStrings
  import opened CodeLists
  import opened Histogram
  import opened LengthLists
  import opened TruncateTree
  import opened DepthCost
  import opened HuffmanTree
  import opened CreateTree
  import opened BitLengths
  import opened SortSymbols
  import opened SumsOver
  import opened Canonize
  import opened ReverseMask

  // Packed codewords: the length in the five low bits, the value above (Xpress9Internal.h:497-507).
  const MAX_CODEWORD_LENGTH: nat := 27

  function Packed(value: nat, bits: nat): nat { value * 32 + bits }

  function LengthOf(mask: nat): nat { mask % 32 }

  function ValueOf(mask: nat): nat { mask / 32 }

  /** The packed codewords of a length table: reversed canonical codes, 0 for unused symbols. */
  ghost predicate Masks(masks: seq<nat>, lengths: seq<nat>)
    requires Lengths(Listed(lengths, UNIT))
  {
    && |masks| == |lengths|
    && (forall k :: 0 <= k < |Listed(lengths, UNIT)| ==> MaskOf(masks, Listed(lengths, UNIT), k))
    && forall s :: 0 <= s < |lengths| && lengths[s] == 0 ==> masks[s] == 0
  }

  ghost predicate MaskOf(masks: seq<nat>, list: seq<Coded>, k: nat)
    requires Lengths(list) && k < |list|
  {
    && list[k].symbol < |masks|
    && masks[list[k].symbol] == Packed(Reverse(Code(list, k), list[k].bits), list[k].bits)
  }

  /** The code value before the symbol k, counting in units of b-bit codewords. */
  ghost predicate Reached(list: seq<Coded>, k: nat, bits: nat, mask: nat)
    requires Lengths(list) && k <= |list|
  {
    bits <= UNIT && Edge(list, k) == mask * Size(bits)
  }

  /** Shifting the running code to the length of the next symbol gives its canonical codeword. */
  lemma ShiftedCode(list: seq<Coded>, k: nat, bits: nat, mask: nat)
    requires Lengths(list) && Sorted(list) && k < |list|
    requires Reached(list, k + 1, bits, mask) && bits <= list[k].bits
    ensures Shl(mask, list[k].bits - bits) == Code(list, k)
    ensures Reached(list, k, list[k].bits, Code(list, k) + 1)
    ensures Complete(list) ==> Code(list, k) < Pow2(list[k].bits)
  {
    var b := list[k].bits;
    CodeAligned(list, k);
    if Complete(list) { CodeFits(list, k); }
    SizeMultiple(bits, b);
    ShlIs(mask, b - bits);
    ScaleDown(mask, Pow2(b - bits), Size(b), Code(list, k));
  }

  lemma ScaleDown(m: nat, p: nat, s: nat, c: nat)
    requires s > 0 && m * (p * s) == c * s
    ensures m * p == c
  {
    assert m * (p * s) == m * p * s;
    MulCancelEqual(m * p, c, s);
  }

  /** The last codeword ends at 2^bits exactly if the code is complete. */
  lemma CodeEnds(list: seq<Coded>, bits: nat, mask: nat)
    requires Lengths(list) && Reached(list, 0, bits, mask)
    ensures mask == Pow2(bits) <==> Complete(list)
  {
    SizeMultiple(0, bits);
    if Complete(list) { MulCancelEqual(mask, Pow2(bits), Size(bits)); }
  }

  ghost predicate DistinctList(list: seq<Coded>)
  {
    forall i, j :: 0 <= i < j < |list| ==> list[i].symbol != list[j].symbol
  }

  ghost predicate Listable(list: seq<Coded>, size: nat)
  {
    && Lengths(list) && Sorted(list) && DistinctList(list)
    && forall k :: 0 <= k < |list| ==> list[k].symbol < size && list[k].bits <= MAX_CODEWORD_LENGTH
  }

  ghost predicate Encodable(list: seq<Coded>, size: nat)
  {
    Listable(list, size) && Complete(list)
  }

  /** One turn of the loop of HuffmanCreateCodewords; false is the failure of one of its assertions, or of that of
      HuffmanReverseMask, and then the codewords so far take more room than there is. */
  method PlaceCodeword(x: Coded, bits: nat, mask: nat, masks: array<nat>, ghost list: seq<Coded>, ghost k: nat)
    returns (ok: bool, next: nat)
    requires Lengths(list) && Listable(list, masks.Length) && k < |list| && x == list[k]
    requires Reached(list, k + 1, bits, mask) && bits <= x.bits
    modifies masks
    ensures ok ==> Reached(list, k, x.bits, next) && x.symbol < masks.Length
    ensures ok ==> masks[..] == old(masks[..])[x.symbol := Packed(Reverse(Code(list, k), x.bits), x.bits)]
    ensures !ok ==> !Complete(list)
  {
    ok, next := false, 0;
    ghost var before := masks[..];
    if x.bits >= LENGTH_LIMIT || x.bits < bits || x.symbol > masks.Length { return; }
    ShiftedCode(list, k, bits, mask);
    var code := Shl(mask, x.bits - bits);
    if x.symbol >= masks.Length || x.bits >= 32 { return; }
    if code >= Pow2(x.bits) { return; }
    var r := HuffmanReverseMask(code, x.bits);
    masks[x.symbol] := Packed(r, x.bits);
    if code + 1 > Pow2(x.bits) { return; }
    assert masks[..] == before[x.symbol := Packed(r, x.bits)];
    return true, code + 1;
  }

  ghost predicate Unlisted(list: seq<Coded>, s: nat)
  {
    forall k :: 0 <= k < |list| ==> list[k].symbol != s
  }

  ghost predicate PlacedFrom(masks: seq<nat>, before: seq<nat>, list: seq<Coded>, k: nat)
    requires Lengths(list)
  {
    && |masks| == |before| && k <= |list|
    && (forall m :: k <= m < |list| ==> MaskOf(masks, list, m))
    && forall s :: 0 <= s < |masks| && Unlisted(list, s) ==> masks[s] == before[s]
  }

  lemma PlacedNext(masks: seq<nat>, before: seq<nat>, list: seq<Coded>, k: nat)
    requires Lengths(list) && DistinctList(list) && k < |list| && list[k].symbol < |masks|
    requires PlacedFrom(masks, before, list, k + 1)
    ensures PlacedFrom(masks[list[k].symbol := Packed(Reverse(Code(list, k), list[k].bits), list[k].bits)], before, list, k)
  {
    hide Packed, Reverse, Code;
    var next := masks[list[k].symbol := Packed(Reverse(Code(list, k), list[k].bits), list[k].bits)];
    forall m | k <= m < |list| ensures MaskOf(next, list, m) {
      if m > k { assert MaskOf(masks, list, m); }
    }
  }

  lemma ListOrder(list: seq<Coded>, k: nat)
    requires Sorted(list) && k + 1 < |list|
    ensures list[k + 1].bits <= list[k].bits
  {
    assert Before(list[k], list[k + 1]);
  }

  lemma NothingReached(list: seq<Coded>, one: nat)
    requires Lengths(list) && one == 1
    ensures Reached(list, |list|, one, 0)
  {}

  /** HuffmanCreateCodewords: for every ordered list, its assertions on order, range and on ending at exactly 2^bits
      hold if and only if the code is complete, and then every symbol has its canonical codeword. */
  method HuffmanCreateCodewords(asc: seq<Coded>, masks: array<nat>, ghost list: seq<Coded>) returns (ok: bool)
    requires Lengths(list) && asc == Rev(list) && Listable(list, masks.Length)
    modifies masks
    ensures ok <==> Complete(list)
    ensures ok ==> PlacedFrom(masks[..], old(masks[..]), list, 0)
  {
    hide Packed, Reverse, Code, Reached, MaskOf, Complete;
    var bits: nat, mask: nat, j: nat := 1, 0, 0;
    NothingReached(list, bits);
    ok := true;
    while j < |asc|
      invariant j <= |asc| == |list|
      invariant Reached(list, |list| - j, bits, mask)
      invariant j == 0 ==> bits == 1
      invariant j > 0 ==> bits == list[|list| - j].bits
      invariant PlacedFrom(masks[..], old(masks[..]), list, |list| - j)
    {
      ghost var k := |list| - j - 1;
      if j > 0 { ListOrder(list, k); }
      ghost var was := masks[..];
      ok, mask := PlaceCodeword(asc[j], bits, mask, masks, list, k);
      bits := asc[j].bits;
      if !ok { return; }
      PlacedNext(was, old(masks[..]), list, k);
      j := j + 1;
    }
    CodeEnds(list, bits, mask);
    ok := mask == Pow2(bits);
  }
}
