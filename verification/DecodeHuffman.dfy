/** From codeword lengths to decoding tables: HuffmanDecodeSortSymbols and HuffmanCreateDecodeTables
    (Xpress9DecHuffman.c:12-98, 331-397), and the theorem that the tables decode the canonical code. */
module DecodeHuffman {
  import opened Powers
  import opened BitStrings
  import opened CodeLists
  import opened LengthLists
  import opened DecodeTables
  import opened Histogram
  import opened FillTables
  import opened ReverseMask

  /** HuffmanDecodeSortSymbols: symbols are chained by length, last symbol first; the chains are then
      linked from the shortest length to the longest, each in front of what is there. */
  method HuffmanDecodeSortSymbols(lengths: seq<nat>) returns (ok: bool, list: seq<Coded>, counts: array<nat>)
    ensures fresh(counts) && counts.Length == LENGTH_LIMIT
    ensures ok <==> (forall i :: 0 <= i < |lengths| ==> lengths[i] < LENGTH_LIMIT) && Listed(lengths, UNIT) != []
    ensures ok ==> list == Listed(lengths, UNIT) && IsHistogram(counts[..], lengths)
  {
    counts := new nat[LENGTH_LIMIT](_ => 0);
    var chain := new seq<Coded>[LENGTH_LIMIT](_ => []);
    list := [];
    var i: nat := |lengths|;
    while i != 0
      invariant i <= |lengths|
      invariant fresh(chain) && fresh(counts) && counts as object != chain
      invariant forall m :: i <= m < |lengths| ==> lengths[m] < LENGTH_LIMIT
      invariant counts[0] == 0 && chain[0] == []
      invariant forall b :: 1 <= b < LENGTH_LIMIT ==> chain[b] == Level(lengths, b, i) && counts[b] == |chain[b]|
    {
      i := i - 1;
      if lengths[i] != 0 {
        var n := lengths[i];
        if n >= LENGTH_LIMIT { return false, list, counts; }
        counts[n] := counts[n] + 1;
        chain[n] := chain[n] + [Coded(i, n)];
      }
    }
    i := 0;
    while i < LENGTH_LIMIT
      invariant i <= LENGTH_LIMIT
      invariant list == if i == 0 then [] else Listed(lengths, i - 1)
    {
      list := chain[i] + list;
      i := i + 1;
    }
    ok := list != [];
  }

  // ------------------------------------------------------------------ decoding

  /** The stream at pos starts with the codeword of the k-th symbol; a lone symbol takes any bits. */
  ghost predicate Leads(list: seq<Coded>, k: nat, mem: Bits, pos: nat)
    requires Lengths(list)
  {
    k < |list| && (|list| == 1 || Owns(list, k, Point(mem, pos)))
  }

  /** Decoding one symbol by the code itself, without tables. */
  ghost function Next(list: seq<Coded>, mem: Bits, pos: nat): Decoded
    requires Lengths(list)
  {
    if exists k: nat :: Leads(list, k, mem, pos)
    then var k: nat :| Leads(list, k, mem, pos); Symbol(list[k].symbol, pos + list[k].bits)
    else Fault
  }

  lemma NextIs(list: seq<Coded>, k: nat, mem: Bits, pos: nat)
    requires Lengths(list) && Leads(list, k, mem, pos)
    ensures Next(list, mem, pos) == Symbol(list[k].symbol, pos + list[k].bits)
  {
    hide Owns, Point;
    forall j: nat | Leads(list, j, mem, pos) ensures j == k {
      if |list| != 1 { OwnerUnique(list, j, k, Point(mem, pos)); }
    }
  }

  /** A complete code finds a symbol in every stream. */
  lemma NextExists(list: seq<Coded>, mem: Bits, pos: nat) returns (k: nat)
    requires Complete(list) || (Lengths(list) && |list| == 1)
    ensures Leads(list, k, mem, pos)
    ensures Next(list, mem, pos) == Symbol(list[k].symbol, pos + list[k].bits)
  {
    hide Owns, Point, Next;
    k := 0;
    if |list| != 1 { k := OwnerExists(list, 0, Point(mem, pos)); }
    NextIs(list, k, mem, pos);
  }

  /** Decoding inverts the canonical codewords. */
  lemma CodewordIsNext(list: seq<Coded>, k: nat, mem: Bits, pos: nat)
    requires k < |list| && Sorted(list) && (Complete(list) || (Lengths(list) && |list| == 1))
    requires Window(mem, pos, list[k].bits) == Word(list, k)
    ensures Next(list, mem, pos) == Symbol(list[k].symbol, pos + list[k].bits)
  {
    hide Owns, Point, Next, Word, Window, Sorted, Edge;
    if |list| != 1 { WordIsOwned(list, k, mem, pos); }
    NextIs(list, k, mem, pos);
  }

  /** The lookup from the table at base is the decoding of the code. */
  ghost predicate Decodes(t: seq<int>, base: int, root: nat, tail: nat, list: seq<Coded>)
    requires Lengths(list)
  {
    forall mem: Bits, pos: nat :: Walk(t, base, root, tail, mem, pos) == Next(list, mem, pos)
  }

  lemma WordIsOwned(list: seq<Coded>, k: nat, mem: Bits, pos: nat)
    requires k < |list| && Sorted(list) && Complete(list)
    requires Window(mem, pos, list[k].bits) == Word(list, k)
    ensures Owns(list, k, Point(mem, pos))
  {
    WindowPrefix(mem, pos, list[k].bits, UNIT);
    CodeFits(list, k);
    FromMsbOfMsb(CodeLists.Code(list, k), list[k].bits);
    OwnsIsPrefix(list, k, Point(mem, pos));
  }

  lemma BuiltDecodesOne(t: seq<int>, list: seq<Coded>, tabs: seq<Tab>, q: nat, tail: nat, mem: Bits, pos: nat)
    requires Lengths(list) && Sorted(list) && TabsOk(t, list, tabs, tail) && q < |tabs|
    requires tabs[q].level == 0 && tabs[q].code == 0
    ensures Walk(t, tabs[q].off, tabs[q].width, tail, mem, pos) == Next(list, mem, pos)
  {
    hide *;
    ShrSmall(Point(mem, pos), UNIT);
    var j := WalkLands(t, list, tabs, q, tail, mem, pos);
    OwnerLeads(list, j, mem, pos);
    NextIs(list, j, mem, pos);
  }

  lemma OwnerLeads(list: seq<Coded>, k: nat, mem: Bits, pos: nat)
    requires Lengths(list) && k < |list| && Owns(list, k, Point(mem, pos))
    ensures Leads(list, k, mem, pos)
  {
  }

  /** The tables of HuffmanDecodeFillTables decode the canonical code. */
  lemma BuiltDecodes(t: seq<int>, list: seq<Coded>, tabs: seq<Tab>, root: nat, tail: nat, n: nat)
    requires Lengths(list) && Sorted(list) && Built(t, list, tabs, root, tail, n)
    ensures Decodes(t, n - Pow2(root), root, tail, list)
  {
    hide TabsOk, Next, Walk, Sorted, Lengths;
    forall mem: Bits, pos: nat ensures Walk(t, n - Pow2(root), root, tail, mem, pos) == Next(list, mem, pos) {
      BuiltDecodesOne(t, list, tabs, |tabs| - 1, tail, mem, pos);
    }
  }

  /** With a single table no jump is taken, so the tail width of the lookup does not matter. */
  lemma RootTableDecodes(t: seq<int>, list: seq<Coded>, tabs: seq<Tab>, root: nat, tail: nat, other: nat, n: nat)
    requires Lengths(list) && Sorted(list) && Built(t, list, tabs, root, tail, n) && |tabs| == 1
    ensures Decodes(t, n - Pow2(root), root, other, list)
  {
    hide Next, Walk, Sorted, Lengths, TabOk;
    forall mem: Bits, pos: nat ensures Walk(t, n - Pow2(root), root, other, mem, pos) == Next(list, mem, pos) {
      assert TabOk(t, list, tabs, 0, tail);
      var j := RootTableLeaf(t, list, tabs, tail, other, mem, pos);
      OwnerLeads(list, j, mem, pos);
      NextIs(list, j, mem, pos);
    }
  }

  lemma RootTableLeaf(t: seq<int>, list: seq<Coded>, tabs: seq<Tab>, tail: nat, other: nat, mem: Bits, pos: nat)
    returns (k: nat)
    requires Lengths(list) && Sorted(list) && |tabs| == 1 && TabOk(t, list, tabs, 0, tail)
    requires tabs[0].level == 0 && tabs[0].code == 0
    ensures k < |list| && Owns(list, k, Point(mem, pos))
    ensures Walk(t, tabs[0].off, tabs[0].width, other, mem, pos) == Symbol(list[k].symbol, pos + list[k].bits)
  {
    hide Walk, Owns, Shr, Point, FromMsb, FromLsb, EntryOk, LeafEntry, JumpEntry;
    ShrSmall(Point(mem, pos), UNIT);
    var s := Window(mem, pos, tabs[0].width);
    EntryHit(t, list, tabs, 0, tail, s);
    var leaf, n := EntryKind(list, tabs, 0, tabs[0], tail, FromMsb(s), t[tabs[0].off + FromLsb(s)]);
    k := n;
    LeafLands(t, list, tabs[0], other, mem, pos, k);
  }

  /** A code of one symbol: every slot decodes to it, whatever the stream holds. */
  lemma OneSymbolDecodes(t: seq<int>, list: seq<Coded>, root: nat, tail: nat)
    requires |list| == 1 && Lengths(list) && list[0].bits <= 15 && Pow2(root) <= |t|
    requires forall i :: 0 <= i < Pow2(root) ==> t[i] == LeafValue(list[0], 0)
    ensures Decodes(t, 0, root, tail, list)
  {
    hide Next, Walk;
    forall mem: Bits, pos: nat ensures Walk(t, 0, root, tail, mem, pos) == Next(list, mem, pos) {
      WalkLeaf(t, 0, root, tail, mem, pos, list[0].symbol, list[0].bits);
      NextIs(list, 0, mem, pos);
    }
  }

  /** The length tables HuffmanCreateDecodeTables accepts. */
  ghost predicate Acceptable(lengths: seq<nat>)
  {
    && (forall i :: 0 <= i < |lengths| ==> lengths[i] < LENGTH_LIMIT)
    && Lengths(Listed(lengths, UNIT))
    && (|Listed(lengths, UNIT)| == 1 || Complete(Listed(lengths, UNIT)))
  }

  /** Room and entry range that are enough for every acceptable table. */
  ghost predicate Roomy(lengths: seq<nat>, size: nat, root: nat, tail: nat)
  {
    && 4 <= tail <= root <= 15 && size <= 0x8000 && |lengths| <= 0x700
    && Listed(lengths, UNIT) != [] && SpaceNeeded(Listed(lengths, UNIT), root, tail) <= size
  }

  method FillSingle(table: array<int>, symbol: Coded, root: nat)
    requires Pow2(root) <= table.Length
    modifies table
    ensures forall i :: 0 <= i < Pow2(root) ==> table[i] == LeafValue(symbol, 0)
  {
    var i: nat := Pow2(root);
    while i != 0
      invariant i <= Pow2(root)
      invariant forall s :: i <= s < Pow2(root) ==> table[Reverse(s, root)] == LeafValue(symbol, 0)
    {
      i := i - 1;
      var r := HuffmanReverseMask(i, root);
      table[r] := LeafValue(symbol, 0);
    }
    forall m | 0 <= m < Pow2(root) ensures table[m] == LeafValue(symbol, 0) {
      ReverseInvolutive(m, root);
      assert table[Reverse(Reverse(m, root), root)] == LeafValue(symbol, 0);
    }
  }

  /** What a successful HuffmanCreateDecodeTables leaves: tables for the canonical code of lengths. A
      lone symbol of more than 15 bits is accepted but its entry overflows the four length bits; with
      all lengths within the root table the tail width given to the lookup is irrelevant. */
  ghost predicate Ready(t: seq<int>, base: int, root: nat, tail: nat, lengths: seq<nat>)
  {
    && Acceptable(lengths)
    && (|Listed(lengths, UNIT)| > 1 || Listed(lengths, UNIT)[0].bits <= 15 ==>
          Decodes(t, base, root, tail, Listed(lengths, UNIT)))
    && (Listed(lengths, UNIT)[0].bits <= root <= 15 ==>
          forall other: nat :: Decodes(t, base, root, other, Listed(lengths, UNIT)))
  }

  lemma SingleReady(t: seq<int>, root: nat, tail: nat, lengths: seq<nat>)
    requires forall i :: 0 <= i < |lengths| ==> lengths[i] < LENGTH_LIMIT
    requires |Listed(lengths, UNIT)| == 1 && Pow2(root) <= |t|
    requires forall i :: 0 <= i < Pow2(root) ==> t[i] == LeafValue(Listed(lengths, UNIT)[0], 0)
    ensures Ready(t, 0, root, tail, lengths)
  {
    hide Decodes, Sorted, Listed;
    var list := Listed(lengths, UNIT);
    ListIsSorted(lengths);
    if list[0].bits <= 15 {
      forall other: nat ensures Decodes(t, 0, root, other, list) { OneSymbolDecodes(t, list, root, other); }
    }
  }

  lemma TablesReady(t: seq<int>, tabs: seq<Tab>, root: nat, tail: nat, lengths: seq<nat>, n: nat)
    requires forall i :: 0 <= i < |lengths| ==> lengths[i] < LENGTH_LIMIT
    requires Complete(Listed(lengths, UNIT)) && |Listed(lengths, UNIT)| > 1
    requires Built(t, Listed(lengths, UNIT), tabs, root, tail, n)
    requires Listed(lengths, UNIT)[0].bits <= root ==> |tabs| == 1
    ensures Ready(t, n - Pow2(root), root, tail, lengths)
  {
    hide Decodes, Built, Sorted, Listed;
    var list := Listed(lengths, UNIT);
    ListIsSorted(lengths);
    var base := n - Pow2(root);
    BuiltDecodes(t, list, tabs, root, tail, n);
    if |tabs| == 1 {
      forall other: nat ensures Decodes(t, base, root, other, list) {
        RootTableDecodes(t, list, tabs, root, tail, other, n);
      }
    }
  }

  lemma FillFailed(t: seq<int>, list: seq<Coded>, tabs: seq<Tab>, root: nat, tail: nat, lengths: seq<nat>, n: nat)
    requires list == Listed(lengths, UNIT) && Lengths(list) && list != [] && n < Pow2(root)
    requires n != 0 ==> Built(t, list, tabs, root, tail, n)
    requires n == 0 ==> !(4 <= tail <= root <= 15) || |t| < SpaceNeeded(list, root, tail)
                        || |t| > 0x8000 || exists m :: 0 <= m < |list| && list[m].symbol >= 0x800
    ensures !Roomy(lengths, |t|, root, tail)
  {
    hide Listed, SpaceNeeded, Complete, TabsOk, Pow2;
    ListedElements(lengths, UNIT);
  }

  /** HuffmanCreateDecodeTables; a negative base is the source's NULL. */
  method HuffmanCreateDecodeTables(lengths: seq<nat>, table: array<int>, root: nat, tail: nat) returns (base: int)
    requires |lengths| <= Pow2(root) <= table.Length
    modifies table
    ensures base >= 0 ==> Ready(table[..], base, root, tail, lengths)
    ensures base < 0 ==> !Acceptable(lengths) || !Roomy(lengths, table.Length, root, tail)
  {
    hide Complete, Ready, FullTree, Built, Sorted, Listed, IsHistogram, SpaceNeeded, Next, Walk;
    base := -1;
    if root < tail { return; }
    ListIsSorted(lengths);
    var ok, list, counts := HuffmanDecodeSortSymbols(lengths);
    if !ok { return; }
    ListedElements(lengths, UNIT);
    if |list| == 1 {
      if !IsInt16(LeafValue(list[0], 0)) { return; }
      FillSingle(table, list[0], root);
      SingleReady(table[..], root, tail, lengths);
      return 0;
    }
    var full := HuffmanDecodeVerifyTree(counts);
    FullTreeIsComplete(counts[..], lengths);
    if !full { return; }
    SymbolCount(lengths);
    var n;
    ghost var tabs;
    n, tabs := HuffmanDecodeFillTables(table, list, root, tail);
    if n < Pow2(root) {
      FillFailed(table[..], list, tabs, root, tail, lengths, n);
      return;
    }
    TablesReady(table[..], tabs, root, tail, lengths, n);
    base := n - Pow2(root);
  }
}
