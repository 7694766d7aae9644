/** The multi-level lookup tables of HuffmanDecodeFillTables and what a walk through them decodes. */
module DecodeTables {
  import opened Powers
  import opened BitStrings
  import opened CodeLists

  // ------------------------------------------------------------------ streams

  /** A memory of bits; what lies beyond its end reads as zero. */
  function At(mem: Bits, i: nat): bool { i < |mem| && mem[i] }

  function Window(mem: Bits, pos: nat, n: nat): (s: Bits)
    ensures |s| == n
  {
    seq(n, i requires 0 <= i < n => At(mem, pos + i))
  }

  lemma WindowConcat(mem: Bits, pos: nat, a: nat, b: nat)
    ensures Window(mem, pos, a + b) == Window(mem, pos, a) + Window(mem, pos + a, b)
  {
  }

  lemma WindowValue(mem: Bits, pos: nat, a: nat, b: nat)
    ensures FromMsb(Window(mem, pos, a + b))
            == Shl(FromMsb(Window(mem, pos, a)), b) + FromMsb(Window(mem, pos + a, b))
  {
    WindowConcat(mem, pos, a, b);
    FromMsbConcat(Window(mem, pos, a), Window(mem, pos + a, b));
  }

  lemma WindowPrefix(mem: Bits, pos: nat, m: nat, n: nat)
    requires m <= n
    ensures Shr(FromMsb(Window(mem, pos, n)), n - m) == FromMsb(Window(mem, pos, m))
  {
    FromMsbPrefix(Window(mem, pos, n), m);
    assert Window(mem, pos, n)[..m] == Window(mem, pos, m);
  }

  /** The next 63 bits of the stream as a point of the code interval. */
  function Point(mem: Bits, pos: nat): (x: nat)
    ensures x < Pow2(UNIT)
  {
    FromMsb(Window(mem, pos, UNIT))
  }

  // ------------------------------------------------------------------ HUFFMAN_DECODE_SYMBOL

  datatype Decoded = Fault | Symbol(symbol: int, pos: nat)

  /** One table lookup after another: a negative entry moves to a table at a lower offset. */
  function Walk(t: seq<int>, base: int, width: nat, tail: nat, mem: Bits, pos: nat): Decoded
    decreases base
  {
    if base < 0 || base + FromLsb(Window(mem, pos, width)) >= |t| then Fault
    else
      var e := t[base + FromLsb(Window(mem, pos, width))];
      if e < 0 then Walk(t, base + (e - e % 16), tail, tail, mem, pos + e % 16)
      else Symbol(e / 16, pos + e % 16)
  }

  // ------------------------------------------------------------------ what a table means

  /** A lookup table of 2^width entries at offset off, standing for the code-tree node reached by
      the level-bit path code. */
  datatype Tab = Tab(off: nat, width: nat, level: nat, code: nat)

  /** Slot i of a table of width w at node code, numbered among all nodes of the table's lowest level. */
  function Slot(code: nat, w: nat, i: nat): nat
  {
    Shl(code, w) + i
  }

  /** Slot i of tab lies under the node (level, code). */
  ghost predicate Under(tab: Tab, i: nat, level: nat, code: nat)
    requires level <= tab.level + tab.width
  {
    Shr(Slot(tab.code, tab.width, i), tab.level + tab.width - level) == code
  }

  ghost predicate LeafEntry(list: seq<Coded>, tab: Tab, i: nat, e: int, k: nat)
    requires Lengths(list)
  {
    && k < |list|
    && tab.level < list[k].bits <= tab.level + tab.width
    && e == 16 * list[k].symbol + (list[k].bits - tab.level)
    && Under(tab, i, list[k].bits, Code(list, k))
  }

  ghost predicate JumpEntry(tab: Tab, i: nat, e: int, to: Tab, tail: nat)
  {
    && tab.level < to.level <= tab.level + tab.width
    && to.width == tail
    && to.off % 16 == 0
    && to.off + 16 <= tab.off
    && e == to.off - tab.off + (to.level - tab.level)
    && Under(tab, i, to.level, to.code)
  }

  /** Entry e of slot i stands for a symbol or for one of the first q tables. */
  ghost predicate EntryOk(list: seq<Coded>, tabs: seq<Tab>, q: nat, tab: Tab, tail: nat, i: nat, e: int)
    requires Lengths(list) && q <= |tabs|
  {
    || (exists k: nat :: LeafEntry(list, tab, i, e, k))
    || (exists p: nat :: p < q && JumpEntry(tab, i, e, tabs[p], tail))
  }

  ghost predicate Shape(tab: Tab, size: nat)
  {
    && tab.off + Pow2(tab.width) <= size
    && tab.off % 16 == 0
    && tab.width <= 15
    && tab.level + tab.width <= UNIT
  }

  ghost predicate TabOk(t: seq<int>, list: seq<Coded>, tabs: seq<Tab>, q: nat, tail: nat)
    requires Lengths(list) && q < |tabs|
  {
    && Shape(tabs[q], |t|)
    && forall i :: 0 <= i < Pow2(tabs[q].width) ==>
         EntryOk(list, tabs, q, tabs[q], tail, i, t[tabs[q].off + Reverse(i, tabs[q].width)])
  }

  ghost predicate TabsOk(t: seq<int>, list: seq<Coded>, tabs: seq<Tab>, tail: nat)
    requires Lengths(list)
  {
    forall q :: 0 <= q < |tabs| ==> TabOk(t, list, tabs, q, tail)
  }

  /** The slot that the next lookup hits, in terms of the stream's point. */
  lemma LookupSlot(tab: Tab, mem: Bits, pos: nat, level: nat, code: nat)
    requires tab.level + tab.width <= UNIT && level <= tab.level + tab.width
    requires Shr(Point(mem, pos), UNIT - tab.level) == tab.code
    requires Under(tab, FromMsb(Window(mem, pos + tab.level, tab.width)), level, code)
    ensures Shr(Point(mem, pos), UNIT - level) == code
  {
    hide Shr, Shl, FromMsb, Window, Pow2, At;
    var l, w := tab.level, tab.width;
    WindowPrefix(mem, pos, l, UNIT);
    WindowPrefix(mem, pos, l + w, UNIT);
    WindowValue(mem, pos, l, w);
    ShrTwice(Point(mem, pos), UNIT - (l + w), l + w - level);
  }

  lemma WalkLeaf(t: seq<int>, base: nat, width: nat, tail: nat, mem: Bits, pos: nat, symbol: nat, n: nat)
    requires base + FromLsb(Window(mem, pos, width)) < |t| && n <= 15
    requires t[base + FromLsb(Window(mem, pos, width))] == 16 * symbol + n
    ensures Walk(t, base, width, tail, mem, pos) == Symbol(symbol, pos + n)
  {
  }

  lemma WalkJump(t: seq<int>, base: nat, width: nat, tail: nat, mem: Bits, pos: nat, to: nat, n: nat)
    requires base + FromLsb(Window(mem, pos, width)) < |t| && n <= 15
    requires base % 16 == 0 && to % 16 == 0 && to + 16 <= base
    requires t[base + FromLsb(Window(mem, pos, width))] == to - base + n
    ensures Walk(t, base, width, tail, mem, pos) == Walk(t, to, tail, tail, mem, pos + n)
  {
    var e := to - base + n;
    assert e % 16 == n;
  }

  lemma EntryHit(t: seq<int>, list: seq<Coded>, tabs: seq<Tab>, q: nat, tail: nat, s: Bits)
    requires Lengths(list) && q < |tabs| && TabOk(t, list, tabs, q, tail) && |s| == tabs[q].width
    ensures tabs[q].off + FromLsb(s) < |t|
    ensures EntryOk(list, tabs, q, tabs[q], tail, FromMsb(s), t[tabs[q].off + FromLsb(s)])
  {
    LookupIndex(s);
  }

  lemma LeafLands(t: seq<int>, list: seq<Coded>, tab: Tab, tail: nat, mem: Bits, pos: nat, k: nat)
    requires Lengths(list) && Sorted(list) && Shape(tab, |t|)
    requires Shr(Point(mem, pos), UNIT - tab.level) == tab.code
    requires tab.off + FromLsb(Window(mem, pos + tab.level, tab.width)) < |t|
    requires LeafEntry(list, tab, FromMsb(Window(mem, pos + tab.level, tab.width)),
                       t[tab.off + FromLsb(Window(mem, pos + tab.level, tab.width))], k)
    ensures Owns(list, k, Point(mem, pos))
    ensures Walk(t, tab.off, tab.width, tail, mem, pos + tab.level)
            == Symbol(list[k].symbol, pos + list[k].bits)
  {
    LookupSlot(tab, mem, pos, list[k].bits, Code(list, k));
    OwnsIsPrefix(list, k, Point(mem, pos));
    WalkLeaf(t, tab.off, tab.width, tail, mem, pos + tab.level, list[k].symbol, list[k].bits - tab.level);
  }

  lemma JumpLands(t: seq<int>, tab: Tab, to: Tab, tail: nat, mem: Bits, pos: nat)
    requires Shape(tab, |t|) && Shr(Point(mem, pos), UNIT - tab.level) == tab.code
    requires tab.off + FromLsb(Window(mem, pos + tab.level, tab.width)) < |t|
    requires JumpEntry(tab, FromMsb(Window(mem, pos + tab.level, tab.width)),
                       t[tab.off + FromLsb(Window(mem, pos + tab.level, tab.width))], to, tail)
    ensures Shr(Point(mem, pos), UNIT - to.level) == to.code
    ensures Walk(t, tab.off, tab.width, tail, mem, pos + tab.level)
            == Walk(t, to.off, to.width, tail, mem, pos + to.level)
  {
    LookupSlot(tab, mem, pos, to.level, to.code);
    WalkJump(t, tab.off, tab.width, tail, mem, pos + tab.level, to.off, to.level - tab.level);
  }

  lemma WalkStep(t: seq<int>, list: seq<Coded>, tabs: seq<Tab>, q: nat, tail: nat, mem: Bits, pos: nat)
    returns (leaf: bool, n: nat)
    requires Lengths(list) && Sorted(list) && q < |tabs| && TabOk(t, list, tabs, q, tail)
    requires Shr(Point(mem, pos), UNIT - tabs[q].level) == tabs[q].code
    ensures leaf ==> n < |list| && Owns(list, n, Point(mem, pos))
                     && Walk(t, tabs[q].off, tabs[q].width, tail, mem, pos + tabs[q].level)
                        == Symbol(list[n].symbol, pos + list[n].bits)
    ensures !leaf ==> n < q && tabs[n].level <= UNIT && Shr(Point(mem, pos), UNIT - tabs[n].level) == tabs[n].code
                      && Walk(t, tabs[q].off, tabs[q].width, tail, mem, pos + tabs[q].level)
                         == Walk(t, tabs[n].off, tabs[n].width, tail, mem, pos + tabs[n].level)
  {
    hide Walk, Owns, Shr, Point, FromMsb, FromLsb, EntryOk, LeafEntry, JumpEntry;
    var tab := tabs[q];
    var s := Window(mem, pos + tab.level, tab.width);
    EntryHit(t, list, tabs, q, tail, s);
    var i, e := FromMsb(s), t[tab.off + FromLsb(s)];
    leaf, n := EntryKind(list, tabs, q, tab, tail, i, e);
    if leaf {
      LeafLands(t, list, tab, tail, mem, pos, n);
    } else {
      JumpLands(t, tab, tabs[n], tail, mem, pos);
    }
  }

  lemma EntryKind(list: seq<Coded>, tabs: seq<Tab>, q: nat, tab: Tab, tail: nat, i: nat, e: int)
    returns (leaf: bool, n: nat)
    requires Lengths(list) && q <= |tabs| && EntryOk(list, tabs, q, tab, tail, i, e)
    ensures leaf ==> LeafEntry(list, tab, i, e, n)
    ensures !leaf ==> n < q && JumpEntry(tab, i, e, tabs[n], tail)
  {
    if k: nat :| LeafEntry(list, tab, i, e, k) {
      leaf, n := true, k;
    } else {
      leaf := false;
      n :| n < q && JumpEntry(tab, i, e, tabs[n], tail);
    }
  }

  /** Starting in any table whose node the stream passes through, the walk ends at the symbol whose
      codeword the stream starts with, however many jumps that takes. */
  lemma {:induction false} WalkLands(t: seq<int>, list: seq<Coded>, tabs: seq<Tab>, q: nat, tail: nat,
                                     mem: Bits, pos: nat)
    returns (k: nat)
    requires Lengths(list) && Sorted(list) && TabsOk(t, list, tabs, tail) && q < |tabs|
    requires tabs[q].level <= UNIT && Shr(Point(mem, pos), UNIT - tabs[q].level) == tabs[q].code
    ensures k < |list| && Owns(list, k, Point(mem, pos))
    ensures Walk(t, tabs[q].off, tabs[q].width, tail, mem, pos + tabs[q].level)
            == Symbol(list[k].symbol, pos + list[k].bits)
    decreases q
  {
    assert TabOk(t, list, tabs, q, tail);
    var leaf, n := WalkStep(t, list, tabs, q, tail, mem, pos);
    k := n;
    if !leaf { k := WalkLands(t, list, tabs, n, tail, mem, pos); }
  }
}
