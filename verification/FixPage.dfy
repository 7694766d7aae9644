/** TryFixPage and ChecksumAndPossiblyFixPage (xsum.cxx:201-307). */
module FixPage {
  import opened Powers
  import opened BitStrings
  import opened XorWords
  import opened Ecc
  import opened EccRows
  import opened BitFlips
  import opened BlockRepair
  import opened PageRepair

  /** Bit of an array of checksums flipped; the low 32 bits of each are its exclusive or. */
  function FlipChecksum(sums: seq<Checksum>, bit: nat): (r: seq<Checksum>)
    requires bit / 64 < |sums|
    ensures |r| == |sums|
  {
    var s := sums[bit / 64];
    sums[bit / 64 := if bit % 64 < 32 then Checksum(s.ecc, Xor(s.xor, Pow2(bit % 32)))
                     else Checksum(Xor(s.ecc, Pow2(bit % 32)), s.xor)]
  }

  /** The bit that no correction may flip: the format flag in the first block, none in the others. */
  function Reserved(b: nat): nat { if b == 0 then FORMAT_BIT else UL_MAX }

  /** A flip of the header block that hit another stored checksum. */
  function HitsOther(n: nat, v: Verdict): bool
  {
    n > SMALL_WORDS && v.Correctable? && 32 * OTHERS <= v.ibit < 32 * OTHERS_END
  }

  /** The expected checksums, with a flip that the header block reports taken back. */
  ghost function Adjusted(n: nat, cb: nat, expected: seq<Checksum>, actual: seq<Checksum>): (r: seq<Checksum>)
    requires cb > 0 && |expected| == 4 && |actual| == 4
    ensures |r| == 4
  {
    var v := Judge(cb, Reserved(0), expected[0], actual[0]);
    if HitsOther(n, v) then FlipChecksum(expected, 64 + (v.ibit - 32 * OTHERS)) else expected
  }

  ghost function VerdictOf(n: nat, cb: nat, expected: seq<Checksum>, actual: seq<Checksum>, b: nat): Verdict
    requires cb > 0 && |expected| == 4 && |actual| == 4 && b < 4
  {
    if b == 0 then Judge(cb, Reserved(0), expected[0], actual[0])
    else Judge(cb, Reserved(b), Adjusted(n, cb, expected, actual)[b], actual[b])
  }

  /** The page with the corrections of blocks b.. made. */
  ghost function Repaired(ws: seq<nat>, vs: seq<Verdict>, b: nat, size: nat): (r: seq<nat>)
    requires b <= |vs| && |vs| * size <= |ws| && forall i :: 0 <= i < |vs| && vs[i].Correctable? ==> vs[i].ibit < 32 * size
    ensures |r| == |ws|
  {
    if b == 0 then ws
    else
      var before := Repaired(ws, vs, b - 1, size);
      if vs[b - 1].Correctable? then
        BitInside(b - 1, size, vs[b - 1].ibit, |vs|);
        FlipAt(before, 32 * ((b - 1) * size) + vs[b - 1].ibit)
      else before
  }

  lemma BitInside(b: nat, size: nat, i: nat, count: nat)
    requires b < count && i < 32 * size
    ensures (32 * (b * size) + i) / 32 == b * size + i / 32 && b * size + i / 32 < (b + 1) * size <= count * size
  {
    assert (b + 1) * size == b * size + size;
    MulMonotone(b + 1, count, size);
  }

  lemma JudgeBound(cb: nat, reserved: nat, expected: Checksum, actual: Checksum)
    requires cb > 0
    ensures var v := Judge(cb, reserved, expected, actual); v.Correctable? ==> v.ibit < 8 * cb
  {
    hide Xor;
  }

  ghost predicate ChecksumsInRange(sums: seq<Checksum>)
  {
    forall i :: 0 <= i < |sums| ==> sums[i].ecc < Pow2(32) && sums[i].xor < Pow2(32)
  }

  lemma FlippedInRange(sums: seq<Checksum>, bit: nat)
    requires bit / 64 < |sums| && ChecksumsInRange(sums)
    ensures ChecksumsInRange(FlipChecksum(sums, bit))
  {
    hide Xor, Pow2;
    var s := sums[bit / 64];
    PowerBelow(bit % 32);
    XorBound(s.xor, Pow2(bit % 32), 32);
    XorBound(s.ecc, Pow2(bit % 32), 32);
  }

  /** The first loop: the verdicts, and the position of the first correctable error. */
  method JudgeBlocks(n: nat, cb: nat, count: nat, expected0: seq<Checksum>, actual: seq<Checksum>)
    returns (ok: bool, vs: seq<Verdict>, ibit: int)
    requires cb > 0 && |expected0| == 4 && |actual| == 4 && count == BlockCount(n) && n == count * (cb / 4) && cb % 4 == 0
    requires ChecksumsInRange(expected0) && ChecksumsInRange(actual)
    ensures ok <==> forall b: nat :: b < count ==> !VerdictOf(n, cb, expected0, actual, b).Fatal?
    ensures ok ==> |vs| == count && forall b: nat :: b < count ==> vs[b] == VerdictOf(n, cb, expected0, actual, b)
    ensures ok ==> ibit == FirstError(vs, cb, 0)
  {
    hide Judge, Xor, FlipChecksum, ChecksumsInRange;
    var expected := expected0;
    vs, ibit, ok := [], -1, true;
    while |vs| < count
      invariant |vs| <= count && |expected| == 4 && ChecksumsInRange(expected)
      invariant |vs| == 0 ==> expected == expected0 && ibit == -1
      invariant |vs| > 0 ==> expected == Adjusted(n, cb, expected0, actual)
      invariant forall b: nat :: b < |vs| ==> vs[b] == VerdictOf(n, cb, expected0, actual, b) && !vs[b].Fatal?
      invariant ibit == FirstError(vs, cb, 0)
      invariant ibit == -1 ==> forall i :: 0 <= i < |vs| ==> !vs[i].Correctable?
      invariant ibit != -1 ==> exists i :: 0 <= i < |vs| && vs[i].Correctable?
      decreases count - |vs|
    {
      var b := |vs|;
      InRangeAt(expected, b);
      InRangeAt(actual, b);
      var v := TryFixBlock(cb, Reserved(b), expected[b], actual[b]);
      JudgeBound(cb, Reserved(b), expected[b], actual[b]);
      if v.Fatal? { assert VerdictOf(n, cb, expected0, actual, b).Fatal?; return false, vs, ibit; }
      if v.Correctable? && ibit == -1 {
        Nonnegative(8 * cb, b);
        ibit := 8 * cb * b + v.ibit;
        if n > SMALL_WORDS && b == 0 && 32 * OTHERS <= ibit < 32 * OTHERS_END {
          FlippedInRange(expected, 64 + (ibit - 32 * OTHERS));
          expected := FlipChecksum(expected, 64 + (ibit - 32 * OTHERS));
        }
      }
      FirstErrorNext(vs, v, cb, 0);
      assert forall i {:trigger vs[i]} :: 0 <= i < |vs| ==> (vs + [v])[i] == vs[i];
      assert (vs + [v])[b] == v;
      vs := vs + [v];
    }
  }

  lemma Nonnegative(a: nat, b: nat)
    ensures a * b >= 0
  {
  }

  lemma InRangeAt(sums: seq<Checksum>, b: nat)
    requires ChecksumsInRange(sums) && b < |sums|
    ensures sums[b].ecc < Pow2(32) && sums[b].xor < Pow2(32)
  {
  }

  /** The bit offset of the first correctable error, -1 if there is none. */
  function FirstError(vs: seq<Verdict>, cb: nat, b: nat): int
    requires b <= |vs|
    decreases |vs| - b
  {
    if b == |vs| then -1
    else if vs[b].Correctable? then 8 * cb * b + vs[b].ibit
    else FirstError(vs, cb, b + 1)
  }

  lemma {:induction false} FirstErrorNext(vs: seq<Verdict>, v: Verdict, cb: nat, b: nat)
    requires b <= |vs|
    ensures (exists i :: b <= i < |vs| && vs[i].Correctable?) ==> FirstError(vs + [v], cb, b) == FirstError(vs, cb, b)
    ensures (forall i :: b <= i < |vs| ==> !vs[i].Correctable?) ==>
              FirstError(vs + [v], cb, b) == if v.Correctable? then 8 * cb * |vs| + v.ibit else -1
    decreases |vs| - b
  {
    if b < |vs| { FirstErrorNext(vs, v, cb, b + 1); }
  }

  /** The second loop, and the whole of TryFixPage. */
  method TryFixPage(page: array<nat>, correct: bool, expected: seq<Checksum>, actual: seq<Checksum>, ghost k: nat)
    returns (correctable: bool, ibit: int, ghost vs: seq<Verdict>)
    requires Page(page[..], k) && |expected| == 4 && |actual| == 4
    requires ChecksumsInRange(expected) && ChecksumsInRange(actual)
    modifies page
    ensures correctable <==> forall b: nat :: b < BlockCount(page.Length) ==>
              !VerdictOf(page.Length, 4 * Pow2(k), expected, actual, b).Fatal?
    ensures correctable ==> |vs| == BlockCount(page.Length)
    ensures correctable ==> forall b: nat :: b < |vs| ==> vs[b] == VerdictOf(page.Length, 4 * Pow2(k), expected, actual, b)
    ensures ibit == if correctable then FirstError(vs, 4 * Pow2(k), 0) else -1
    ensures RepairFits(page.Length, vs, Pow2(k))
    ensures page[..] == if correctable && correct then Repaired(old(page[..]), vs, |vs|, Pow2(k)) else old(page[..])
  {
    hide VerdictOf, Pow2, Repaired, FirstError, AreDwords, ChecksumsInRange, Judge;
    PageNumbers(page.Length, k);
    ghost var was := page[..];
    var small := page.Length <= SMALL_WORDS;
    var size := if small then page.Length else page.Length / 4;
    var count := if small then 1 else 4;
    assert size == Pow2(k);
    var verdicts;
    correctable, verdicts, ibit := JudgeBlocks(page.Length, 4 * size, count, expected, actual);
    vs := if correctable then verdicts else [];
    VerdictsFit(page.Length, expected, actual, vs, size);
    if !correctable { ibit := -1; return; }
    var b := 0;
    RepairNone(was, vs, size);
    while correct && b < count
      invariant b <= count && (!correct ==> b == 0) && RepairFits(page.Length, vs, size)
      invariant page[..] == Repaired(was, vs, b, size)
    {
      RepairNext(was, vs, b, size);
      if verdicts[b].Correctable? {
        BitInside(b, size, verdicts[b].ibit, count);
        FlipBit(page, b * size, verdicts[b].ibit);
      }
      b := b + 1;
    }
  }

  ghost predicate RepairFits(n: nat, vs: seq<Verdict>, size: nat)
  {
    |vs| * size <= n && forall i :: 0 <= i < |vs| && vs[i].Correctable? ==> vs[i].ibit < 32 * size
  }

  lemma VerdictsFit(n: nat, expected: seq<Checksum>, actual: seq<Checksum>, vs: seq<Verdict>, size: nat)
    requires size > 0 && |expected| == 4 && |actual| == 4
    requires vs == [] || (|vs| == BlockCount(n) && BlockCount(n) * size <= n)
    requires forall b: nat :: b < |vs| ==> vs[b] == VerdictOf(n, 4 * size, expected, actual, b)
    ensures RepairFits(n, vs, size)
  {
    hide Judge, Adjusted;
    forall i | 0 <= i < |vs| && vs[i].Correctable? ensures vs[i].ibit < 32 * size {
      JudgeBound(4 * size, Reserved(i), if i == 0 then expected[0] else Adjusted(n, 4 * size, expected, actual)[i], actual[i]);
      assert vs[i] == VerdictOf(n, 4 * size, expected, actual, i);
    }
  }

  lemma RepairNone(ws: seq<nat>, vs: seq<Verdict>, size: nat)
    requires RepairFits(|ws|, vs, size)
    ensures Repaired(ws, vs, 0, size) == ws
  {
  }

  lemma RepairNext(ws: seq<nat>, vs: seq<Verdict>, b: nat, size: nat)
    requires RepairFits(|ws|, vs, size) && b < |vs|
    ensures vs[b].Correctable? ==> (32 * (b * size) + vs[b].ibit) / 32 < |ws|
    ensures Repaired(ws, vs, b + 1, size)
            == if vs[b].Correctable? then FlipAt(Repaired(ws, vs, b, size), 32 * (b * size) + vs[b].ibit) else Repaired(ws, vs, b, size)
  {
    if vs[b].Correctable? { BitInside(b, size, vs[b].ibit, |vs|); }
  }
}
