/** Writing the checksums of a page (ese/_osu/checksumu.cxx:136-151, 199-240, 666-676), and checking it under another
    page number, as after a misplaced write (_esefile/xsum.cxx:273-307, ese/_osu/checksumu.cxx:597-610). */
module PageNumber {
  import opened Powers
  import opened BitStrings
  import opened XorWords
  import opened Ecc
  import opened EccRows
  import opened BitFlips
  import opened BlockRepair
  import opened PageRepair
  import opened FixPage
  import opened PageDamage
  import opened CheckPage

  // ------------------------------------------------------------------ where things are

  /** The page header in absolute terms: the format flag is 0x2000 in word 9, the checksum of the page or of its first
      block is in words 0 and 1, and those of the other blocks of a large page are in words 10 to 15. */
  lemma HeaderLayout(ws: seq<nat>)
    requires |ws| >= 512
    ensures HasNewFormat(ws) <==> ws[9] / 0x2000 % 2 == 1
    ensures ChecksumFromPage(ws)[0] == Checksum(ws[1], ws[0])
    ensures forall b :: 1 <= b < 4 ==>
              ChecksumFromPage(ws)[b] == if |ws| <= 2048 then Checksum(0, 0) else Checksum(ws[9 + 2 * b], ws[8 + 2 * b])
  {
    FlagMask(ws[9], 13);
  }

  lemma FlagMask(w: nat, n: nat)
    requires n == 13
    ensures Shr(w, n) == w / 0x2000
  {
    hide Shr;
    ShrIsDiv(w, n);
    assert Pow2(8) == 256 && Pow2(5) == 32;
    Pow2Add(8, 5);
  }

  // ------------------------------------------------------------------ writing

  /** SetNewChecksumFormatFlag. */
  function Flagged(ws: seq<nat>): (r: seq<nat>)
    requires |ws| >= 512
    ensures |r| == |ws|
  {
    if HasNewFormat(ws) then ws else FlipAt(ws, FORMAT_BIT)
  }

  lemma FlaggedIs(ws: seq<nat>)
    requires |ws| >= 512 && AreDwords(ws)
    ensures HasNewFormat(Flagged(ws)) && AreDwords(Flagged(ws))
    ensures forall w :: 0 <= w < |ws| && w != 9 ==> Flagged(ws)[w] == ws[w]
  {
    hide Xor, Pow2, AreDwords;
    FlipIsList(ws, FORMAT_BIT);
    FlagToggles(ws[9], 13);
  }

  lemma FlagToggles(w: nat, f: nat)
    ensures Shr(Xor(w, Pow2(f)), f) % 2 == 1 <==> Shr(w, f) % 2 == 0
  {
    hide Xor, Pow2, Shr;
    XorParts(w, Pow2(f), f);
    OwnBit(f);
    XorBits(Shr(w, f), 1);
  }

  lemma {:induction false} OwnBit(f: nat)
    ensures Shr(Pow2(f), f) == 1
  {
    if f > 0 { OwnBit(f - 1); }
  }

  /** SetPageChecksum: flag, checksums of the other blocks, checksum of the first. */
  ghost function Sealed(ws: seq<nat>, k: nat, pgno: nat): (r: seq<nat>)
    requires Page(ws, k) && |ws| >= 512 && pgno < Pow2(32)
    ensures |r| == |ws|
  {
    hide BlockChecksum, HasNewFormat, Pow2, Stamped;
    FlaggedIs(ws);
    StampedPage(Flagged(ws), k, pgno);
    var p := Stamped(Flagged(ws), k, pgno);
    Stamp(p, 0, Computed(p, k, pgno)[0])
  }

  method SetPageChecksum(page: array<nat>, pgno: nat, ghost k: nat)
    requires Page(page[..], k) && page.Length >= 512 && pgno < Pow2(32)
    modifies page
    ensures page[..] == Sealed(old(page[..]), k, pgno)
  {
    hide BlockChecksum, HasNewFormat, Pow2, Stamped, AreDwords, Computed, Stamp, FlipAt, PageSize;
    ghost var ws := page[..];
    FlaggedIs(ws);
    StampedPage(Flagged(ws), k, pgno);
    if !HasNewFormat(page[..]) { FlipBit(page, 0, FORMAT_BIT); }
    assert page[..] == Flagged(ws);
    var sums := ComputePageChecksum(page, pgno, true, k);
    StampPage(page, 0, sums[0]);
  }

  /** The first two words do not count. */
  lemma DataSkips(blk: seq<nat>, other: seq<nat>, pgno: nat)
    requires |blk| == |other| >= 2 && blk[2..] == other[2..]
    ensures NewChecksum(blk, pgno, true) == NewChecksum(other, pgno, true)
  {
    assert Data(blk, true) == Data(other, true);
  }

  lemma StampedBlocks(ws: seq<nat>, k: nat, pgno: nat, b: nat)
    requires Page(ws, k) && |ws| >= 512 && HasNewFormat(ws) && b < BlockCount(|ws|)
    requires Page(Stamped(ws, k, pgno), k)
    ensures (b + 1) * Pow2(k) <= |ws| && Pow2(k) >= 512
    ensures b > 0 ==> BlockChecksum(Stamped(ws, k, pgno), b, k, pgno) == BlockChecksum(ws, b, k, pgno)
    ensures b > 0 ==> StoredAt(Stamped(ws, k, pgno), Slot(b)) == BlockChecksum(ws, b, k, pgno)
    ensures HasNewFormat(Stamped(ws, k, pgno))
  {
    hide NewChecksum, Pow2, AreDwords, Shr;
    BlockFits(|ws|, k, b);
    if |ws| > SMALL_WORDS {
      StampedNew(ws, k, pgno);
      StampedBlock(ws, k, pgno, if b > 0 then b else 1);
    } else {
      StampedOld(ws, k, pgno);
    }
  }

  /** Storing the page's own checksum changes nothing that is checksummed. */
  lemma FirstStored(ws: seq<nat>, sum: Checksum, k: nat, pgno: nat, b: nat)
    requires PageSize(|ws|, k) && b < BlockCount(|ws|)
    ensures |ws| >= 512 && (b + 1) * Pow2(k) <= |ws| && Pow2(k) >= 512
    ensures BlockChecksum(Stamp(ws, 0, sum), b, k, pgno) == BlockChecksum(ws, b, k, pgno)
    ensures StoredAt(Stamp(ws, 0, sum), 0) == sum
    ensures b > 0 ==> StoredAt(Stamp(ws, 0, sum), Slot(b)) == StoredAt(ws, Slot(b))
    ensures HasNewFormat(Stamp(ws, 0, sum)) == HasNewFormat(ws)
  {
    hide NewChecksum, Pow2, Shr, PageSize;
    BlockFits(|ws|, k, b);
    var t := Stamp(ws, 0, sum);
    if b == 0 {
      var x, y := Block(t, 0, Pow2(k)), Block(ws, 0, Pow2(k));
      assert x[2..] == y[2..];
      DataSkips(x, y, pgno);
    } else {
      MulMonotone(1, b, Pow2(k));
      assert Block(t, b, Pow2(k)) == Block(ws, b, Pow2(k));
    }
  }

  /** Whatever the page holds, after SetPageChecksum it is valid under its number. */
  lemma SealedIsValid(ws: seq<nat>, k: nat, pgno: nat)
    requires Page(ws, k) && |ws| >= 512 && pgno < Pow2(32)
    ensures ValidPage(Sealed(ws, k, pgno), k, pgno)
    ensures forall w :: 0 <= w < |ws| && !(w < 2 || w == 9 || (|ws| > 2048 && 10 <= w < 16)) ==> Sealed(ws, k, pgno)[w] == ws[w]
  {
    hide NewChecksum, BlockChecksum, Pow2, AreDwords, HasNewFormat, PageSize, Flagged;
    FlaggedIs(ws);
    var f := Flagged(ws);
    StampedPage(f, k, pgno);
    var p := Stamped(f, k, pgno);
    var sum := Computed(p, k, pgno)[0];
    StampedBlocks(f, k, pgno, 0);
    SumInRange(p, k, pgno);
    StampWords(p, 0, sum);
    var t := Stamp(p, 0, sum);
    FirstStored(p, sum, k, pgno, 0);
    forall b: nat | b < BlockCount(|ws|) ensures BlockIsValid(t, b, k, pgno) {
      StampedBlocks(f, k, pgno, b);
      FirstStored(p, sum, k, pgno, b);
      ComputedAt(p, k, pgno, b);
    }
  }

  lemma SumInRange(ws: seq<nat>, k: nat, pgno: nat)
    requires Page(ws, k) && |ws| >= 512 && HasNewFormat(ws) && pgno < Pow2(32)
    ensures Computed(ws, k, pgno)[0].ecc < Pow2(32) && Computed(ws, k, pgno)[0].xor < Pow2(32)
  {
    hide Computed, Pow2, AreDwords, HasNewFormat, PageSize;
    ComputedInRange(ws, k, pgno);
  }

  // ------------------------------------------------------------------ another number

  lemma OtherNumber(blk: seq<nat>, pgno: nat, other: nat, header: bool)
    requires |blk| >= 2
    ensures var a, b := NewChecksum(blk, pgno, header), NewChecksum(blk, other, header);
      a.ecc == b.ecc && (a.xor == b.xor <==> pgno == other) && Xor(Xor(b.xor, a.xor), other) == pgno
  {
    hide EccOf, XorAll, Xor, Data;
    var x := XorAll(Data(blk, header));
    XorPairs(x, other, x, pgno);
    XorEqual(x, x);
    XorNone(Xor(other, pgno));
    XorSwap(other, pgno);
    XorEqual(other, pgno);
    XorEqual(Xor(x, other), Xor(x, pgno));
    XorCancel(pgno, other);
  }

  /** What the checksums of block b say of a page that is valid under another number. */
  lemma BlockUnderOther(ws: seq<nat>, k: nat, pgno: nat, other: nat, b: nat)
    requires ValidPage(ws, k, pgno) && pgno != other && b < BlockCount(|ws|)
    ensures var e, a := ChecksumFromPage(ws)[b], Computed(ws, k, other)[b];
      e != a && e.ecc == a.ecc && Xor(Xor(a.xor, e.xor), other) == pgno
  {
    hide NewChecksum, Pow2, AreDwords, HasNewFormat, PageSize, Xor, ChecksumFromPage, Computed, Block;
    assert BlockIsValid(ws, b, k, pgno);
    ComputedAt(ws, k, other, b);
    BlockHasWords(ws, k, b);
    OtherNumber(Block(ws, b, Pow2(k)), pgno, other, b == 0);
  }

  lemma BlockHasWords(ws: seq<nat>, k: nat, b: nat)
    requires Page(ws, k) && b < BlockCount(|ws|)
    ensures (b + 1) * Pow2(k) <= |ws| && |Block(ws, b, Pow2(k))| == Pow2(k) >= 512
  {
    hide Pow2, PageSize, AreDwords;
    BlockFits(|ws|, k, b);
    BlockWords(ws, b, Pow2(k));
  }

  /** A page is valid under one number only. */
  lemma PageHasOneNumber(ws: seq<nat>, k: nat, pgno: nat, other: nat)
    requires ValidPage(ws, k, pgno) && ValidPage(ws, k, other)
    ensures pgno == other
  {
    hide NewChecksum, Pow2, AreDwords, HasNewFormat, PageSize, ChecksumFromPage, Computed;
    if pgno != other {
      BlockUnderOther(ws, k, pgno, other, 0);
      ValidChecks(ws, k, other);
    }
  }

  /** Equal codes with different exclusive ors are not those of a flipped bit. */
  lemma SameCodeIsFatal(cb: nat, reserved: nat, e: Checksum, a: Checksum)
    requires 8 * cb > 1 && e != a && e.ecc == a.ecc
    ensures cb > 0 && Judge(cb, reserved, e, a).Fatal?
  {
    hide Xor, BitsSet, IbitCorrupted, EccIsCorrectable;
    EqualCodes(cb, e.ecc);
  }

  lemma EqualCodes(cb: nat, ecc: nat)
    requires 8 * cb > 1
    ensures cb > 0 && !EccIsCorrectable(cb, ecc, ecc)
  {
    hide Xor;
    XorEqual(ecc, ecc);
    XorEqual(0, 0);
    NoRest(8 * cb);
  }

  lemma NoRest(m: nat)
    requires m > 0
    ensures 0 % m == 0
  {
  }

  /** A sound page read under another number is refused, never called correctable, and left alone, and the difference
      of the checksums names the number that it was written under. */
  lemma WrongNumberIsRefused(ws: seq<nat>, after: seq<nat>, k: nat, pgno: nat, other: nat, correct: bool,
                             expected: seq<Checksum>, actual: seq<Checksum>, correctable: bool, ibit: int, vs: seq<Verdict>)
    requires ValidPage(ws, k, pgno) && pgno != other
    requires Checked(ws, after, k, other, correct, expected, actual, correctable, ibit, vs)
    ensures expected != actual && !correctable && after == ws
    ensures |expected| == |actual| == 4 && expected[0].ecc == actual[0].ecc
    ensures Xor(Xor(actual[0].xor, expected[0].xor), other) == pgno
  {
    hide NewChecksum, Pow2, AreDwords, HasNewFormat, PageSize, ChecksumFromPage, Computed, Xor, Judge, Stamped, Repaired, FirstError;
    BlockUnderOther(ws, k, pgno, other, 0);
    BlockHasWords(ws, k, 0);
    SameCodeIsFatal(4 * Pow2(k), Reserved(0), ChecksumFromPage(ws)[0], Computed(ws, k, other)[0]);
    assert VerdictOf(|ws|, 4 * Pow2(k), ChecksumFromPage(ws), Computed(ws, k, other), 0).Fatal?;
  }

  // ------------------------------------------------------------------ another number and flipped bits

  /** A block of the damaged page either shows its flip or cannot be corrected, and is not taken for sound. */
  lemma TellsUnderOther(ws: seq<nat>, flips: seq<seq<nat>>, k: nat, pgno: nat, other: nat, b: nat)
    requires ValidPage(ws, k, pgno) && Damage(flips, |ws|, k) && AllSingle(flips) && pgno != other && b < |flips|
    ensures Page(DamagedPage(ws, flips, k), k) && |ws| >= 512
    ensures var e, a := ChecksumFromPage(ws)[b], Computed(DamagedPage(ws, flips, k), k, other)[b];
      e != a && (Judge(4 * Pow2(k), Reserved(b), e, a).Fatal? || Judge(4 * Pow2(k), Reserved(b), e, a) == Told(flips[b]))
  {
    hide Judge, ChecksumFromPage, Computed, FlipList, DamagedPage, NewChecksum, Block, Shr, Pow2, AreDwords, HasNewFormat, Xor;
    DamagedFacts(ws, flips, k, pgno, b);
    var w := DamagedPage(ws, flips, k);
    ComputedAt(w, k, other, b);
    var blk := Block(ws, b, Pow2(k));
    assert BlockIsValid(ws, b, k, pgno);
    var e, a := NewChecksum(blk, pgno, b == 0), NewChecksum(FlipList(blk, 0, flips[b]), other, b == 0);
    if flips[b] == [] {
      NoFlips(blk);
      OtherNumber(blk, pgno, other, b == 0);
      SameCodeIsFatal(4 * Pow2(k), Reserved(b), e, a);
    } else {
      FlipShown(ws, flips, k, b);
      OneFlipList(blk, flips[b][0]);
      BitsBelow(k);
      PageNumbers(|ws|, k);
      FlipUnderOther(blk, flips[b][0], k + 5, pgno, other, b == 0, Reserved(b));
    }
  }

  lemma NoFlips(blk: seq<nat>)
    ensures FlipList(blk, 0, []) == blk
  {
  }

  lemma FlipShown(ws: seq<nat>, flips: seq<seq<nat>>, k: nat, b: nat)
    requires PageSize(|ws|, k) && Damage(flips, |ws|, k) && AllSingle(flips) && b < |flips| && flips[b] != []
    ensures flips[b] == [flips[b][0]] && flips[b][0] < 32 * Pow2(k) && (b == 0 ==> flips[b][0] >= 64)
    ensures Told(flips[b]) == Correctable(flips[b][0])
  {
    assert FlipSet(flips[b], 32 * Pow2(k)) && |flips[b]| <= 1;
  }

  lemma FlipUnderOther(blk: seq<nat>, i: nat, k: nat, pgno: nat, other: nat, header: bool, reserved: nat)
    requires Sized(blk, k) && k >= 6 && |blk| >= 2 && i < 32 * |blk| && (header ==> i >= 64)
    ensures i / 32 < |blk|
    ensures var e, a := NewChecksum(blk, pgno, header), NewChecksum(FlipAt(blk, i), other, header);
      e != a && (Judge(4 * |blk|, reserved, e, a).Fatal? || Judge(4 * |blk|, reserved, e, a) == Correctable(i))
  {
    hide NewChecksum, FlipAt, Xor, Pow2, AreDwords, IsCorrectable, IbitCorrupted;
    ChecksumDelta(blk, i, k, other, header);
    OtherNumber(blk, pgno, other, header);
    var e, a := NewChecksum(blk, pgno, header), NewChecksum(FlipAt(blk, i), other, header);
    SizedBits(blk, k);
    TopBits(k);
    PositionRead(4 * |blk|, e.ecc, a.ecc, i);
  }

  lemma PositionRead(cb: nat, e: nat, a: nat, i: nat)
    requires i < 8 * cb <= 0x10000 && cb > 0 && Xor(a, e) == (8 * cb - 1 - i) * 0x10000 + i
    ensures e != a && IbitCorrupted(cb, e, a) == i
  {
    hide Xor;
    DeltaParts(8 * cb, i);
    XorEqual(a, e);
  }

  /** Nothing that single flips and their repair do makes the page pass under another number. */
  lemma FlipsDoNotHelp(ws: seq<nat>, flips: seq<seq<nat>>, after: seq<nat>, k: nat, pgno: nat, other: nat, correct: bool,
                       expected: seq<Checksum>, actual: seq<Checksum>, correctable: bool, ibit: int, vs: seq<Verdict>)
    requires ValidPage(ws, k, pgno) && Damage(flips, |ws|, k) && AllSingle(flips) && pgno != other && other < Pow2(32)
    requires Page(DamagedPage(ws, flips, k), k)
    requires Checked(DamagedPage(ws, flips, k), after, k, other, correct, expected, actual, correctable, ibit, vs)
    ensures expected != actual
    ensures correctable && correct ==> after == Stamped(ws, k, other)
  {
    hide NewChecksum, Pow2, AreDwords, HasNewFormat, PageSize, ChecksumFromPage, Computed, Judge, Stamped, Repaired, FirstError,
      DamagedPage, Told, HitsOther, FlipChecksum, BlockIsValid;
    var w := DamagedPage(ws, flips, k);
    DamagedFacts(ws, flips, k, pgno, 0);
    TellsUnderOther(ws, flips, k, pgno, other, 0);
    FirstIsStored(ws, flips, k, pgno);
    if correctable && correct {
      assert vs[0] == VerdictOf(|w|, 4 * Pow2(k), ChecksumFromPage(w), Computed(w, k, other), 0);
      forall b: nat | b < |vs| ensures vs[b] == Told(flips[b]) {
        RightVerdict(ws, flips, k, pgno, other, b);
        assert vs[b] == VerdictOf(|w|, 4 * Pow2(k), ChecksumFromPage(w), Computed(w, k, other), b);
      }
      SinglesAreUndone(ws, flips, k, pgno, vs);
      RepairedUnderOther(ws, k, pgno, other);
    }
  }

  /** A verdict that is not fatal names the flip. */
  lemma RightVerdict(ws: seq<nat>, flips: seq<seq<nat>>, k: nat, pgno: nat, other: nat, b: nat)
    requires ValidPage(ws, k, pgno) && Damage(flips, |ws|, k) && AllSingle(flips) && pgno != other && b < |flips|
    ensures Page(DamagedPage(ws, flips, k), k) && |ws| >= 512 && b < BlockCount(|ws|)
    ensures var w := DamagedPage(ws, flips, k);
      var v0 := VerdictOf(|w|, 4 * Pow2(k), ChecksumFromPage(w), Computed(w, k, other), 0);
      var v := VerdictOf(|w|, 4 * Pow2(k), ChecksumFromPage(w), Computed(w, k, other), b);
      v0.Fatal? || v.Fatal? || v == Told(flips[b])
  {
    hide NewChecksum, Pow2, AreDwords, HasNewFormat, PageSize, ChecksumFromPage, Computed, Judge, DamagedPage, Told, HitsOther,
      FlipChecksum, BlockIsValid;
    var w := DamagedPage(ws, flips, k);
    TellsUnderOther(ws, flips, k, pgno, other, 0);
    TellsUnderOther(ws, flips, k, pgno, other, b);
    FirstIsStored(ws, flips, k, pgno);
    AdjustedIsStored(ws, flips, k, pgno, Told(flips[0]));
    if b > 0 {
      assert ChecksumFromPage(ws)[b] == ChecksumFromPage(ws)[1..][b - 1];
      var adjusted := Adjusted(|ws|, 4 * Pow2(k), ChecksumFromPage(w), Computed(w, k, other));
      assert adjusted[b] == adjusted[1..][b - 1];
    }
  }

  /** The repaired page, stamped under the other number, does not agree with the checksums it had. */
  lemma RepairedUnderOther(ws: seq<nat>, k: nat, pgno: nat, other: nat)
    requires ValidPage(ws, k, pgno) && pgno != other && other < Pow2(32) && Page(Stamped(ws, k, other), k)
    ensures ChecksumFromPage(ws) != Computed(Stamped(ws, k, other), k, other)
  {
    hide NewChecksum, BlockChecksum, Pow2, AreDwords, HasNewFormat, PageSize, ChecksumFromPage, Computed, Stamped;
    var b: nat := if |ws| <= SMALL_WORDS then 0 else 1;
    BlockUnderOther(ws, k, pgno, other, b);
    if |ws| <= SMALL_WORDS {
      StampedOld(ws, k, other);
    } else {
      StampedBlocks(ws, k, other, b);
      ComputedAt(ws, k, other, b);
      ComputedAt(Stamped(ws, k, other), k, other, b);
    }
  }
}
