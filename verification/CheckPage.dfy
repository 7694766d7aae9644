/** ChecksumAndPossiblyFixPage (xsum.cxx:273-307) repairs every page with at most one flipped bit in each
    block, and refuses every page with two in some block. */
module CheckPage {
  import opened Powers
  import opened BitStrings
  import opened XorWords
  import opened Ecc
  import opened EccRows
  import opened BitFlips
  import opened BlockRepair
  import opened PageRepair
  import opened FixPage
  import opened PageDamage

  // ------------------------------------------------------------------ the stored checksums

  /** A single flip that hits a stored checksum, seen from the array of checksums. */
  lemma HitSlot(blk: seq<nat>, i: nat, b: nat)
    requires |blk| >= 512 && 1 <= b < 4 && 32 * OTHERS <= i < 32 * OTHERS_END && i / 32 < |blk|
    ensures var s := [StoredAt(FlipAt(blk, i), 0), StoredAt(FlipAt(blk, i), Slot(1)), StoredAt(FlipAt(blk, i), Slot(2)), StoredAt(FlipAt(blk, i), Slot(3))];
      (64 + (i - 32 * OTHERS)) / 64 < 4 && FlipChecksum(s, 64 + (i - 32 * OTHERS))[b] == StoredAt(blk, Slot(b))
  {
    hide Xor, Pow2;
    var w, c := i / 32, i % 32;
    var bit := 64 + (i - 32 * OTHERS);
    assert bit / 64 == 1 + (w - OTHERS) / 2 && (bit % 64 < 32 <==> w % 2 == 0) && bit % 32 == c;
    XorCancel(blk[w], Pow2(c));
  }

  lemma OneFlipList(blk: seq<nat>, i: nat)
    requires i / 32 < |blk|
    ensures FlipList(blk, 0, [i]) == FlipAt(blk, i)
  {
    assert [i][..0] == [];
  }

  /** The checksum a flip does not hit stays as it is. */
  lemma MissedSlot(blk: seq<nat>, list: seq<nat>, b: nat)
    requires |blk| >= 512 && b < 4 && forall j :: 0 <= j < |list| ==> 0 + list[j] / 32 < |blk| && list[j] >= 64
    requires b == 0 || forall j :: 0 <= j < |list| ==> !(32 * OTHERS <= list[j] < 32 * OTHERS_END)
    ensures StoredAt(FlipList(blk, 0, list), Slot(b)) == StoredAt(blk, Slot(b))
  {
    StoredKept(blk, list, Slot(b));
  }

  lemma Header(ws: seq<nat>, flips: seq<seq<nat>>, k: nat, pgno: nat) returns (blk: seq<nat>)
    requires ValidPage(ws, k, pgno) && Damage(flips, |ws|, k)
    ensures |blk| >= 512 && forall j :: 0 <= j < |flips[0]| ==> 0 + flips[0][j] / 32 < |blk|
    ensures var w := DamagedPage(ws, flips, k); var d := FlipList(blk, 0, flips[0]);
      |w| >= 512 && ChecksumFromPage(w)[0] == StoredAt(d, 0) && ChecksumFromPage(ws)[0] == StoredAt(blk, 0)
      && (|ws| > SMALL_WORDS ==> forall b :: 1 <= b < 4 ==>
            ChecksumFromPage(w)[b] == StoredAt(d, Slot(b)) && ChecksumFromPage(ws)[b] == StoredAt(blk, Slot(b)))
      && (|ws| <= SMALL_WORDS ==> forall b :: 1 <= b < 4 ==> ChecksumFromPage(w)[b] == ChecksumFromPage(ws)[b])
  {
    hide FlipList, BlockIsValid, StoredAt, Block, Pow2, DamagedPage;
    DamageFits(flips, |ws|, k);
    DamagedFacts(ws, flips, k, pgno, 0);
    StoredInHeader(ws, k);
    StoredInHeader(DamagedPage(ws, flips, k), k);
    blk := Block(ws, 0, Pow2(k));
  }

  /** With one flip at most in the header block, the adjusted checksums are those of the sound page. */
  lemma AdjustedIsStored(ws: seq<nat>, flips: seq<seq<nat>>, k: nat, pgno: nat, v: Verdict)
    requires ValidPage(ws, k, pgno) && Damage(flips, |ws|, k) && |flips[0]| <= 1 && v == Told(flips[0])
    ensures var e := ChecksumFromPage(DamagedPage(ws, flips, k));
      (if HitsOther(|ws|, v) then FlipChecksum(e, 64 + (v.ibit - 32 * OTHERS)) else e)[1..] == ChecksumFromPage(ws)[1..]
    ensures ChecksumFromPage(DamagedPage(ws, flips, k))[0] == ChecksumFromPage(ws)[0]
  {
    hide FlipList, FlipAt, BlockIsValid, StoredAt, FlipChecksum, DamagedPage;
    var blk := Header(ws, flips, k, pgno);
    MissedSlot(blk, flips[0], 0);
    var e, e' := ChecksumFromPage(ws), ChecksumFromPage(DamagedPage(ws, flips, k));
    if HitsOther(|ws|, v) {
      var i := v.ibit;
      assert flips[0] == [i];
      OneFlipList(blk, i);
      HitSlot(blk, i, 1);
      HitSlot(blk, i, 2);
      HitSlot(blk, i, 3);
    } else if |ws| > SMALL_WORDS {
      MissedSlot(blk, flips[0], 1);
      MissedSlot(blk, flips[0], 2);
      MissedSlot(blk, flips[0], 3);
    }
  }

  /** Two flips in the header block leave its stored checksum alone. */
  lemma FirstIsStored(ws: seq<nat>, flips: seq<seq<nat>>, k: nat, pgno: nat)
    requires ValidPage(ws, k, pgno) && Damage(flips, |ws|, k)
    ensures |DamagedPage(ws, flips, k)| >= 512
    ensures ChecksumFromPage(DamagedPage(ws, flips, k))[0] == ChecksumFromPage(ws)[0]
  {
    hide FlipList, BlockIsValid, StoredAt, DamagedPage;
    var blk := Header(ws, flips, k, pgno);
    MissedSlot(blk, flips[0], 0);
  }

  // ------------------------------------------------------------------ the verdicts

  /** What TryFixPage is given for a damaged page. */
  ghost function Verdict(ws: seq<nat>, k: nat, pgno: nat, b: nat): Verdict
    requires Page(ws, k) && |ws| >= 512 && b < BlockCount(|ws|)
  {
    VerdictOf(|ws|, 4 * Pow2(k), ChecksumFromPage(ws), Computed(ws, k, pgno), b)
  }

  lemma ComputedAt(ws: seq<nat>, k: nat, pgno: nat, b: nat)
    requires Page(ws, k) && |ws| >= 512 && HasNewFormat(ws) && b < BlockCount(|ws|)
    ensures (b + 1) * Pow2(k) <= |ws| && Pow2(k) >= 512
    ensures Computed(ws, k, pgno)[b] == BlockChecksum(ws, b, k, pgno)
  {
    hide BlockChecksum, AreDwords, HasNewFormat, Pow2, PageSize;
    BlockFits(|ws|, k, b);
  }

  /** Told by the sound block's checksum and the damaged block's. */
  lemma DamagedTells(ws: seq<nat>, flips: seq<seq<nat>>, k: nat, pgno: nat, b: nat)
    requires ValidPage(ws, k, pgno) && Damage(flips, |ws|, k) && b < |flips|
    ensures Page(DamagedPage(ws, flips, k), k) && |ws| >= 512
    ensures Judge(4 * Pow2(k), Reserved(b), ChecksumFromPage(ws)[b], Computed(DamagedPage(ws, flips, k), k, pgno)[b]) == Told(flips[b])
  {
    hide Judge, Told, ChecksumFromPage, Computed, FlipList, DamagedPage, NewChecksum, Block, Shr, Pow2, AreDwords, HasNewFormat;
    DamagedFacts(ws, flips, k, pgno, b);
    var w := DamagedPage(ws, flips, k);
    ComputedAt(w, k, pgno, b);
    var blk := Block(ws, b, Pow2(k));
    assert BlockIsValid(ws, b, k, pgno);
    assert FlipSet(flips[b], 32 * Pow2(k));
    BitsBelow(k);
    BlockTells(blk, flips[b], k + 5, pgno, b == 0, Reserved(b));
  }

  lemma BitsBelow(k: nat)
    requires k <= 11
    ensures 32 * Pow2(k) <= UL_MAX
  {
    Pow2Monotone(k, 11);
    Eleven(11);
  }

  lemma Eleven(n: nat)
    requires n == 11
    ensures Pow2(n) == 2048
  {
    Nine(9);
  }

  /** With one flip at most in the header block, every block tells of its own flips. */
  lemma VerdictTells(ws: seq<nat>, flips: seq<seq<nat>>, k: nat, pgno: nat, b: nat)
    requires ValidPage(ws, k, pgno) && Damage(flips, |ws|, k) && b < |flips| && (b == 0 || |flips[0]| <= 1)
    ensures Page(DamagedPage(ws, flips, k), k) && |ws| >= 512
    ensures Verdict(DamagedPage(ws, flips, k), k, pgno, b) == Told(flips[b])
  {
    hide Judge, Told, ChecksumFromPage, Computed, FlipList, DamagedPage, Pow2, AreDwords, HasNewFormat, BlockIsValid,
      FlipChecksum, HitsOther;
    DamagedTells(ws, flips, k, pgno, b);
    DamagedTells(ws, flips, k, pgno, 0);
    FirstIsStored(ws, flips, k, pgno);
    if b > 0 {
      AdjustedIsStored(ws, flips, k, pgno, Told(flips[0]));
      var w := DamagedPage(ws, flips, k);
      var adjusted := Adjusted(|ws|, 4 * Pow2(k), ChecksumFromPage(w), Computed(w, k, pgno));
      assert adjusted[1..] == ChecksumFromPage(ws)[1..];
      assert adjusted[b] == adjusted[1..][b - 1] && ChecksumFromPage(ws)[b] == ChecksumFromPage(ws)[1..][b - 1];
    }
  }

  ghost predicate AllSingle(flips: seq<seq<nat>>) { forall b :: 0 <= b < |flips| ==> |flips[b]| <= 1 }

  /** Single flips are all told, and undone by the repair. */
  lemma SinglesAreUndone(ws: seq<nat>, flips: seq<seq<nat>>, k: nat, pgno: nat, vs: seq<Verdict>)
    requires ValidPage(ws, k, pgno) && Damage(flips, |ws|, k) && AllSingle(flips)
    requires |vs| == |flips| && forall b :: 0 <= b < |vs| ==> vs[b] == Told(flips[b])
    ensures RepairFits(|ws|, vs, Pow2(k)) && Repaired(DamagedPage(ws, flips, k), vs, |vs|, Pow2(k)) == ws
  {
    hide Pow2, AreDwords, Damaged, Repaired, BlockIsValid;
    DamageFits(flips, |ws|, k);
    ToldFits(flips, |ws|, Pow2(k), vs);
    RepairIsDamage(DamagedPage(ws, flips, k), flips, vs, |vs|, Pow2(k));
    DamagedTwice(ws, flips, Pow2(k));
  }

  lemma ToldFits(flips: seq<seq<nat>>, n: nat, size: nat, vs: seq<Verdict>)
    requires InBlocks(flips, n, size) && AllSingle(flips)
    requires |vs| == |flips| && forall b :: 0 <= b < |vs| ==> vs[b] == Told(flips[b])
    ensures RepairFits(n, vs, size)
  {
    forall i | 0 <= i < |vs| && vs[i].Correctable? ensures vs[i].ibit < 32 * size { assert flips[i][0] < 32 * size; }
  }

  lemma {:induction false} RepairIsDamage(ws: seq<nat>, flips: seq<seq<nat>>, vs: seq<Verdict>, b: nat, size: nat)
    requires InBlocks(flips, |ws|, size) && AllSingle(flips) && RepairFits(|ws|, vs, size)
    requires |vs| == |flips| && (forall i :: 0 <= i < |vs| ==> vs[i] == Told(flips[i])) && b <= |vs|
    ensures Repaired(ws, vs, b, size) == Damaged(ws, flips, b, size)
    decreases b
  {
    if b == 0 {
    } else {
      hide *;
      var c: nat := b - 1;
      RepairIsDamage(ws, flips, vs, c, size);
      RepairStep(ws, flips, vs, c, size);
    }
  }

  lemma RepairStep(ws: seq<nat>, flips: seq<seq<nat>>, vs: seq<Verdict>, c: nat, size: nat)
    requires InBlocks(flips, |ws|, size) && AllSingle(flips) && RepairFits(|ws|, vs, size)
    requires |vs| == |flips| && c < |vs| && vs[c] == Told(flips[c])
    requires Repaired(ws, vs, c, size) == Damaged(ws, flips, c, size)
    ensures Repaired(ws, vs, c + 1, size) == Damaged(ws, flips, c + 1, size)
  {
    hide *;
    RepairNext(ws, vs, c, size);
    DamagedNext(ws, flips, c, size);
    OneOrNone(flips, vs, c);
    SingleList(Damaged(ws, flips, c, size), c * size, flips[c]);
  }

  lemma OneOrNone(flips: seq<seq<nat>>, vs: seq<Verdict>, b: nat)
    requires AllSingle(flips) && |vs| == |flips| && b < |vs| && vs[b] == Told(flips[b])
    ensures |flips[b]| <= 1 && vs[b] == if flips[b] == [] then NoError else Correctable(flips[b][0])
  {
  }

  lemma SingleList(ws: seq<nat>, start: nat, list: seq<nat>)
    requires |list| <= 1 && forall j :: 0 <= j < |list| ==> start + list[j] / 32 < |ws|
    ensures FlipList(ws, start, list) == if list == [] then ws else FlipAt(ws, 32 * start + list[0])
  {
    if list != [] { assert list[..0] == []; }
  }

  // ------------------------------------------------------------------ the checked page

  lemma PageInRange(ws: seq<nat>)
    requires AreDwords(ws) && |ws| >= 512
    ensures ChecksumsInRange(ChecksumFromPage(ws))
  {
    hide Pow2;
    Positive(32);
  }

  lemma ComputedInRange(ws: seq<nat>, k: nat, pgno: nat)
    requires Page(ws, k) && |ws| >= 512 && HasNewFormat(ws) && pgno < Pow2(32)
    ensures ChecksumsInRange(Computed(ws, k, pgno))
  {
    hide Pow2, BlockChecksum, AreDwords;
    Positive(32);
    ChecksumWords(ws, 0, k, pgno);
    if |ws| > SMALL_WORDS {
      ChecksumWords(ws, 1, k, pgno);
      ChecksumWords(ws, 2, k, pgno);
      ChecksumWords(ws, 3, k, pgno);
    }
  }

  /** The checksums of a valid page, and of its header rewritten. */
  lemma ValidChecks(ws: seq<nat>, k: nat, pgno: nat)
    requires ValidPage(ws, k, pgno)
    ensures Computed(ws, k, pgno) == ChecksumFromPage(ws) && Stamped(ws, k, pgno) == ws
  {
    hide BlockChecksum, AreDwords, Pow2, HasNewFormat;
    BlockFits(|ws|, k, 0);
    assert BlockIsValid(ws, 0, k, pgno);
    if |ws| > SMALL_WORDS {
      assert BlockIsValid(ws, 1, k, pgno) && BlockIsValid(ws, 2, k, pgno) && BlockIsValid(ws, 3, k, pgno);
    }
  }

  /** Some block has two flipped bits. */
  ghost predicate SomeDouble(flips: seq<seq<nat>>) { exists b :: 0 <= b < |flips| && |flips[b]| == 2 }

  lemma DoubleIsFatal(ws: seq<nat>, flips: seq<seq<nat>>, k: nat, pgno: nat) returns (b: nat)
    requires ValidPage(ws, k, pgno) && Damage(flips, |ws|, k) && SomeDouble(flips)
    ensures Page(DamagedPage(ws, flips, k), k) && |ws| >= 512 && b < BlockCount(|ws|)
    ensures Verdict(DamagedPage(ws, flips, k), k, pgno, b).Fatal?
    ensures ChecksumFromPage(DamagedPage(ws, flips, k)) != Computed(DamagedPage(ws, flips, k), k, pgno)
  {
    hide Computed, ChecksumFromPage, DamagedPage, BlockIsValid, Pow2, AreDwords, HasNewFormat, FlipChecksum;
    DamagedFacts(ws, flips, k, pgno, 0);
    if |flips[0]| == 2 {
      b := 0;
      VerdictTells(ws, flips, k, pgno, 0);
    } else {
      b :| 0 <= b < |flips| && |flips[b]| == 2;
      assert FlipSet(flips[0], 32 * Pow2(k));
      VerdictTells(ws, flips, k, pgno, b);
      VerdictTells(ws, flips, k, pgno, 0);
    }
  }

  /** A sound page needs no repair; with single flips it is not taken for sound. */
  lemma SinglesAreSeen(ws: seq<nat>, flips: seq<seq<nat>>, k: nat, pgno: nat)
    requires ValidPage(ws, k, pgno) && Damage(flips, |ws|, k) && AllSingle(flips)
    ensures Page(DamagedPage(ws, flips, k), k) && |ws| >= 512
    ensures (exists b :: 0 <= b < |flips| && flips[b] != []) ==>
              ChecksumFromPage(DamagedPage(ws, flips, k)) != Computed(DamagedPage(ws, flips, k), k, pgno)
    ensures (forall b :: 0 <= b < |flips| ==> flips[b] == []) ==> DamagedPage(ws, flips, k) == ws
  {
    hide Computed, ChecksumFromPage, BlockIsValid, Pow2, AreDwords, HasNewFormat, FlipChecksum, Damaged;
    DamagedFacts(ws, flips, k, pgno, 0);
    VerdictTells(ws, flips, k, pgno, 0);
    DamageFits(flips, |ws|, k);
    if forall b :: 0 <= b < |flips| ==> flips[b] == [] {
      NoDamage(ws, flips, |flips|, Pow2(k));
    } else if flips[0] == [] {
      var b :| 0 <= b < |flips| && flips[b] != [];
      VerdictTells(ws, flips, k, pgno, b);
    }
  }

  lemma {:induction false} NoDamage(ws: seq<nat>, flips: seq<seq<nat>>, b: nat, size: nat)
    requires InBlocks(flips, |ws|, size) && b <= |flips| && forall c :: 0 <= c < |flips| ==> flips[c] == []
    ensures Damaged(ws, flips, b, size) == ws
    decreases b
  {
    if b > 0 { NoDamage(ws, flips, b - 1, size); }
  }

  // ------------------------------------------------------------------ ChecksumAndPossiblyFixPage

  lemma VerdictsAreTold(ws: seq<nat>, flips: seq<seq<nat>>, k: nat, pgno: nat)
    requires ValidPage(ws, k, pgno) && Damage(flips, |ws|, k) && AllSingle(flips)
    ensures Page(DamagedPage(ws, flips, k), k) && |ws| >= 512 && |flips| == BlockCount(|ws|)
    ensures var w := DamagedPage(ws, flips, k);
      forall b: nat :: b < |flips| ==>
        VerdictOf(|w|, 4 * Pow2(k), ChecksumFromPage(w), Computed(w, k, pgno), b) == Told(flips[b])
  {
    hide Told, VerdictOf, DamagedPage, BlockIsValid, Pow2, HasNewFormat, ChecksumFromPage, Computed;
    DamagedFacts(ws, flips, k, pgno, 0);
    var w := DamagedPage(ws, flips, k);
    forall b: nat | b < |flips|
      ensures VerdictOf(|w|, 4 * Pow2(k), ChecksumFromPage(w), Computed(w, k, pgno), b) == Told(flips[b])
    {
      VerdictTells(ws, flips, k, pgno, b);
    }
  }

  /** The page and the results after a check. */
  ghost predicate Checked(before: seq<nat>, after: seq<nat>, k: nat, pgno: nat, correct: bool,
                          expected: seq<Checksum>, actual: seq<Checksum>, correctable: bool, ibit: int, vs: seq<Verdict>)
    requires Page(before, k) && |before| >= 512
  {
    var wrong := HasNewFormat(before) && ChecksumFromPage(before) != Computed(before, k, pgno);
    && (correctable <==> wrong && forall b: nat :: b < BlockCount(|before|) ==>
          !VerdictOf(|before|, 4 * Pow2(k), ChecksumFromPage(before), Computed(before, k, pgno), b).Fatal?)
    && (correctable ==> |vs| == BlockCount(|before|) && forall b: nat :: b < |vs| ==>
          vs[b] == VerdictOf(|before|, 4 * Pow2(k), ChecksumFromPage(before), Computed(before, k, pgno), b))
    && ibit == (if correctable then FirstError(vs, 4 * Pow2(k), 0) else -1)
    && RepairFits(|before|, vs, Pow2(k))
    && (!(correctable && correct) ==> after == before && expected == ChecksumFromPage(before) && actual == Computed(before, k, pgno))
    && (correctable && correct ==>
          var fixed := Repaired(before, vs, |vs|, Pow2(k));
          && Page(fixed, k) && after == Stamped(fixed, k, pgno) && Page(after, k)
          && expected == ChecksumFromPage(fixed) && actual == Computed(after, k, pgno))
  }

  lemma {:induction false} RepairedWords(ws: seq<nat>, vs: seq<Verdict>, b: nat, size: nat)
    requires RepairFits(|ws|, vs, size) && b <= |vs| && AreDwords(ws)
    ensures AreDwords(Repaired(ws, vs, b, size))
    decreases b
  {
    if b == 0 {
    } else {
      hide *;
      var c: nat := b - 1;
      RepairedWords(ws, vs, c, size);
      RepairNext(ws, vs, c, size);
      if vs[c].Correctable? {
        FlipIsList(Repaired(ws, vs, c, size), 32 * (c * size) + vs[c].ibit);
      }
    }
  }

  lemma FlipIsList(ws: seq<nat>, i: nat)
    requires AreDwords(ws) && i / 32 < |ws|
    ensures AreDwords(FlipAt(ws, i))
  {
    FlippedWords(ws, 0, [i]);
    OneFlipList(ws, i);
  }

  /** The check of any page; what it means for damaged pages is said by the two lemmas below. */
  method ChecksumAndPossiblyFixPage(page: array<nat>, pgno: nat, correct: bool, ghost k: nat)
    returns (expected: seq<Checksum>, actual: seq<Checksum>, correctable: bool, ibit: int, ghost vs: seq<Verdict>)
    requires Page(page[..], k) && page.Length >= 512 && pgno < Pow2(32)
    modifies page
    ensures Checked(old(page[..]), page[..], k, pgno, correct, expected, actual, correctable, ibit, vs)
  {
    hide Computed, Stamped, ChecksumFromPage, AreDwords, Pow2, HasNewFormat, ChecksumsInRange, Repaired, PageSize, VerdictOf;
    ghost var before := page[..];
    correctable, ibit, vs := false, -1, [];
    expected := ChecksumFromPage(page[..]);
    actual := ComputePageChecksum(page, pgno, false, k);
    NoVerdicts(page.Length, Pow2(k));
    if actual != expected && HasNewFormat(page[..]) {
      PageInRange(before);
      ComputedInRange(before, k, pgno);
      correctable, ibit, vs := TryFixPage(page, correct, expected, actual, k);
      if correct && correctable {
        RepairedWords(before, vs, |vs|, Pow2(k));
        expected := ChecksumFromPage(page[..]);
        actual := ComputePageChecksum(page, pgno, true, k);
      }
    }
  }

  lemma NoVerdicts(n: nat, size: nat)
    ensures RepairFits(n, [], size)
  {
  }

  /** At most one flipped bit in each block, even in another block's stored checksum: the page is restored
      bit for bit and then valid. */
  lemma SingleFlipsAreRepaired(ws: seq<nat>, flips: seq<seq<nat>>, after: seq<nat>, k: nat, pgno: nat,
                               expected: seq<Checksum>, actual: seq<Checksum>, correctable: bool, ibit: int, vs: seq<Verdict>)
    requires ValidPage(ws, k, pgno) && Damage(flips, |ws|, k) && AllSingle(flips)
    requires Page(DamagedPage(ws, flips, k), k)
    requires Checked(DamagedPage(ws, flips, k), after, k, pgno, true, expected, actual, correctable, ibit, vs)
    ensures after == ws && expected == actual == ChecksumFromPage(ws)
    ensures correctable <==> exists b :: 0 <= b < |flips| && flips[b] != []
  {
    hide Computed, Stamped, ChecksumFromPage, AreDwords, Pow2, BlockIsValid, Repaired, VerdictOf, Told, FirstError, DamagedPage;
    DamagedFacts(ws, flips, k, pgno, 0);
    VerdictsAreTold(ws, flips, k, pgno);
    SinglesAreSeen(ws, flips, k, pgno);
    ValidChecks(ws, k, pgno);
    forall b: nat | b < |flips| ensures !Told(flips[b]).Fatal? { SingleTold(flips, b); }
    if correctable {
      SinglesAreUndone(ws, flips, k, pgno, vs);
    }
  }

  /** The position reported for such a page is that of the first flip, counted from the beginning of the page. */
  lemma FirstFlipIsReported(ws: seq<nat>, flips: seq<seq<nat>>, after: seq<nat>, k: nat, pgno: nat, correct: bool,
                            expected: seq<Checksum>, actual: seq<Checksum>, correctable: bool, ibit: int, vs: seq<Verdict>, b: nat)
    requires ValidPage(ws, k, pgno) && Damage(flips, |ws|, k) && AllSingle(flips) && b < |flips| && flips[b] != []
    requires forall a :: 0 <= a < b ==> flips[a] == []
    requires Page(DamagedPage(ws, flips, k), k)
    requires Checked(DamagedPage(ws, flips, k), after, k, pgno, correct, expected, actual, correctable, ibit, vs)
    ensures correctable && ibit == 32 * Pow2(k) * b + flips[b][0]
  {
    hide Computed, Stamped, ChecksumFromPage, AreDwords, Pow2, BlockIsValid, Repaired, VerdictOf, Told, FirstError, DamagedPage;
    DamagedFacts(ws, flips, k, pgno, 0);
    VerdictsAreTold(ws, flips, k, pgno);
    SinglesAreSeen(ws, flips, k, pgno);
    forall b: nat | b < |flips| ensures !Told(flips[b]).Fatal? { SingleTold(flips, b); }
    FirstOfTold(flips, vs, 4 * Pow2(k), b, 0);
    EightTimes(Pow2(k), b);
  }

  lemma EightTimes(p: nat, b: nat)
    ensures 8 * (4 * p) * b == 32 * p * b
  {
  }

  lemma {:induction false} FirstOfTold(flips: seq<seq<nat>>, vs: seq<Verdict>, cb: nat, b: nat, from: nat)
    requires |vs| == |flips| && (forall a: nat :: a < |vs| ==> vs[a] == Told(flips[a]))
    requires AllSingle(flips) && from <= b < |flips| && flips[b] != [] && forall a :: 0 <= a < b ==> flips[a] == []
    ensures FirstError(vs, cb, from) == 8 * cb * b + flips[b][0]
    decreases b - from
  {
    if from < b { FirstOfTold(flips, vs, cb, b, from + 1); }
  }

  lemma SingleTold(flips: seq<seq<nat>>, b: nat)
    requires AllSingle(flips) && b < |flips|
    ensures !Told(flips[b]).Fatal?
  {
  }

  /** Two flipped bits in some block, outside the stored checksums: the page is refused and left alone. */
  lemma DoubleFlipsAreDetected(ws: seq<nat>, flips: seq<seq<nat>>, after: seq<nat>, k: nat, pgno: nat, correct: bool,
                               expected: seq<Checksum>, actual: seq<Checksum>, correctable: bool, ibit: int, vs: seq<Verdict>)
    requires ValidPage(ws, k, pgno) && Damage(flips, |ws|, k) && SomeDouble(flips)
    requires Page(DamagedPage(ws, flips, k), k)
    requires Checked(DamagedPage(ws, flips, k), after, k, pgno, correct, expected, actual, correctable, ibit, vs)
    ensures !correctable && expected != actual && after == DamagedPage(ws, flips, k)
  {
    hide Computed, Stamped, ChecksumFromPage, AreDwords, Pow2, BlockIsValid, Repaired, VerdictOf, FirstError, DamagedPage;
    DamagedFacts(ws, flips, k, pgno, 0);
    var b := DoubleIsFatal(ws, flips, k, pgno);
  }
}
