/** Pages with the checksum of the old format (checksum.cxx:165-241; _esefile/xsum.cxx:50-156, 273-307), and both checksums
    of blocks with few bits, in numbers. */
module OldPages {
  import opened Powers
  import opened BitStrings
  import opened XorWords
  import opened Ecc
  import opened EccRows
  import opened OldChecksum
  import opened BitFlips
  import opened PageRepair
  import opened FixPage
  import opened BlockRepair
  import opened PageDamage
  import opened CheckPage
  import opened PageNumber

  // ------------------------------------------------------------------ blocks with few bits

  function Zeros(n: nat): (ws: seq<nat>)
    ensures |ws| == n
  {
    seq(n, _ => 0)
  }

  lemma {:induction false} NoBits(n: nat, f: nat -> nat)
    ensures Fold(Zeros(n), f) == 0 && XorAll(Zeros(n)) == 0
  {
    if n > 0 {
      NoBits(n - 1, f);
      assert Zeros(n)[..n - 1] == Zeros(n - 1);
      NoRow(32 * (n - 1), f);
      XorNone(0);
    }
  }

  /** A block without bits. */
  lemma EmptyBlock(n: nat, pgno: nat, header: bool)
    requires n >= 2
    ensures NewChecksum(Zeros(n), pgno, header) == Checksum(0, pgno) && OldFormat(Zeros(n)) == 0x89ab_cdef
  {
    hide Fold, XorAll, Xor;
    assert Data(Zeros(n), header) == Zeros(n);
    NoBits(n, Complement(32 * n - 1));
    NoBits(n, Position());
    NoBits(n - 1, Position());
    assert Zeros(n)[1..] == Zeros(n - 1);
    XorNone(pgno);
    XorNone(SEED);
  }

  /** A block of 2^k bits of which only one is set: the code is its position below the complement of that. */
  lemma OneBitBlock(n: nat, i: nat, k: nat, pgno: nat, header: bool)
    requires n >= 2 && 5 <= k <= 16 && 32 * n == Pow2(k) && i < 32 * n && (header ==> i >= 64)
    ensures var sum := NewChecksum(Zeros(n)[i / 32 := Pow2(i % 32)], pgno, header);
      sum.ecc == (32 * n - 1 - i) * 65536 + i && sum.xor == Xor(Pow2(i % 32), pgno)
  {
    hide Xor, Pow2, NewChecksum;
    Positive(32);
    XorNone(Pow2(i % 32));
    EmptyBlock(n, pgno, header);
    assert FlipAt(Zeros(n), i) == Zeros(n)[i / 32 := Pow2(i % 32)];
    assert Sized(Zeros(n), k);
    ChecksumDelta(Zeros(n), i, k, pgno, header);
    var sum := NewChecksum(FlipAt(Zeros(n), i), pgno, header);
    XorNone(sum.ecc);
    XorCancel(sum.xor, pgno);
  }

  // ------------------------------------------------------------------ pages of the old format

  /** What a page of the old format must hold in its header: its number and its checksum, and nothing where a large page
      of the new format has the checksums of its other blocks. */
  ghost predicate OldValid(ws: seq<nat>, pgno: nat)
    requires |ws| >= 512
  {
    ws[0] == OldFormat(ws) && ws[1] == pgno && (|ws| > 2048 ==> forall w :: 10 <= w < 16 ==> ws[w] == 0)
  }

  /** A page of the old format passes if and only if its header is right; it is never repaired. */
  lemma OldPageIsChecked(ws: seq<nat>, after: seq<nat>, k: nat, pgno: nat, correct: bool,
                         expected: seq<Checksum>, actual: seq<Checksum>, correctable: bool, ibit: int, vs: seq<Verdict>)
    requires Page(ws, k) && |ws| >= 512 && ws[9] / 0x2000 % 2 == 0
    requires Checked(ws, after, k, pgno, correct, expected, actual, correctable, ibit, vs)
    ensures after == ws && !correctable && (expected == actual <==> OldValid(ws, pgno))
  {
    hide OldFormat, AreDwords, PageSize, Shr, Pow2, Repaired, VerdictOf, FirstError, Stamped;
    FlagMask(ws[9], 13);
    SumsOfOld(ws, k, pgno);
  }

  lemma SumsOfOld(ws: seq<nat>, k: nat, pgno: nat)
    requires Page(ws, k) && |ws| >= 512 && !HasNewFormat(ws)
    ensures ChecksumFromPage(ws) == Computed(ws, k, pgno) <==> OldValid(ws, pgno)
  {
    hide OldFormat, AreDwords, PageSize, Shr, Pow2;
    var none := Checksum(0, 0);
    assert Computed(ws, k, pgno) == [Checksum(pgno, OldFormat(ws)), none, none, none];
    if |ws| > SMALL_WORDS {
      assert ChecksumFromPage(ws)[1] == Checksum(ws[11], ws[10]);
      assert ChecksumFromPage(ws)[2] == Checksum(ws[13], ws[12]);
      assert ChecksumFromPage(ws)[3] == Checksum(ws[15], ws[14]);
    }
  }

  /** A changed word changes the checksum by the same difference. */
  lemma {:induction false} AllChanged(ws: seq<nat>, w: nat, v: nat)
    requires w < |ws|
    ensures XorAll(ws[w := v]) == Xor(XorAll(ws), Xor(ws[w], v))
    decreases |ws|
  {
    hide Xor;
    var n := |ws| - 1;
    var changed := ws[w := v];
    if w == n {
      assert changed[..n] == ws[..n];
      XorAssoc(XorAll(ws[..n]), ws[n], Xor(ws[n], v));
      XorCancel(ws[n], v);
    } else {
      AllChanged(ws[..n], w, v);
      assert changed[..n] == ws[..n][w := v];
      Reorder(XorAll(ws[..n]), Xor(ws[w], v), ws[n]);
    }
  }

  lemma OldFormatChanged(ws: seq<nat>, w: nat, v: nat)
    requires 0 < w < |ws|
    ensures OldFormat(ws[w := v]) == Xor(OldFormat(ws), Xor(ws[w], v))
  {
    hide Xor, XorAll;
    assert ws[w := v][1..] == ws[1..][w - 1 := v];
    AllChanged(ws[1..], w - 1, v);
    XorAssoc(SEED, XorAll(ws[1..]), Xor(ws[w], v));
  }

  /** Any change inside one word, be it of the data, the number or the checksum, is reported and left alone, as long as it
      does not set the flag of the new format. */
  lemma ChangedWordIsDetected(ws: seq<nat>, w: nat, v: nat, after: seq<nat>, k: nat, pgno: nat, correct: bool,
                              expected: seq<Checksum>, actual: seq<Checksum>, correctable: bool, ibit: int, vs: seq<Verdict>)
    requires |ws| >= 512 && OldValid(ws, pgno) && w < |ws| && v != ws[w]
    requires Page(ws[w := v], k) && ws[w := v][9] / 0x2000 % 2 == 0
    requires Checked(ws[w := v], after, k, pgno, correct, expected, actual, correctable, ibit, vs)
    ensures expected != actual && !correctable && after == ws[w := v]
  {
    hide OldFormat, AreDwords, PageSize, Xor, Checked, OldValid;
    OldPageIsChecked(ws[w := v], after, k, pgno, correct, expected, actual, correctable, ibit, vs);
    ChangedIsWrong(ws, w, v, pgno);
  }

  lemma ChangedIsWrong(ws: seq<nat>, w: nat, v: nat, pgno: nat)
    requires |ws| >= 512 && OldValid(ws, pgno) && w < |ws| && v != ws[w]
    ensures !OldValid(ws[w := v], pgno)
  {
    hide OldFormat, Xor;
    if w == 0 {
      FirstWordFree(ws, v);
    } else {
      OldFormatChanged(ws, w, v);
      XorEqual(ws[w], v);
      XorCancel(OldFormat(ws), Xor(ws[w], v));
      XorEqual(OldFormat(ws), OldFormat(ws));
    }
  }

  lemma FirstWordFree(ws: seq<nat>, v: nat)
    requires ws != []
    ensures OldFormat(ws[0 := v]) == OldFormat(ws)
  {
    assert ws[0 := v][1..] == ws[1..];
  }
}
