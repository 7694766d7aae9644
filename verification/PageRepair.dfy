/** ChecksumAndPossiblyFixPage (xsum.cxx:105-307): database pages of one block up to 8 KiB, of four blocks
    above. Words are little endian, so bit i of the page is bit i % 32 of word i / 32. */
module PageRepair {
  import opened Powers
  import opened BitStrings
  import opened XorWords
  import opened Ecc
  import opened EccRows
  import opened OldChecksum
  import opened BitFlips
  import opened BlockRepair

  const SMALL_WORDS: nat := 2048
  const FORMAT_BIT: nat := 9 * 32 + 13
  // the first and the word behind the last of the stored checksums of blocks 1 to 3
  const OTHERS: nat := 10
  const OTHERS_END: nat := 16

  /** The number of checksums of a page of n words: cxeChecksumPerPage for large pages. */
  function BlockCount(n: nat): nat { if n <= SMALL_WORDS then 1 else 4 }

  /** A page whose blocks hold 2^k words. */
  ghost predicate PageSize(n: nat, k: nat)
  {
    9 <= k <= 11 && (n == Pow2(k) || (n == 4 * Pow2(k) && k >= 10))
  }

  ghost predicate Page(ws: seq<nat>, k: nat) { AreDwords(ws) && PageSize(|ws|, k) }

  lemma PageNumbers(n: nat, k: nat)
    requires PageSize(n, k)
    ensures 512 <= Pow2(k) <= 2048 && n == BlockCount(n) * Pow2(k)
    ensures 32 * Pow2(k) == Pow2(k + 5) && BlockSize(Pow2(k), k)
  {
    Five(5);
    Pow2Add(k, 5);
    Nine(9);
    Pow2Add(k - 9, 9);
    Pow2Monotone(9, k);
    Pow2Monotone(k, 11);
    Pow2Add(9, 1);
    Pow2Add(9, 2);
  }

  lemma Five(n: nat)
    requires n == 5
    ensures Pow2(n) == 32
  {
    assert Pow2(5) == 32;
  }

  lemma Nine(n: nat)
    requires n == 9
    ensures Pow2(n) == 512 && Pow2(n + 1) == 1024 && Pow2(n + 2) == 2048
  {
    assert Pow2(4) == 16 && Pow2(5) == 32;
    Pow2Add(4, 5);
  }

  function Block(ws: seq<nat>, b: nat, size: nat): seq<nat>
    requires (b + 1) * size <= |ws|
  {
    assert b * size <= (b + 1) * size;
    ws[b * size..(b + 1) * size]
  }

  function StoredAt(ws: seq<nat>, w: nat): Checksum
    requires w + 1 < |ws|
  {
    Checksum(ws[w + 1], ws[w])
  }

  /** Where the checksum of block b is stored. */
  function Slot(b: nat): nat { if b == 0 then 0 else OTHERS + 2 * (b - 1) }

  /** LongChecksumFromPage: unused checksums are 0. */
  function ChecksumFromPage(ws: seq<nat>): (s: seq<Checksum>)
    requires |ws| >= 512
    ensures |s| == 4
  {
    if |ws| <= SMALL_WORDS then [StoredAt(ws, 0), Checksum(0, 0), Checksum(0, 0), Checksum(0, 0)]
    else [StoredAt(ws, 0), StoredAt(ws, Slot(1)), StoredAt(ws, Slot(2)), StoredAt(ws, Slot(3))]
  }

  function HasNewFormat(ws: seq<nat>): bool
    requires |ws| >= 512
  {
    Shr(ws[FORMAT_BIT / 32], FORMAT_BIT % 32) % 2 == 1
  }

  /** The checksum of block b as computed. */
  ghost function BlockChecksum(ws: seq<nat>, b: nat, k: nat, pgno: nat): Checksum
    requires (b + 1) * Pow2(k) <= |ws| && Pow2(k) >= 2
  {
    NewChecksum(Block(ws, b, Pow2(k)), pgno, b == 0)
  }

  lemma BlockFits(n: nat, k: nat, b: nat)
    requires PageSize(n, k) && b < BlockCount(n)
    ensures (b + 1) * Pow2(k) <= n && Pow2(k) >= 512 && n >= 512
  {
    PageNumbers(n, k);
    MulMonotone(b + 1, BlockCount(n), Pow2(k));
  }

  /** A page that its checksums protect. */
  ghost predicate ValidPage(ws: seq<nat>, k: nat, pgno: nat)
  {
    && Page(ws, k) && |ws| >= 512 && HasNewFormat(ws)
    && forall b: nat :: b < BlockCount(|ws|) ==> BlockIsValid(ws, b, k, pgno)
  }

  ghost predicate BlockIsValid(ws: seq<nat>, b: nat, k: nat, pgno: nat)
  {
    && b < 4 && (b + 1) * Pow2(k) <= |ws| && Pow2(k) >= 2 && |ws| >= 512
    && ChecksumFromPage(ws)[b] == BlockChecksum(ws, b, k, pgno)
  }

  /** FlipBit. */
  method FlipBit(page: array<nat>, start: nat, ibit: nat)
    requires start + ibit / 32 < page.Length
    modifies page
    ensures page[..] == FlipAt(old(page[..]), 32 * start + ibit)
  {
    page[start + ibit / 32] := Xor(page[start + ibit / 32], Pow2(ibit % 32));
  }

  // ------------------------------------------------------------------ computing

  /** The checksums of a page: of each block in the new format, of the page in the old one. */
  ghost function Computed(ws: seq<nat>, k: nat, pgno: nat): (s: seq<Checksum>)
    requires Page(ws, k)
    ensures |s| == 4
  {
    hide BlockChecksums, BlockChecksum, HasNewFormat, OldFormat, AreDwords, Pow2;
    var none := Checksum(0, 0);
    PageNumbers(|ws|, k);
    if !HasNewFormat(ws) then [Checksum(pgno, OldFormat(ws)), none, none, none]
    else if |ws| <= SMALL_WORDS then [BlockChecksum(ws, 0, k, pgno), none, none, none]
    else BlockChecksums(ws, k, pgno)
  }

  /** The checksums of the four blocks of a large page. */
  ghost function BlockChecksums(ws: seq<nat>, k: nat, pgno: nat): (s: seq<Checksum>)
    requires 4 * Pow2(k) <= |ws| && Pow2(k) >= 2
    ensures |s| == 4
  {
    hide *;
    [BlockChecksum(ws, 0, k, pgno), BlockChecksum(ws, 1, k, pgno), BlockChecksum(ws, 2, k, pgno), BlockChecksum(ws, 3, k, pgno)]
  }

  function Stamp(ws: seq<nat>, b: nat, sum: Checksum): (r: seq<nat>)
    requires b < 4 && |ws| >= 512
    ensures |r| == |ws|
  {
    ws[Slot(b) := sum.xor][Slot(b) + 1 := sum.ecc]
  }

  /** A large page with the checksums of blocks 1 to 3 stored in its header. */
  ghost function Stamped(ws: seq<nat>, k: nat, pgno: nat): (r: seq<nat>)
    requires Page(ws, k) && |ws| >= 512
    ensures |r| == |ws|
  {
    hide BlockChecksum, Stamp, HasNewFormat, AreDwords, Pow2;
    if !HasNewFormat(ws) || |ws| <= SMALL_WORDS then ws
    else
      BlockFits(|ws|, k, 3);
      Stamp(Stamp(Stamp(ws, 1, BlockChecksum(ws, 1, k, pgno)), 2, BlockChecksum(ws, 2, k, pgno)), 3, BlockChecksum(ws, 3, k, pgno))
  }

  lemma BlockWords(ws: seq<nat>, b: nat, size: nat)
    requires (b + 1) * size <= |ws| && AreDwords(ws)
    ensures |Block(ws, b, size)| == size && AreDwords(Block(ws, b, size))
  {
    assert (b + 1) * size == b * size + size;
  }

  method ComputeBlock(page: array<nat>, b: nat, size: nat, pgno: nat, ghost k: nat) returns (sum: Checksum)
    requires AreDwords(page[..]) && size == Pow2(k) && BlockSize(size, k) && (b + 1) * size <= page.Length && size >= 2
    ensures sum == BlockChecksum(page[..], b, k, pgno)
  {
    hide NewChecksum, AreDwords, Pow2, BlockSize;
    BlockWords(page[..], b, size);
    assert b * size <= (b + 1) * size;
    assert page[..][b * size..(b + 1) * size] == page[b * size..(b + 1) * size];
    sum := ChecksumNewFormat64Bit(page[b * size..(b + 1) * size], pgno, b == 0, k);
  }

  lemma {:induction false} EccBound(ws: seq<nat>, k: nat)
    requires Sized(ws, k)
    ensures EccOf(ws) < Pow2(32)
  {
    hide Fold;
    FoldsFit(ws, k);
    Pow2Of32();
    EccIs(ws);
  }

  lemma ChecksumWords(ws: seq<nat>, b: nat, k: nat, pgno: nat)
    requires Page(ws, k) && b < BlockCount(|ws|) && pgno < Pow2(32)
    ensures (b + 1) * Pow2(k) <= |ws| && Pow2(k) >= 2
    ensures BlockChecksum(ws, b, k, pgno).ecc < Pow2(32) && BlockChecksum(ws, b, k, pgno).xor < Pow2(32)
  {
    hide AreDwords, NewChecksum, Block, Pow2;
    BlockFits(|ws|, k, b);
    PageNumbers(|ws|, k);
    BlockWords(ws, b, Pow2(k));
    SumBound(Block(ws, b, Pow2(k)), b == 0, k + 5, pgno);
  }

  lemma SumBound(blk: seq<nat>, header: bool, k: nat, pgno: nat)
    requires |blk| >= 2 && Sized(blk, k) && pgno < Pow2(32)
    ensures NewChecksum(blk, pgno, header).ecc < Pow2(32) && NewChecksum(blk, pgno, header).xor < Pow2(32)
  {
    hide EccOf, XorAll, Xor, AreDwords, Pow2;
    var data := Data(blk, header);
    DataWords(blk, header);
    EccBound(data, k);
    XorAllBound(data);
    XorBound(XorAll(data), pgno, 32);
  }

  lemma StampWords(ws: seq<nat>, b: nat, sum: Checksum)
    requires AreDwords(ws) && |ws| >= 512 && b < 4 && sum.ecc < Pow2(32) && sum.xor < Pow2(32)
    ensures AreDwords(Stamp(ws, b, sum))
  {
  }

  method StampPage(page: array<nat>, b: nat, sum: Checksum)
    requires page.Length >= 512 && b < 4
    modifies page
    ensures page[..] == Stamp(old(page[..]), b, sum)
  {
    page[Slot(b)] := sum.xor;
    page[Slot(b) + 1] := sum.ecc;
  }

  lemma StampedPage(ws: seq<nat>, k: nat, pgno: nat)
    requires Page(ws, k) && |ws| >= 512 && pgno < Pow2(32)
    ensures Page(Stamped(ws, k, pgno), k)
  {
    hide BlockChecksum, PageSize, Stamp, AreDwords, HasNewFormat;
    if HasNewFormat(ws) && |ws| > SMALL_WORDS {
      ChecksumWords(ws, 1, k, pgno);
      ChecksumWords(ws, 2, k, pgno);
      ChecksumWords(ws, 3, k, pgno);
      StampWords(ws, 1, BlockChecksum(ws, 1, k, pgno));
      StampWords(Stamp(ws, 1, BlockChecksum(ws, 1, k, pgno)), 2, BlockChecksum(ws, 2, k, pgno));
      StampWords(Stamp(Stamp(ws, 1, BlockChecksum(ws, 1, k, pgno)), 2, BlockChecksum(ws, 2, k, pgno)), 3, BlockChecksum(ws, 3, k, pgno));
    }
  }

  /** The stored checksums are in block 0. */
  lemma StampedBlock(ws: seq<nat>, k: nat, pgno: nat, b: nat)
    requires Page(ws, k) && |ws| >= 512 && |ws| > SMALL_WORDS && 1 <= b < 4
    ensures (b + 1) * Pow2(k) <= |ws| && Pow2(k) >= 512
    ensures Block(Stamped(ws, k, pgno), b, Pow2(k)) == Block(ws, b, Pow2(k))
    ensures HasNewFormat(Stamped(ws, k, pgno)) == HasNewFormat(ws)
  {
    hide BlockChecksum, AreDwords, Pow2, Shr;
    BlockFits(|ws|, k, b);
    MulMonotone(1, b, Pow2(k));
    assert b * Pow2(k) >= 512 > OTHERS_END;
    assert b * Pow2(k) <= (b + 1) * Pow2(k);
    StampsOutside(ws, k, pgno, b * Pow2(k), (b + 1) * Pow2(k));
    StampsOutside(ws, k, pgno, 9, 10);
    assert ws[9..10][0] == Stamped(ws, k, pgno)[9..10][0];
  }

  lemma StampsOutside(ws: seq<nat>, k: nat, pgno: nat, from: nat, to: nat)
    requires Page(ws, k) && |ws| >= 512 && from <= to <= |ws| && (to <= OTHERS || from >= OTHERS_END)
    ensures Stamped(ws, k, pgno)[from..to] == ws[from..to]
  {
    hide BlockChecksum, AreDwords, HasNewFormat, PageSize;
  }

  /** ComputePageChecksum. */
  method ComputePageChecksum(page: array<nat>, pgno: nat, fNew: bool, ghost k: nat) returns (sums: seq<Checksum>)
    requires Page(page[..], k) && pgno < Pow2(32)
    modifies page
    ensures page[..] == if fNew then Stamped(old(page[..]), k, pgno) else old(page[..])
    ensures Page(page[..], k) && sums == Computed(page[..], k, pgno)
  {
    hide Stamp, NewChecksum, AreDwords, Pow2, BlockSize, HasNewFormat, OldFormat, Block, Stamped;
    PageNumbers(page.Length, k);
    WholeLines(page.Length, k);
    ghost var ws := page[..];
    var none := Checksum(0, 0);
    if !HasNewFormat(page[..]) {
      var old_sum := ChecksumOldFormatSlowly(page[..]);
      StampedOld(ws, k, pgno);
      return [Checksum(pgno, old_sum), none, none, none];
    }
    PageNumbers(|ws|, k);
    var size := page.Length;
    if page.Length > SMALL_WORDS { size := page.Length / 4; }
    assert size == Pow2(k);
    if page.Length <= SMALL_WORDS {
      StampedOld(ws, k, pgno);
      BlockFits(|ws|, k, 0);
      var sum := ComputeBlock(page, 0, size, pgno, k);
      return [sum, none, none, none];
    }
    BlockFits(|ws|, k, 3);
    BlockFits(|ws|, k, 2);
    BlockFits(|ws|, k, 1);
    BlockFits(|ws|, k, 0);
    var sum1 := ComputeBlock(page, 1, size, pgno, k);
    var sum2 := ComputeBlock(page, 2, size, pgno, k);
    var sum3 := ComputeBlock(page, 3, size, pgno, k);
    if fNew {
      StampPage(page, 1, sum1);
      StampPage(page, 2, sum2);
      StampPage(page, 3, sum3);
      StampedNew(ws, k, pgno);
      StampedPage(ws, k, pgno);
      StampedBlock(ws, k, pgno, 1);
      StampedBlock(ws, k, pgno, 2);
      StampedBlock(ws, k, pgno, 3);
    }
    var sum0 := ComputeBlock(page, 0, size, pgno, k);
    sums := [sum0, sum1, sum2, sum3];
  }

  lemma WholeLines(n: nat, k: nat)
    requires PageSize(n, k)
    ensures n >= 512 && n % 8 == 0
  {
    PageNumbers(n, k);
    Pow2Add(k - 3, 3);
    assert Pow2(3) == 8;
  }

  lemma StampedOld(ws: seq<nat>, k: nat, pgno: nat)
    requires Page(ws, k) && |ws| >= 512 && (!HasNewFormat(ws) || |ws| <= SMALL_WORDS)
    ensures Stamped(ws, k, pgno) == ws
  {
  }

  lemma StampedNew(ws: seq<nat>, k: nat, pgno: nat)
    requires Page(ws, k) && |ws| >= 512 && HasNewFormat(ws) && |ws| > SMALL_WORDS
    ensures 4 * Pow2(k) <= |ws| && Pow2(k) >= 2
    ensures Stamped(ws, k, pgno)
            == Stamp(Stamp(Stamp(ws, 1, BlockChecksum(ws, 1, k, pgno)), 2, BlockChecksum(ws, 2, k, pgno)), 3, BlockChecksum(ws, 3, k, pgno))
  {
    BlockFits(|ws|, k, 3);
  }
}
