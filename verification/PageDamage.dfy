/** Flipped bits in the blocks of a page, and what the checksums then say. */
module PageDamage {
  import opened Powers
  import opened BitStrings
  import opened XorWords
  import opened Ecc
  import opened EccRows
  import opened BitFlips
  import opened BlockRepair
  import opened PageRepair
  import opened FixPage

  /** At most two different bits of a block. */
  ghost predicate FlipSet(list: seq<nat>, bits: nat)
  {
    && |list| <= 2 && (forall j :: 0 <= j < |list| ==> list[j] < bits)
    && (|list| == 2 ==> list[0] != list[1])
  }

  /** The bits of the header block that may be hit: none of the page's own checksum, not the format flag,
      and of the other stored checksums one at most. */
  ghost predicate HeaderFlips(list: seq<nat>, n: nat)
  {
    && (forall j :: 0 <= j < |list| ==> list[j] >= 64 && list[j] != FORMAT_BIT)
    && (|list| == 2 && n > SMALL_WORDS ==> forall j :: 0 <= j < |list| ==> !(32 * OTHERS <= list[j] < 32 * OTHERS_END))
  }

  ghost predicate Damage(flips: seq<seq<nat>>, n: nat, k: nat)
  {
    && |flips| == BlockCount(n) && HeaderFlips(flips[0], n)
    && forall b :: 0 <= b < |flips| ==> FlipSet(flips[b], 32 * Pow2(k))
  }

  /** All flips of a list made in the block that starts at a word. */
  ghost function FlipList(ws: seq<nat>, start: nat, list: seq<nat>): (r: seq<nat>)
    requires forall j :: 0 <= j < |list| ==> start + list[j] / 32 < |ws|
    ensures |r| == |ws|
  {
    if list == [] then ws
    else FlipAt(FlipList(ws, start, list[..|list| - 1]), 32 * start + list[|list| - 1])
  }

  ghost predicate InBlocks(flips: seq<seq<nat>>, n: nat, size: nat)
  {
    |flips| * size <= n && forall b, j :: 0 <= b < |flips| && 0 <= j < |flips[b]| ==> flips[b][j] < 32 * size
  }

  lemma ListFits(flips: seq<seq<nat>>, n: nat, size: nat, b: nat)
    requires InBlocks(flips, n, size) && b < |flips|
    ensures (b + 1) * size <= n && b * size + size == (b + 1) * size
    ensures forall j :: 0 <= j < |flips[b]| ==> b * size + flips[b][j] / 32 < (b + 1) * size
  {
    forall j | 0 <= j < |flips[b]| ensures b * size + flips[b][j] / 32 < (b + 1) * size {
      BitInside(b, size, flips[b][j], |flips|);
    }
    MulMonotone(b + 1, |flips|, size);
    assert (b + 1) * size == b * size + size;
  }

  ghost function Damaged(ws: seq<nat>, flips: seq<seq<nat>>, b: nat, size: nat): (r: seq<nat>)
    requires InBlocks(flips, |ws|, size) && b <= |flips|
    ensures |r| == |ws|
  {
    if b == 0 then ws
    else
      ListFits(flips, |ws|, size, b - 1);
      FlipList(Damaged(ws, flips, b - 1, size), (b - 1) * size, flips[b - 1])
  }

  // ------------------------------------------------------------------ block by block

  lemma FlipWindow(ws: seq<nat>, start: nat, i: nat, from: nat, size: nat)
    requires from + size <= |ws| && start + size <= |ws| && i / 32 < size
    requires start == from || start + size <= from || from + size <= start
    ensures (32 * start + i) / 32 == start + i / 32
    ensures FlipAt(ws, 32 * start + i)[from..from + size]
            == if start == from then FlipAt(ws[from..from + size], i) else ws[from..from + size]
  {
    hide Xor, Pow2;
    assert (32 * start + i) / 32 == start + i / 32 && (32 * start + i) % 32 == i % 32;
  }

  lemma {:induction false} FlipListBlock(ws: seq<nat>, start: nat, list: seq<nat>, from: nat, size: nat)
    requires from + size <= |ws| && start + size <= |ws| && (start == from || start + size <= from || from + size <= start)
    requires forall j :: 0 <= j < |list| ==> list[j] / 32 < size
    ensures FlipList(ws, start, list)[from..from + size]
            == if start == from then FlipList(ws[from..from + size], 0, list) else ws[from..from + size]
  {
    hide FlipAt;
    if list != [] {
      FlipListBlock(ws, start, list[..|list| - 1], from, size);
      FlipWindow(FlipList(ws, start, list[..|list| - 1]), start, list[|list| - 1], from, size);
    }
  }

  lemma Apart(a: nat, b: nat, size: nat)
    ensures a < b ==> a * size + size <= b * size
    ensures a > b ==> b * size + size <= a * size
    ensures (a + 1) * size == a * size + size
  {
    if a < b { MulMonotone(a + 1, b, size); }
    if a > b { MulMonotone(b + 1, a, size); assert (b + 1) * size == b * size + size; }
  }

  lemma DamagedNext(ws: seq<nat>, flips: seq<seq<nat>>, c: nat, size: nat)
    requires InBlocks(flips, |ws|, size) && c < |flips|
    ensures forall j :: 0 <= j < |flips[c]| ==> c * size + flips[c][j] / 32 < |ws|
    ensures Damaged(ws, flips, c + 1, size) == FlipList(Damaged(ws, flips, c, size), c * size, flips[c])
  {
    ListFits(flips, |ws|, size, c);
  }

  lemma ListInside(flips: seq<seq<nat>>, n: nat, size: nat, b: nat)
    requires InBlocks(flips, n, size) && b < |flips|
    ensures forall j :: 0 <= j < |flips[b]| ==> flips[b][j] / 32 < size
  {
  }

  lemma BlockIs(ws: seq<nat>, b: nat, size: nat)
    requires (b + 1) * size <= |ws|
    ensures b * size + size <= |ws| && Block(ws, b, size) == ws[b * size..b * size + size]
  {
    assert (b + 1) * size == b * size + size;
  }

  lemma DamagedStep(ws: seq<nat>, flips: seq<seq<nat>>, c: nat, b: nat, size: nat)
    requires InBlocks(flips, |ws|, size) && c < |flips| && b < |flips| && size > 0
    ensures (b + 1) * size <= |ws| && |Block(Damaged(ws, flips, c, size), b, size)| == size
    ensures forall j :: 0 <= j < |flips[c]| ==> flips[c][j] / 32 < size
    ensures Block(Damaged(ws, flips, c + 1, size), b, size)
            == if b == c then FlipList(Block(Damaged(ws, flips, c, size), b, size), 0, flips[c])
               else Block(Damaged(ws, flips, c, size), b, size)
  {
    hide *;
    ListFits(flips, |ws|, size, b);
    ListFits(flips, |ws|, size, c);
    ListInside(flips, |ws|, size, c);
    var before, after := Damaged(ws, flips, c, size), Damaged(ws, flips, c + 1, size);
    BlockIs(before, b, size);
    BlockIs(after, b, size);
    DamagedNext(ws, flips, c, size);
    var start: nat, from: nat := c * size, b * size;
    Apart(c, b, size);
    FlipListBlock(before, start, flips[c], from, size);
  }

  /** Each block of a damaged page shows its own flips. */
  lemma {:induction false} DamagedBlock(ws: seq<nat>, flips: seq<seq<nat>>, c: nat, b: nat, size: nat)
    requires InBlocks(flips, |ws|, size) && c <= |flips| && b < |flips| && size > 0
    ensures (b + 1) * size <= |ws| && |Block(ws, b, size)| == size
    ensures forall j :: 0 <= j < |flips[b]| ==> flips[b][j] / 32 < size
    ensures Block(Damaged(ws, flips, c, size), b, size)
            == if b < c then FlipList(Block(ws, b, size), 0, flips[b]) else Block(ws, b, size)
    decreases c
  {
    ListFits(flips, |ws|, size, b);
    ListInside(flips, |ws|, size, b);
    BlockIs(ws, b, size);
    if c > 0 {
      hide Block, FlipList, InBlocks;
      DamagedBlock(ws, flips, c - 1, b, size);
      DamagedStep(ws, flips, c - 1, b, size);
    }
  }

  ghost predicate SameBlock(a: seq<nat>, b: seq<nat>, c: nat, size: nat)
  {
    (c + 1) * size <= |a| && (c + 1) * size <= |b| && Block(a, c, size) == Block(b, c, size)
  }

  lemma {:induction false} SamePages(a: seq<nat>, b: seq<nat>, count: nat, size: nat)
    requires |a| == |b| && count * size <= |a|
    requires forall c: nat :: c < count ==> SameBlock(a, b, c, size)
    ensures a[..count * size] == b[..count * size]
    decreases count
  {
    if count == 0 {
      assert count * size == 0;
    } else {
      var s, e: nat := (count - 1) * size, count * size;
      Apart(count - 1, count, size);
      SamePages(a, b, count - 1, size);
      assert SameBlock(a, b, count - 1, size);
      SameNext(a, b, s, e);
    }
  }

  lemma SameNext(a: seq<nat>, b: seq<nat>, s: nat, e: nat)
    requires s <= e <= |a| == |b| && a[..s] == b[..s] && a[s..e] == b[s..e]
    ensures a[..e] == b[..e]
  {
    assert a[..e] == a[..s] + a[s..e] && b[..e] == b[..s] + b[s..e];
  }

  lemma FlipListTwice(blk: seq<nat>, list: seq<nat>)
    requires |list| <= 1 && forall j :: 0 <= j < |list| ==> 0 + list[j] / 32 < |blk|
    ensures FlipList(FlipList(blk, 0, list), 0, list) == blk
  {
    if list != [] {
      assert list[..0] == [];
      FlipTwice(blk, list[0]);
    }
  }

  /** Making single flips a second time restores the page. */
  lemma DamagedTwice(ws: seq<nat>, flips: seq<seq<nat>>, size: nat)
    requires InBlocks(flips, |ws|, size) && |flips| * size == |ws| && size > 0
    requires forall b :: 0 <= b < |flips| ==> |flips[b]| <= 1
    ensures Damaged(Damaged(ws, flips, |flips|, size), flips, |flips|, size) == ws
  {
    hide FlipList, Damaged;
    var once := Damaged(ws, flips, |flips|, size);
    var twice := Damaged(once, flips, |flips|, size);
    forall c: nat | c < |flips| ensures SameBlock(twice, ws, c, size) {
      DamagedBlock(ws, flips, |flips|, c, size);
      DamagedBlock(once, flips, |flips|, c, size);
      FlipListTwice(Block(ws, c, size), flips[c]);
    }
    SamePages(twice, ws, |flips|, size);
    assert twice[..|ws|] == twice && ws[..|ws|] == ws;
  }

  // ------------------------------------------------------------------ what one block shows

  /** The block as checksummed after its flips. */
  lemma HeaderData(blk: seq<nat>, i: nat, header: bool)
    requires |blk| >= 2 && i / 32 < |blk| && (header ==> i >= 64)
    ensures Data(FlipAt(blk, i), header) == FlipAt(Data(blk, header), i)
  {
    hide Xor, Pow2;
  }

  lemma ChecksumDelta(blk: seq<nat>, i: nat, k: nat, pgno: nat, header: bool)
    requires Sized(blk, k) && |blk| >= 2 && i < 32 * |blk| && (header ==> i >= 64)
    ensures Sized(FlipAt(blk, i), k)
    ensures Xor(NewChecksum(FlipAt(blk, i), pgno, header).ecc, NewChecksum(blk, pgno, header).ecc)
            == (32 * |blk| - 1 - i) * 0x10000 + i
    ensures Xor(NewChecksum(FlipAt(blk, i), pgno, header).xor, NewChecksum(blk, pgno, header).xor) == Pow2(i % 32)
  {
    hide EccOf, XorAll, Xor, Pow2, FlipAt, Data, AreDwords;
    SizedData(blk, k, header);
    HeaderData(blk, i, header);
    FlipStaysSized(blk, i, k);
    FlipEcc(Data(blk, header), i, k);
    XorPairs(XorAll(FlipAt(Data(blk, header), i)), pgno, XorAll(Data(blk, header)), pgno);
    XorEqual(pgno, pgno);
    XorNone(Xor(XorAll(FlipAt(Data(blk, header), i)), XorAll(Data(blk, header))));
  }

  lemma SizedData(blk: seq<nat>, k: nat, header: bool)
    requires Sized(blk, k) && |blk| >= 2
    ensures Sized(Data(blk, header), k) && |Data(blk, header)| == |blk|
  {
    DataWords(blk, header);
  }

  /** What the damaged block says of itself. */
  ghost function Told(list: seq<nat>): Verdict
  {
    if list == [] then NoError else if |list| == 1 then Correctable(list[0]) else Fatal
  }

  lemma OneTells(blk: seq<nat>, i: nat, k: nat, pgno: nat, header: bool, reserved: nat)
    requires Sized(blk, k) && k >= 6 && |blk| >= 2 && i < 32 * |blk| && i != reserved && (header ==> i >= 64)
    ensures i / 32 < |blk|
    ensures Judge(4 * |blk|, reserved, NewChecksum(blk, pgno, header), NewChecksum(FlipAt(blk, i), pgno, header)) == Correctable(i)
  {
    hide NewChecksum, FlipAt, Xor, Pow2, AreDwords, Judge;
    ChecksumDelta(blk, i, k, pgno, header);
    SizedBits(blk, k);
    OneFlip(4 * |blk|, k, i, NewChecksum(blk, pgno, header), NewChecksum(FlipAt(blk, i), pgno, header), i % 32, reserved);
  }

  lemma TwoTell(blk: seq<nat>, i: nat, j: nat, k: nat, pgno: nat, header: bool, reserved: nat)
    requires Sized(blk, k) && k >= 6 && |blk| >= 2 && i < 32 * |blk| && j < 32 * |blk| && i != j
    requires header ==> i >= 64 && j >= 64
    ensures i / 32 < |blk| && j / 32 < |blk|
    ensures Judge(4 * |blk|, reserved, NewChecksum(blk, pgno, header), NewChecksum(FlipAt(FlipAt(blk, i), j), pgno, header)) == Fatal
  {
    hide NewChecksum, FlipAt, Xor, Pow2, AreDwords, Judge;
    var once := FlipAt(blk, i);
    var stored, last := NewChecksum(blk, pgno, header), NewChecksum(FlipAt(once, j), pgno, header);
    ChecksumDelta(blk, i, k, pgno, header);
    ChecksumDelta(once, j, k, pgno, header);
    SizedBits(blk, k);
    ThroughMiddle(last.ecc, NewChecksum(once, pgno, header).ecc, stored.ecc);
    XorSwap((32 * |blk| - 1 - i) * 0x10000 + i, (32 * |blk| - 1 - j) * 0x10000 + j);
    TwoFlips(4 * |blk|, k, i, j, stored, last, reserved);
  }

  lemma BlockTells(blk: seq<nat>, list: seq<nat>, k: nat, pgno: nat, header: bool, reserved: nat)
    requires Sized(blk, k) && k >= 6 && |blk| >= 2 && FlipSet(list, 32 * |blk|)
    requires forall j :: 0 <= j < |list| ==> list[j] / 32 < |blk|
    requires forall j :: 0 <= j < |list| ==> list[j] != reserved && (header ==> list[j] >= 64)
    ensures Judge(4 * |blk|, reserved, NewChecksum(blk, pgno, header), NewChecksum(FlipList(blk, 0, list), pgno, header)) == Told(list)
  {
    hide NewChecksum, FlipAt, Sized, IsCorrectable, IbitCorrupted;
    if list == [] {
    } else if |list| == 1 {
      hide Judge;
      assert list[..0] == [];
      OneTells(blk, list[0], k, pgno, header, reserved);
    } else {
      hide Judge;
      assert list[..1][..0] == [];
      TwoTell(blk, list[0], list[1], k, pgno, header, reserved);
    }
  }

  lemma SizedBits(blk: seq<nat>, k: nat)
    requires Sized(blk, k)
    ensures 8 * (4 * |blk|) == Pow2(k) && k <= 16
  {
  }

  lemma ThroughMiddle(a: nat, b: nat, c: nat)
    ensures Xor(Xor(a, b), Xor(b, c)) == Xor(a, c)
  {
    hide Xor;
    XorAssoc(a, b, Xor(b, c));
    XorCancel(b, c);
  }

  // ------------------------------------------------------------------ the header block

  lemma WordOfFlip(blk: seq<nat>, i: nat, w: nat)
    requires i / 32 < |blk| && w < |blk|
    ensures FlipAt(blk, i)[w] == if i / 32 == w then Xor(blk[w], Pow2(i % 32)) else blk[w]
  {
  }

  lemma {:induction false} WordKept(blk: seq<nat>, list: seq<nat>, w: nat)
    requires w < |blk| && (forall j :: 0 <= j < |list| ==> 0 + list[j] / 32 < |blk| && list[j] / 32 != w)
    ensures FlipList(blk, 0, list)[w] == blk[w]
  {
    hide FlipAt, Xor, Pow2;
    if list != [] {
      WordKept(blk, list[..|list| - 1], w);
      WordOfFlip(FlipList(blk, 0, list[..|list| - 1]), list[|list| - 1], w);
    }
  }

  lemma FlagBit(w: nat, c: nat, f: nat)
    requires c != f
    ensures Shr(Xor(w, Pow2(c)), f) % 2 == Shr(w, f) % 2
  {
    hide Xor, Pow2, Shr;
    XorParts(w, Pow2(c), f);
    PowerShr(c, f);
    XorBits(Shr(w, f), Shr(Pow2(c), f));
    EvenSum(Shr(w, f), Shr(Pow2(c), f));
  }

  lemma EvenSum(a: nat, b: nat)
    requires b % 2 == 0
    ensures (a + b) % 2 == a % 2
  {
  }

  lemma {:induction false} PowerShr(c: nat, f: nat)
    requires c != f
    ensures Shr(Pow2(c), f) % 2 == 0
    decreases f
  {
    if c == 0 {
      ShrSmall(0, f - 1);
    } else if f > 0 {
      PowerShr(c - 1, f - 1);
    }
  }

  lemma {:induction false} FlagKept(blk: seq<nat>, list: seq<nat>)
    requires |blk| >= 512 && forall j :: 0 <= j < |list| ==> 0 + list[j] / 32 < |blk| && list[j] != FORMAT_BIT
    ensures HasNewFormat(FlipList(blk, 0, list)) == HasNewFormat(blk)
  {
    hide FlipAt, Xor, Pow2, Shr;
    if list != [] {
      FlagKept(blk, list[..|list| - 1]);
      var before, i := FlipList(blk, 0, list[..|list| - 1]), list[|list| - 1];
      WordOfFlip(before, i, FORMAT_BIT / 32);
      if i / 32 == FORMAT_BIT / 32 { FlagBit(before[FORMAT_BIT / 32], i % 32, FORMAT_BIT % 32); }
    }
  }

  /** The stored checksums after flips that miss them. */
  lemma StoredKept(blk: seq<nat>, list: seq<nat>, w: nat)
    requires |blk| >= 512 && w < 256 && w % 2 == 0
    requires forall j :: 0 <= j < |list| ==> 0 + list[j] / 32 < |blk| && list[j] / 64 != w / 2
    ensures StoredAt(FlipList(blk, 0, list), w) == StoredAt(blk, w)
  {
    hide FlipList;
    WordKept(blk, list, w);
    WordKept(blk, list, w + 1);
  }

  /** Block 0 holds all stored checksums. */
  lemma StoredInHeader(ws: seq<nat>, k: nat)
    requires PageSize(|ws|, k)
    ensures (0 + 1) * Pow2(k) <= |ws| && |Block(ws, 0, Pow2(k))| >= 512 && |ws| >= 512
    ensures ChecksumFromPage(ws)[0] == StoredAt(Block(ws, 0, Pow2(k)), 0)
    ensures |ws| > SMALL_WORDS ==> forall b :: 1 <= b < 4 ==> ChecksumFromPage(ws)[b] == StoredAt(Block(ws, 0, Pow2(k)), Slot(b))
    ensures |ws| <= SMALL_WORDS ==> forall b :: 1 <= b < 4 ==> ChecksumFromPage(ws)[b] == Checksum(0, 0)
    ensures HasNewFormat(ws) == HasNewFormat(Block(ws, 0, Pow2(k)))
  {
    BlockFits(|ws|, k, 0);
    hide Pow2, Shr;
  }

  // ------------------------------------------------------------------ what the page shows

  lemma DamageFits(flips: seq<seq<nat>>, n: nat, k: nat)
    requires PageSize(n, k) && Damage(flips, n, k)
    ensures InBlocks(flips, n, Pow2(k)) && |flips| * Pow2(k) == n && Pow2(k) >= 512 && |flips| >= 1 && |flips| <= 4
  {
    PageNumbers(n, k);
    hide Pow2, PageSize, HeaderFlips;
    forall b, j | 0 <= b < |flips| && 0 <= j < |flips[b]| ensures flips[b][j] < 32 * Pow2(k) {
      assert FlipSet(flips[b], 32 * Pow2(k));
    }
  }

  lemma {:induction false} FlippedWords(ws: seq<nat>, start: nat, list: seq<nat>)
    requires AreDwords(ws) && forall j :: 0 <= j < |list| ==> start + list[j] / 32 < |ws|
    ensures AreDwords(FlipList(ws, start, list))
  {
    hide Xor, Pow2;
    if list != [] {
      FlippedWords(ws, start, list[..|list| - 1]);
      var before, i := FlipList(ws, start, list[..|list| - 1]), list[|list| - 1];
      var w := (32 * start + i) / 32;
      PowerBelow((32 * start + i) % 32);
      XorBound(before[w], Pow2((32 * start + i) % 32), 32);
    }
  }

  lemma {:induction false} DamagedWords(ws: seq<nat>, flips: seq<seq<nat>>, b: nat, size: nat)
    requires InBlocks(flips, |ws|, size) && b <= |flips| && AreDwords(ws)
    ensures AreDwords(Damaged(ws, flips, b, size))
    decreases b
  {
    hide FlipList, AreDwords;
    if b > 0 {
      DamagedWords(ws, flips, b - 1, size);
      ListFits(flips, |ws|, size, b - 1);
      FlippedWords(Damaged(ws, flips, b - 1, size), (b - 1) * size, flips[b - 1]);
    }
  }

  ghost function DamagedPage(ws: seq<nat>, flips: seq<seq<nat>>, k: nat): (r: seq<nat>)
    requires PageSize(|ws|, k) && Damage(flips, |ws|, k)
    ensures |r| == |ws|
  {
    DamageFits(flips, |ws|, k);
    Damaged(ws, flips, |flips|, Pow2(k))
  }

  /** The damaged page still has its format, and each block its own flips. */
  lemma DamagedFacts(ws: seq<nat>, flips: seq<seq<nat>>, k: nat, pgno: nat, b: nat)
    requires ValidPage(ws, k, pgno) && Damage(flips, |ws|, k) && b < |flips|
    ensures Page(DamagedPage(ws, flips, k), k) && HasNewFormat(DamagedPage(ws, flips, k))
    ensures (b + 1) * Pow2(k) <= |ws| && |Block(ws, b, Pow2(k))| == Pow2(k) >= 512
    ensures Sized(Block(ws, b, Pow2(k)), k + 5)
    ensures forall j :: 0 <= j < |flips[b]| ==> flips[b][j] / 32 < Pow2(k)
    ensures Block(DamagedPage(ws, flips, k), b, Pow2(k)) == FlipList(Block(ws, b, Pow2(k)), 0, flips[b])
  {
    hide Pow2, FlipList, Shr, AreDwords, BlockIsValid, Damaged, Block, HasNewFormat;
    DamageFits(flips, |ws|, k);
    PageNumbers(|ws|, k);
    DamagedWords(ws, flips, |flips|, Pow2(k));
    DamagedBlock(ws, flips, |flips|, b, Pow2(k));
    DamagedBlock(ws, flips, |flips|, 0, Pow2(k));
    BlockWords(ws, b, Pow2(k));
    StoredInHeader(ws, k);
    StoredInHeader(DamagedPage(ws, flips, k), k);
    FlagKept(Block(ws, 0, Pow2(k)), flips[0]);
  }
}
