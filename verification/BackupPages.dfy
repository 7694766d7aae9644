/** The database stream of a backup (ese/backup.cxx:232-285, 449-484, 2166-2187, 2359-2383, 2804-2871, 2978-2995,
    3055-3075; inc/io.hxx:28-29). A database file is copied as two headers, its pages and a trailer. */
module BackupPages {
  import opened Powers
  import opened BitStrings

  datatype Piece = Header | Page(pgno: nat) | Trailer

  /** Piece i of a database whose last page is most. */
  function PieceAt(most: nat, i: nat): Piece
  {
    if i < 2 then Header else if i < most + 2 then Page(i - 1) else Trailer
  }

  function File(most: nat): (f: seq<Piece>)
    ensures |f| == most + 3
  {
    seq(most + 3, i requires 0 <= i => PieceAt(most, i))
  }

  /** The order of the stream: the header twice, each page from 1 to the last one in its place, and the trailer. */
  lemma FileInOrder(most: nat, i: nat)
    requires i < most + 3
    ensures File(most)[i] == Header <==> i <= 1
    ensures forall pgno: nat :: File(most)[i] == Page(pgno) <==> 1 <= pgno <= most && i == pgno + 1
    ensures File(most)[i] == Trailer <==> i == |File(most)| - 1
  {
  }

  datatype Err = Success | InvalidParameter | OutOfMemory | NotAllowedYet | ReadFailed

  /** What the engine and the disk did during one read: range lock, page reads with all their retries, and a
      suspension of the backup by recovery. */
  datatype Fate = Fate(lock: bool, io: bool, suspended: bool)

  function Min(a: nat, b: nat): nat { if a < b then a else b }

  /** The bytes of n pieces. */
  function Bytes(n: nat, page: nat): nat { n * page }

  /** The pieces that a buffer has room for, and whether room is left over. */
  function PiecesIn(cb: nat, page: nat): nat
    requires page > 0
  {
    cb / page
  }

  predicate Uneven(cb: nat, page: nat)
    requires page > 0
  {
    cb % page != 0
  }

  lemma TimesPage(a: nat, b: nat, m: nat)
    requires m > 0
    ensures a * m == b * m <==> a == b
    ensures a * m / m == a && a * m % m == 0
  {
    if a * m == b * m { MulCancelEqual(a, b, m); }
    DivOfProduct(a, m, 0);
    ModOfProduct(a, m, 0);
  }

  lemma NextPages(f: seq<Piece>, first: nat, p: nat, n: nat)
    requires first <= p && p + n <= |f|
    ensures f[first..p] + f[p..p + n] == f[first..p + n]
  {
  }

  lemma PiecesAre(read: seq<Piece>, most: nat, p: nat)
    requires p + |read| <= most + 3
    requires forall k :: 0 <= k < |read| ==> read[k] == PieceAt(most, p + k)
    ensures read == File(most)[p..p + |read|]
  {
  }

  lemma WholePages(ib: nat, m: nat)
    requires m > 0 && ib % m == 0
    ensures ib == ib / m * m && (ib > 0 ==> ib / m > 0)
  {
  }

  lemma AddPages(a: nat, n: nat, m: nat)
    ensures (a + n) * m == a * m + n * m
  {
  }

  /** An offset that no copy may begin at: not that of a page, or that of the second header or of page 1. */
  predicate BadOffset(ibRead: nat, page: nat)
    requires page > 0
  {
    ibRead % page != 0 || 0 < ibRead / page < 3
  }

  /** A copy may begin at the first header, or at page 2 or any behind it: the offsets that begin the second header and
      page 1 are the only refused ones among those of whole pages. */
  lemma RefusedOffsets(ibRead: nat, page: nat)
    requires page > 0
    ensures BadOffset(ibRead, page) <==> ibRead % page != 0 || ibRead == page || ibRead == 2 * page
  {
    var q := ibRead / page;
    assert ibRead == page * q + ibRead % page;
    if ibRead % page == 0 && BadOffset(ibRead, page) { assert q == 1 || q == 2; }
    if ibRead == page { TimesPage(1, 1, page); }
    if ibRead == 2 * page { TimesPage(2, 2, page); }
  }

  /** The offset of a page of the database, or of its end. */
  predicate WithinFile(ibRead: nat, page: nat, pgnoLast: nat)
    requires page > 0
  {
    ibRead / page <= pgnoLast + 2
  }

  /** Pages from pgnoStart on, into a part of the buffer. */
  method CopyPages(page: array<Piece>, from: nat, end: nat, pgnoStart: nat)
    requires from <= end <= page.Length
    modifies page
    ensures forall k :: from <= k < end ==> page[k] == Page(pgnoStart + (k - from))
    ensures forall k :: 0 <= k < page.Length && !(from <= k < end) ==> page[k] == old(page[k])
  {
    for i := from to end
      invariant forall k :: from <= k < i ==> page[k] == Page(pgnoStart + (k - from))
      invariant forall k :: 0 <= k < page.Length && !(from <= k < i) ==> page[k] == old(page[k])
    {
      page[i] := Page(pgnoStart + (i - from));
    }
  }

  /** An RHF entry for a database, with the copy counters of its FMP. */
  class DatabaseFile {
    const cbPage: nat
    var inUse: bool
    var ib: nat
    var cb: nat
    var pgnoBackupMost: nat
    var pgnoBackupCopyMost: nat
    var copiedPatchHeader: bool
    /** The piece the stream begins with, what successful reads have handed out, and how many pieces a suspended
        read has taken from the file without handing them out. */
    ghost var first: nat
    ghost var delivered: seq<Piece>
    ghost var lost: nat

    /** The next piece. */
    ghost function Position(): nat
      reads this
    {
      if copiedPatchHeader then pgnoBackupMost + 3
      else if pgnoBackupCopyMost == 0 then 0
      else pgnoBackupCopyMost + 2
    }

    /** The copy has not gone past the last page, and the trailer comes after it. */
    ghost predicate Counting()
      reads this
    {
      && inUse && 1 <= pgnoBackupMost && pgnoBackupCopyMost <= pgnoBackupMost
      && (copiedPatchHeader ==> pgnoBackupCopyMost == pgnoBackupMost)
    }

    ghost predicate Valid()
      reads this
    {
      && cbPage > 0
      && (inUse ==>
            && Counting() && ib == Bytes(first + |delivered|, cbPage) && cb == Bytes(pgnoBackupMost + 3, cbPage)
            && first + |delivered| + lost == Position()
            && (lost == 0 ==> delivered == File(pgnoBackupMost)[first..Position()]))
    }

    /** The whole stream has been handed out. */
    ghost predicate Complete()
      reads this
    {
      first <= pgnoBackupMost + 3 && delivered == File(pgnoBackupMost)[first..]
    }

    constructor (page: nat)
      requires page > 0
      ensures Valid() && cbPage == page && !inUse
    {
      cbPage := page;
      inUse := false;
    }

    /** The test of the close: the counters agree exactly when every piece has been handed out. */
    lemma CountersTellCompleteness()
      requires Valid() && inUse
      ensures ib == cb <==> Complete()
    {
      TimesPage(first + |delivered|, pgnoBackupMost + 3, cbPage);
      assert File(pgnoBackupMost)[first..pgnoBackupMost + 3] == File(pgnoBackupMost)[first..];
    }

    /** As long as nothing was lost, the counters agree once the trailer has been made. */
    lemma CountersTellTrailer()
      requires Valid() && inUse && lost == 0
      ensures ib == cb <==> copiedPatchHeader
    {
      TimesPage(first + |delivered|, pgnoBackupMost + 3, cbPage);
    }

    /** The database part of ErrBKOpenFile: a resumed copy begins at page 2 or later. */
    method Open(ibRead: nat, pgnoLast: nat) returns (err: Err)
      requires Valid() && 1 <= pgnoLast && WithinFile(ibRead, cbPage, pgnoLast)
      modifies this
      ensures Valid()
      ensures err == if BadOffset(ibRead, cbPage) then InvalidParameter
                     else if old(inUse) then OutOfMemory
                     else Success
      ensures err.Success? ==> inUse && pgnoBackupMost == pgnoLast && first == ibRead / cbPage && delivered == [] && lost == 0 && !copiedPatchHeader
      ensures !err.Success? ==> unchanged(this)
    {
      hide File;
      if ibRead % cbPage != 0 { return InvalidParameter; }
      WholePages(ibRead, cbPage);
      var pgnoRead := 0;
      if ibRead > 0 {
        pgnoRead := ibRead / cbPage + 1 - 2;
        if pgnoRead < 2 { return InvalidParameter; }
      }
      if inUse { return OutOfMemory; }
      inUse := true;
      ib := ibRead;
      pgnoBackupMost := pgnoLast;
      pgnoBackupCopyMost := 0;
      copiedPatchHeader := false;
      if pgnoRead > 1 { pgnoBackupCopyMost := pgnoRead - 1; }
      cb := pgnoLast * cbPage;
      cb := cb + cbPage * 2;
      cb := cb + cbPage;
      AddPages(pgnoLast, 3, cbPage);
      first, delivered, lost := ibRead / cbPage, [], 0;
      assert File(pgnoLast)[first..first] == [];
      return Success;
    }

    /** ErrBKIReadPages: as many pieces as fit and are left. */
    method ReadPages(page: array<Piece>, fate: Fate) returns (err: Err, n: nat)
      requires Counting() && page.Length > 0 && (pgnoBackupCopyMost == 0 ==> page.Length > 2)
      modifies `pgnoBackupCopyMost, `copiedPatchHeader, page
      ensures Counting()
      ensures !err.Success? ==> n == 0 && Position() == old(Position())
      ensures err.Success? ==> n == Min(page.Length, pgnoBackupMost + 3 - old(Position())) && Position() == old(Position()) + n
      ensures err.Success? ==> n <= page.Length && page[..n] == File(pgnoBackupMost)[old(Position())..old(Position()) + n]
      ensures err == Success || (err == ReadFailed && !(fate.lock && fate.io))
    {
      hide File, Bytes;
      ghost var p := Position();
      var cpage := page.Length;
      var left := pgnoBackupMost - pgnoBackupCopyMost + if pgnoBackupCopyMost == 0 then 2 else 0;
      var cpageT := Min(cpage, left);
      n := 0;
      err := Success;
      var ipageT := 0;
      var room := cpageT < cpage;
      if cpageT == 0 && (!room || copiedPatchHeader) {
        PiecesAre([], pgnoBackupMost, p);
        return;
      }
      if pgnoBackupCopyMost == 0 {
        page[0] := Header;
        page[1] := Header;
        n := 2;
        ipageT := 2;
      }
      var pgnoStart, pgnoEnd := pgnoBackupCopyMost + 1, pgnoBackupCopyMost + (cpageT - ipageT);
      if pgnoStart <= pgnoEnd {
        if !fate.lock { return ReadFailed, 0; }
        pgnoBackupCopyMost := pgnoEnd;
        CopyPages(page, ipageT, cpageT, pgnoStart);
        if !fate.io {
          pgnoBackupCopyMost := pgnoStart - 1;
          return ReadFailed, 0;
        }
        n := n + (cpageT - ipageT);
      }
      if room {
        page[n] := Trailer;
        n := n + 1;
        copiedPatchHeader := true;
      }
      PiecesAre(page[..n], pgnoBackupMost, p);
    }

    /** The database part of ErrBKReadFile, into a buffer of cbMax bytes; an error closes the file, a suspension
        of the backup does not. */
    method Read(cbMax: nat, page: array<Piece>, fate: Fate) returns (err: Err, n: nat)
      requires Valid() && inUse && page.Length == PiecesIn(cbMax, cbPage)
      modifies this, page
      ensures Valid() && pgnoBackupMost == if err.ReadFailed? then 0 else old(pgnoBackupMost)
      ensures first == old(first)
      ensures err.InvalidParameter? <==>
                Uneven(cbMax, cbPage) || page.Length == 0 || (page.Length <= 2 && old(pgnoBackupCopyMost) == 0)
      ensures err.InvalidParameter? ==> unchanged(this)
      ensures err.ReadFailed? ==> !inUse && !(fate.lock && fate.io)
      ensures !err.OutOfMemory?
      ensures err.NotAllowedYet? ==> fate.suspended && inUse && delivered == old(delivered) && ib == old(ib)
      ensures err.NotAllowedYet? ==> old(Position()) < pgnoBackupMost + 3 ==> lost > 0
      ensures err.Success? ==> inUse && lost == old(lost) && n == Min(page.Length, pgnoBackupMost + 3 - old(Position()))
      ensures err.Success? ==> delivered == old(delivered) + page[..n]
      ensures err.Success? ==> page[..n] == File(pgnoBackupMost)[old(Position())..old(Position()) + n]
    {
      hide File, PieceAt, Bytes, PiecesIn, Uneven;
      n := 0;
      ghost var p := Position();
      if Uneven(cbMax, cbPage) { return InvalidParameter, 0; }
      var cpage := PiecesIn(cbMax, cbPage);
      if cpage == 0 || (cpage <= 2 && pgnoBackupCopyMost == 0) { return InvalidParameter, 0; }
      err, n := ReadPages(page, fate);
      if !err.Success? {
        var _ := Close();
        return;
      }
      if fate.suspended {
        lost := lost + n;
        return NotAllowedYet, 0;
      }
      Deliver(page[..n], p);
    }

    /** All that Valid says of a file in use whose next piece is the p-th. */
    ghost predicate ValidAt(p: nat)
      reads this
    {
      && cbPage > 0 && inUse && first + |delivered| + lost == p <= pgnoBackupMost + 3
      && ib == Bytes(first + |delivered|, cbPage) && cb == Bytes(pgnoBackupMost + 3, cbPage)
      && (lost == 0 ==> delivered == File(pgnoBackupMost)[first..p])
    }

    /** The count of what was handed out. */
    method Deliver(read: seq<Piece>, ghost p: nat)
      requires ValidAt(p) && p + |read| <= pgnoBackupMost + 3 && read == File(pgnoBackupMost)[p..p + |read|]
      modifies `ib, `delivered
      ensures delivered == old(delivered) + read && ValidAt(p + |read|)
    {
      hide File;
      if lost == 0 { NextPages(File(pgnoBackupMost), first, p, |read|); }
      AddPages(first + |delivered|, |read|, cbPage);
      ib := ib + |read| * cbPage;
      delivered := delivered + read;
    }

    /** The database part of ErrBKCloseFile: it says whether the file counts as backed up. */
    method Close() returns (done: bool)
      requires inUse && cbPage > 0
      modifies this
      ensures Valid() && !inUse && first == old(first) && delivered == old(delivered)
      ensures pgnoBackupMost == pgnoBackupCopyMost == 0
      ensures done == old(ib == cb)
    {
      pgnoBackupMost, pgnoBackupCopyMost, copiedPatchHeader := 0, 0, false;
      done := ib == cb;
      inUse := false;
      ib, cb := 0, 0;
    }
  }

  /** A backup client: it opens the database, reads until nothing more comes, and closes it. If the close counts the
      database as backed up, the client has got the whole of it; and it does so unless a read failed or was suspended. */
  method CopyDatabase(db: DatabaseFile, pgnoLast: nat, cpage: nat, fates: nat -> Fate) returns (out: seq<Piece>, done: bool)
    requires db.Valid() && !db.inUse && pgnoLast >= 1 && cpage > 2
    modifies db
    ensures db.Valid() && !db.inUse
    ensures done ==> out == File(pgnoLast)
    ensures (forall i :: fates(i).lock && fates(i).io && !fates(i).suspended) ==> done
  {
    hide File;
    var err := db.Open(0, pgnoLast);
    var page := new Piece[cpage];
    out, done := [], false;
    TimesPage(cpage, 0, db.cbPage);
    var i := 0;
    var more := true;
    while more
      invariant db.Valid() && db.inUse && db.pgnoBackupMost == pgnoLast && db.first == 0 && out == db.delivered
      invariant db.lost == 0 && (!more ==> db.Complete())
      decreases more, pgnoLast + 3 - |out|
    {
      var n;
      err, n := db.Read(cpage * db.cbPage, page, fates(i));
      if err.ReadFailed? { return; }
      if err.NotAllowedYet? {
        var _ := db.Close();
        return;
      }
      out := out + page[..n];
      more := n > 0;
      WholeFile(pgnoLast);
      i := i + 1;
    }
    db.CountersTellCompleteness();
    WholeFile(pgnoLast);
    done := db.Close();
  }

  lemma WholeFile(most: nat)
    ensures File(most)[0..most + 3] == File(most) == File(most)[0..]
  {
  }
}
