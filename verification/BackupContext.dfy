/** BACKUP_CONTEXT, whose methods make the steps of BackupSpec (ese/backup.cxx:597-745, 802-895, 1628-1913, 2125-2672,
    2683-2948, 2959-3149, 3155-3195, 3457-3471, 3502-3561, 3999-4128, 4130-4436). */
module BackupContext {
  import opened GenerationSum
  import opened BackupSpec
  import opened BackupRuns
  import opened BackupSafety
  import Pages = BackupPages

  /** The file entry is that of the open database, if one is open, and the handle tells whether it has been read to
      its end. Outside of recovery no read is suspended, so nothing of it is lost. */
  ghost predicate InStep(handle: Handle, rhf: Pages.DatabaseFile)
    reads rhf
  {
    && rhf.Valid() && (handle.DbHandle? <==> rhf.inUse)
    && (rhf.inUse ==> rhf.lost == 0 && (handle.whole <==> rhf.ib == rhf.cb))
  }

  /** ErrBKUpdateHdrBackupInfo once its log record is written. */
  method UpdateHeader(db: Db, logOnly: bool, truncating: bool, low: nat, high: int, mark: nat) returns (r: Db)
    requires high >= -1
    ensures r == HeaderUpdate(db, logOnly, truncating, BkInfo(mark, low, Ulong(high)))
  {
    r := db;
    var previous := if logOnly then (if truncating then db.inc else db.diff) else (if truncating then db.full else db.copy);
    if previous.mark <= mark {
      var info := BkInfo(mark, low, Ulong(high));
      if logOnly {
        r := if truncating then r.(inc := info) else r.(diff := info);
      } else {
        r := if truncating then r.(full := info, snapshotFull := false) else r.(copy := info);
      }
      if truncating && !logOnly {
        r := r.(inc := NO_BACKUP);
        r := r.(diff := NO_BACKUP);
      }
    }
  }

  class BackupContext {
    const rhf: Pages.DatabaseFile
    var phase: Phase
    var logs: LogRanges
    var fullMark: nat
    var incMark: nat
    var handle: Handle
    var dbs: seq<Db>
    var log: Log
    ghost var history: History

    ghost function State(): Session
      reads this
    {
      Session(phase, logs, fullMark, incMark, handle, dbs, log, history)
    }

    ghost predicate ValidContext()
      reads this, rhf
    {
      InStep(handle, rhf) && Valid(State())
    }

    /** An instance whose databases have never been backed up. */
    constructor (page: nat, dbs: seq<Db>, log: Log)
      requires page > 0 && ValidLog(log)
      requires forall d :: 0 <= d < |dbs| ==> dbs[d].full == NO_BACKUP && dbs[d].inc == NO_BACKUP
      ensures ValidContext() && Initial(State()) && this.dbs == dbs && this.log == log && fresh(rhf)
    {
      rhf := new Pages.DatabaseFile(page);
      phase := Phase(false, false, NotStarted, false, false, false);
      logs := LogRanges(0, 0, 0, 0, 0);
      fullMark, incMark := 0, 0;
      handle := Free;
      this.dbs, this.log := dbs, log;
      history := History([], false, {}, {}, seq(|dbs|, _ => Held({}, {}, false)));
      new;
      InitialIsValid(State());
    }

    // ---------------------------------------------------------------- begin

    /** All databases take part in an incremental backup, and none yet in a full one. */
    method Start(incremental: bool)
      modifies `phase, `logs, `dbs
      ensures State() == Started(old(State()), incremental)
    {
      logs := logs.(copyMic := 0, copyMac := 0, deleteMic := 0, deleteMac := 0);
      phase := phase.(truncated := false, stop := false, inProgress := true);
      phase := phase.(status := if incremental then LogsAndPatches else Databases);
      var marked := dbs;
      for d := 0 to |dbs|
        invariant |marked| == |dbs|
        invariant forall i :: 0 <= i < |dbs| ==> marked[i] == if i < d then Joined(dbs[i], incremental) else dbs[i]
      {
        if incremental {
          marked := marked[d := marked[d].(inSession := true)];
        } else {
          marked := marked[d := marked[d].(inSession := false, done := false)];
        }
      }
      assert marked == AllJoined(dbs, incremental);
      dbs := marked;
    }

    /** ErrLGCheckIncrementalBackup and what follows. */
    method BeginIncremental() returns (err: Err)
      modifies `phase
      ensures Reply(State(), err) == StartIncremental(old(State()))
    {
      for d := 0 to |dbs|
        invariant forall i :: 0 <= i < d ==> QualifiesForIncremental(dbs[i])
      {
        if dbs[d].attached && (dbs[d].full.low == 0 || dbs[d].snapshotFull) {
          assert !QualifiesForIncremental(dbs[d]);
          phase := phase.(inProgress := false, stop := false, status := NotStarted);
          return MissingFullBackup;
        }
      }
      phase := phase.(begun := false, full := false);
      err := Ok;
    }

    method BeginFull(io: bool) returns (err: Err)
      modifies `phase, `fullMark, `logs
      ensures Reply(State(), err) == StartFull(old(State()), io)
    {
      fullMark := log.tip;
      phase := phase.(begun := false, full := true);
      if !io {
        phase := phase.(inProgress := false, stop := false, status := NotStarted);
        return IoError;
      }
      logs := logs.(copyMic := log.checkpoint);
      err := Ok;
    }

    /** ErrBKBeginExternalBackup. */
    method Begin(incremental: bool, instance: Instance, io: bool) returns (err: Err)
      requires ValidContext()
      modifies `phase, `logs, `dbs, `fullMark
      ensures ValidContext() && Reply(State(), err) == BeginStep(old(State()), incremental, instance, io)
    {
      hide Valid, InStep, Started, StartIncremental, StartFull;
      BeginKeeps(State(), incremental, instance, io);
      if instance.logDisabled { return LoggingDisabled; }
      if instance.logFailed { return LogWriteFail; }
      if incremental && instance.circular { return InvalidBackup; }
      if instance.exhausted { return LogStateBad; }
      if phase.inProgress { return BackupInProgress; }
      Start(incremental);
      if incremental {
        err := BeginIncremental();
      } else {
        err := BeginFull(io);
      }
    }

    // ---------------------------------------------------------------- end

    /** The headers of the databases that the backup was complete for, and then the flags of all. */
    method UpdateDatabases(header: bool, truncating: bool, unlogged: set<nat>)
      requires |dbs| == |history.held|
      modifies `dbs, `history
      ensures |old(dbs)| == |old(history).held| && State() == WithHeaders(old(State()), header, truncating, unlogged)
    {
      hide HeaderUpdate, NewHeld;
      ghost var s := State();
      var ended := dbs;
      for d := 0 to |dbs|
        modifies {}
        invariant |ended| == |dbs|
        invariant forall i :: 0 <= i < d ==> ended[i] == EndDb(s, i, header, truncating, unlogged)
        invariant forall i :: d <= i < |dbs| ==> ended[i] == dbs[i]
      {
        var db := dbs[d];
        if header && db.logged && db.attached && db.inSession && d !in unlogged {
          if phase.full && db.done {
            db := UpdateHeader(db, false, truncating, db.patch.low, logs.copyMac - 1, db.patch.mark);
          } else if !phase.full {
            db := UpdateHeader(db, true, truncating, logs.copyMic, logs.copyMac - 1, incMark);
          }
        }
        ended := ended[d := db.(inSession := false, done := false)];
      }
      history := history.(held := EndHelds(s, header, truncating, unlogged));
      dbs := ended;
      assert dbs == EndDbs(s, header, truncating, unlogged);
    }

    method CloseRest()
      requires InStep(handle, rhf)
      modifies `handle, `phase, rhf
      ensures State() == Closed(old(State())) && InStep(handle, rhf)
    {
      if handle.DbHandle? {
        var _ := rhf.Close();
      }
      handle := Free;
      phase := phase.(truncated := false, inProgress := false, stop := false, status := NotStarted);
    }

    /** ErrBKExternalBackupCleanUp. */
    method CleanUp(ok: bool, truncateDone: bool, noHeader: bool, unlogged: set<nat>) returns (err: Err)
      requires ValidContext()
      modifies this, rhf
      ensures |old(dbs)| == |old(history).held| && InStep(handle, rhf)
      ensures Reply(State(), err) == BackupSpec.CleanUp(old(State()), ok, truncateDone, noHeader, unlogged)
      ensures (truncateDone && old(phase).inProgress ==> old(logs).copyMic != 0) ==> ValidContext()
    {
      hide Valid, InStep, WithHeaders, Closed;
      Lengths(State());
      if truncateDone && phase.inProgress ==> logs.copyMic != 0 { CleanUpKeeps(State(), ok, truncateDone, noHeader, unlogged); }
      if !phase.inProgress {
        phase := phase.(stop := false, status := NotStarted);
        return NoBackup;
      }
      var normal := ok;
      if normal {
        if phase.stop {
          normal := false;
        } else if phase.status == Databases {
          normal := false;
        }
      }
      UpdateDatabases(normal && !noHeader, truncateDone || phase.truncated, unlogged);
      CloseRest();
      err := Ok;
    }

    // ---------------------------------------------------------------- files

    /** An error that ends the backup. */
    method Abort(reason: Err) returns (err: Err)
      requires ValidContext()
      modifies this, rhf
      ensures |old(dbs)| == |old(history).held| && ValidContext() && Reply(State(), err) == Aborted(old(State()), reason) && err == reason
    {
      hide Valid, InStep, BackupSpec.CleanUp;
      var _ := CleanUp(false, false, false, {});
      err := reason;
    }

    /** A database whose copy failed leaves the backup. */
    method Leave(d: nat)
      requires d < |dbs|
      modifies `dbs, `handle
      ensures State() == LeftSession(old(State()), d)
    {
      dbs := dbs[d := dbs[d].(inSession := false, done := false)];
      handle := Free;
    }

    /** ErrBKOpenFile for a database, from the beginning or from a page. */
    method OpenDatabase(d: nat, found: bool, io: bool, ibRead: nat, pgnoLast: nat) returns (err: Err)
      requires ValidContext() && d < |dbs| && 1 <= pgnoLast && Pages.WithinFile(ibRead, rhf.cbPage, pgnoLast)
      modifies this, rhf
      ensures ValidContext() && |old(dbs)| == |old(history).held|
      ensures err == InvalidParameter <==>
                Asked(old(State())) == Ok && Pages.BadOffset(ibRead, rhf.cbPage)
      ensures if err == InvalidParameter then State() == old(State())
              else Reply(State(), err) == OpenDatabaseStep(old(State()), d, found, io)
    {
      hide Valid, Aborted, Pages.BadOffset, Pages.WithinFile;
      Lengths(State());
      OpenDatabaseKeeps(State(), d, found, io);
      if !phase.inProgress { return NoBackup; }
      if phase.stop { return AbortByServer; }
      if Pages.BadOffset(ibRead, rhf.cbPage) { return InvalidParameter; }
      if handle != Free { return OutOfMemory; }
      if !found {
        if phase.status == Databases { return DatabaseNotFound; }
        err := Abort(DatabaseNotFound);
        return;
      }
      if !phase.full || phase.status != Databases {
        err := Abort(InvalidSequence);
        return;
      }
      if phase.begun { history := history.(reopened := history.reopened + {d}); }
      if !io {
        Leave(d);
        return IoError;
      }
      var _ := rhf.Open(ibRead, pgnoLast);
      rhf.CountersTellTrailer();
      dbs := dbs[d := dbs[d].(inSession := true)];
      handle := DbHandle(d, false);
      err := Ok;
    }

    /** ErrBKReadFile for a database; an error gives up this database only. */
    method ReadDatabase(cbMax: nat, page: array<Pages.Piece>, fate: Pages.Fate) returns (err: Err, n: nat)
      requires ValidContext() && handle.DbHandle? && page.Length == Pages.PiecesIn(cbMax, rhf.cbPage) && !fate.suspended
      modifies this, rhf, page
      ensures ValidContext() && old(handle).db < |old(dbs)|
      ensures err == InvalidParameter ==> State() == old(State())
      ensures err == Ok ==> Reply(State(), err) == ReadDatabaseStep(old(State()), true, rhf.copiedPatchHeader && !old(rhf.copiedPatchHeader))
      ensures err == Ok ==> n <= page.Length && rhf.inUse && rhf.delivered == old(rhf.delivered) + page[..n]
      ensures err != InvalidParameter && err != Ok ==> Reply(State(), err) == ReadDatabaseStep(old(State()), false, false)
    {
      hide Valid;
      InUse(State());
      ReadDatabaseKeeps(State(), true, true);
      ReadDatabaseKeeps(State(), true, false);
      ReadDatabaseKeeps(State(), false, false);
      n := 0;
      if phase.stop { return AbortByServer, 0; }
      var d, had := handle.db, rhf.copiedPatchHeader;
      rhf.CountersTellTrailer();
      var failure;
      failure, n := rhf.Read(cbMax, page, fate);
      if failure.InvalidParameter? { return InvalidParameter, 0; }
      if failure.ReadFailed? {
        Leave(d);
        return IoError, 0;
      }
      rhf.CountersTellTrailer();
      if rhf.copiedPatchHeader && !had {
        dbs := dbs[d := dbs[d].(patch := BkInfo(fullMark, logs.copyMic, log.current))];
        handle := DbHandle(d, true);
      }
      err := Ok;
    }

    /** ErrBKOpenFile for a log. */
    method OpenLog(gen: nat, ibRead: nat, cb: nat, io: bool) returns (err: Err)
      requires ValidContext() && ibRead <= cb
      modifies this, rhf
      ensures ValidContext() && |old(dbs)| == |old(history).held|
      ensures Reply(State(), err) == OpenLogStep(old(State()), gen, ibRead, cb, io)
    {
      hide Valid, Aborted;
      Lengths(State());
      OpenLogKeeps(State(), gen, ibRead, cb, io);
      if !phase.inProgress { return NoBackup; }
      if phase.stop { return AbortByServer; }
      if handle != Free { return OutOfMemory; }
      if phase.status == Databases { return DatabaseNotFound; }
      if gen !in log.existing {
        err := Abort(MissingFile);
        return;
      }
      if !io {
        err := Abort(IoError);
        return;
      }
      handle := LogHandle(gen, ibRead, ibRead, cb);
      err := Ok;
    }

    /** ErrBKReadFile for a log. */
    method ReadLog(cbMax: nat, io: bool) returns (err: Err)
      requires ValidContext() && handle.LogHandle?
      modifies this, rhf
      ensures ValidContext() && |old(dbs)| == |old(history).held| && old(handle).ib <= old(handle).cb
      ensures Reply(State(), err) == ReadLogStep(old(State()), cbMax, io)
    {
      hide Valid, Aborted;
      Lengths(State());
      InUse(State());
      ReadLogKeeps(State(), cbMax, io);
      if phase.stop { return AbortByServer; }
      if !io {
        err := Abort(IoError);
        return;
      }
      var cbToRead := Min(handle.cb - handle.ib, cbMax);
      handle := handle.(ib := handle.ib + cbToRead);
      err := Ok;
    }

    /** ErrBKCloseFile. */
    method CloseFile() returns (err: Err)
      requires ValidContext()
      modifies this, rhf
      ensures ValidContext() && (old(handle).DbHandle? ==> old(handle).db < |old(dbs)|)
      ensures Reply(State(), err) == CloseStep(old(State()))
      ensures old(handle).DbHandle? && old(phase).inProgress ==>
                (dbs[old(handle).db].done <==> old(dbs)[old(handle).db].done || old(rhf.Complete()))
    {
      hide Valid;
      CloseKeeps(State());
      if !phase.inProgress { return NoBackup; }
      match handle {
        case Free => return InvalidParameter;
        case DbHandle(d, _) =>
          rhf.CountersTellCompleteness();
          var done := rhf.Close();
          if done { dbs := dbs[d := dbs[d].(done := true)]; }
        case LogHandle(gen, from, ib, cb) =>
          if ib == cb && logs.copyMic <= gen <= logs.copyMac - 1 {
            logs := logs.(genDone := logs.genDone + gen);
            history := Counted(history, gen, from);
          }
      }
      handle := Free;
      err := Ok;
    }

    // ---------------------------------------------------------------- the ranges of logs

    /** The new generation, and what it makes of the ranges. */
    method NewLog(p: Prep)
      modifies `log, `incMark, `phase, `logs, `history
      ensures State() == NewLogFile(Rolled(old(State()), p), p.mac)
    {
      log := p.log;
      if !phase.full { incMark := p.mark; }
      phase := phase.(begun := true);
      logs := logs.(copyMac := p.mac, genDone := 0);
      history := history.(closes := [], clean := true);
    }

    /** ErrBKICheckLogsForIncrementalBackup. */
    method CheckLogs(lowest: nat) returns (ok: bool)
      ensures ok <==> AllContinue(dbs, lowest)
    {
      for d := 0 to |dbs|
        invariant forall i :: 0 <= i < d ==> Continues(dbs[i], lowest)
      {
        if dbs[d].attached && lowest > Max(dbs[d].full.high, dbs[d].inc.high) + 1 {
          assert !Continues(dbs[d], lowest);
          return false;
        }
      }
      ok := true;
    }

    /** The range of deletion, and in an incremental backup that of the copy. */
    method SetRanges(p: Prep)
      requires logs.deleteMic == p.lowest && logs.copyMac == p.mac
      modifies `logs, `history
      ensures State() == Ranged(old(State()), p)
    {
      logs := logs.(deleteMac := Min(p.checkpoint, logs.copyMac));
      if phase.full {
        var mac := logs.deleteMac;
        var limit := mac;
        for d := 0 to |dbs|
          modifies {}
          invariant limit == DeleteLimit(dbs[..d], mac)
        {
          assert dbs[..d + 1][..d] == dbs[..d];
          var db := dbs[d];
          if db.logged && db.attached && !(db.inSession && db.done) { limit := Min(limit, db.full.high); }
        }
        assert dbs[..|dbs|] == dbs;
        logs := logs.(deleteMac := limit, deleteMic := Min(limit, p.lowest));
        history := history.(left := set d: nat | d < |dbs| && LeftOut(dbs[d]));
      } else {
        logs := logs.(copyMic := logs.deleteMic);
      }
    }

    /** ErrBKIPrepareLogFiles. */
    method PrepareLogFiles(p: Prep) returns (err: Err)
      modifies `log, `incMark, `phase, `logs, `history
      ensures Reply(State(), err) == PrepareStep(old(State()), p)
    {
      hide Ranged;
      if p.fault == PrepFault { return IoError; }
      if p.fault == WaitFault {
        log := p.log;
        if !phase.full { incMark := p.mark; }
        return IoError;
      }
      NewLog(p);
      if p.fault == RangeFault { return IoError; }
      if p.lowest == 0 { return FileNotFound; }
      logs := logs.(deleteMic := p.lowest);
      if !phase.full {
        var ok := CheckLogs(logs.deleteMic);
        if !ok { return MissingFile; }
      }
      if p.fault == CheckpointFault { return IoError; }
      SetRanges(p);
      err := Ok;
    }

    /** ErrBKGetLogInfo. */
    method GetLogInfo(p: Prep) returns (err: Err)
      requires ValidContext() && ProperPrep(log, p)
      modifies this, rhf
      ensures ValidContext() && |old(dbs)| == |old(history).held|
      ensures Reply(State(), err) == GetLogInfoStep(old(State()), p)
    {
      hide Valid, PrepareStep, InStep, Aborted;
      GetLogInfoKeeps(State(), p);
      if !phase.inProgress { return NoBackup; }
      if phase.stop { return AbortByServer; }
      if handle != Free { return InvalidSequence; }
      if !phase.begun {
        history := history.(reopened := {});
        err := PrepareLogFiles(p);
        if err != Ok { return; }
      }
      if p.listing.BadPath? { return InvalidParameter; }
      if p.listing.NoMemory? {
        err := Abort(OutOfMemory);
        return;
      }
      phase := phase.(status := LogsAndPatches);
      err := Ok;
    }

    /** ErrLGTruncateLog: files are deleted in increasing order, and missing ones are passed over. */
    method DeleteLogs(failing: set<nat>) returns (err: Err)
      modifies `log
      ensures log == old(log).(existing := Kept(old(log).existing, failing, logs.deleteMic, logs.deleteMac))
      ensures err == if exists g :: g in log.existing && logs.deleteMic <= g < logs.deleteMac then IoError else Ok
    {
      var g := logs.deleteMic;
      err := Ok;
      while g < logs.deleteMac && err == Ok
        invariant logs.deleteMic <= g && log == old(log).(existing := log.existing)
        invariant Kept(old(log).existing, failing, logs.deleteMic, logs.deleteMac) ==
                  if err == Ok then Kept(log.existing, failing, g, logs.deleteMac) else log.existing
        invariant if err == Ok then forall x :: x in log.existing ==> x < logs.deleteMic || g <= x
                  else err == IoError && exists x :: x in log.existing && logs.deleteMic <= x < logs.deleteMac
        decreases logs.deleteMac - g, err == Ok
      {
        if g !in log.existing {
          assert log.existing - {g} == log.existing;
        } else if g in failing {
          err := IoError;
        } else {
          log := log.(existing := log.existing - {g});
        }
        g := g + 1;
      }
    }

    /** ErrBKTruncateLog. */
    method TruncateLog(failing: set<nat>) returns (err: Err)
      requires ValidContext()
      modifies `log, `phase
      ensures ValidContext() && Reply(State(), err) == TruncateStep(old(State()), failing)
    {
      hide Valid, InStep, Kept;
      TruncateKeeps(State(), failing);
      if !phase.inProgress { return NoBackup; }
      if phase.stop { return AbortByServer; }
      if handle != Free { return InvalidSequence; }
      if logs.copyMic == 0 || logs.copyMac == 0 { return InvalidSequence; }
      phase := phase.(status := LogsAndPatches);
      var cGenCopyMust := (logs.copyMic + (logs.copyMac - 1)) * ((logs.copyMac - 1) - logs.copyMic + 1) / 2;
      if logs.genDone < cGenCopyMust { return LogNotCopied; }
      phase := phase.(truncated := true);
      err := DeleteLogs(failing);
    }
  }

  lemma InUse(s: Session)
    requires Valid(s) && s.handle != Free
    ensures s.phase.inProgress
  {
  }
}
