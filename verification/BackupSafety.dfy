/** What every run of backups guarantees: about the logs that are deleted (ese/backup.cxx:3502-3561), and about the
    logs that a database can be rolled forward with (741-745, 844-895, 4060-4098, 4264-4289). */
module BackupSafety {
  import opened GenerationSum
  import opened BackupSpec
  import opened BackupRuns

  // ------------------------------------------------------------------ runs

  /** No backup has been made, or is being made. */
  ghost predicate Initial(s: Session)
  {
    && ValidLog(s.log) && !s.phase.inProgress && s.handle == Free && s.fullMark == 0 && s.incMark == 0
    && |s.history.held| == |s.dbs|
    && forall d :: 0 <= d < |s.dbs| ==> s.dbs[d].full == NO_BACKUP && s.dbs[d].inc == NO_BACKUP && s.history.held[d] == Held({}, {}, false)
  }

  /** A run of commands, each with a proper environment. */
  ghost predicate Runs(s: Session, commands: seq<Command>, t: Session)
    requires Valid(s)
    decreases |commands|
  {
    if commands == [] then t == s
    else
      && Proper(s, commands[0])
      && (StepKeeps(s, commands[0]); Runs(Step(s, commands[0]).s, commands[1..], t))
  }

  lemma StepKeeps(s: Session, c: Command)
    requires Valid(s) && Proper(s, c)
    ensures c.ReadDatabase? || c.ReadLog? ==> s.phase.inProgress
    ensures Valid(Step(s, c).s)
  {
    hide ValidDbs, ValidCount, ValidDelete, ValidPhase, ValidFiles;
    match c {
      case Begin(incremental, instance, io) => BeginKeeps(s, incremental, instance, io);
      case OpenDatabase(d, found, io) => OpenDatabaseKeeps(s, d, found, io);
      case ReadDatabase(io, last) => ReadDatabaseKeeps(s, io, last);
      case OpenLog(gen, from, cb, io) => OpenLogKeeps(s, gen, from, cb, io);
      case ReadLog(cbMax, io) => ReadLogKeeps(s, cbMax, io);
      case Close => CloseKeeps(s);
      case GetLogInfo(p) => GetLogInfoKeeps(s, p);
      case TruncateLog(failing) => TruncateKeeps(s, failing);
      case End(normal, truncateDone, noHeader, unlogged) => CleanUpKeeps(s, normal, truncateDone, noHeader, unlogged);
      case Stop => StopKeeps(s);
      case Progress(l) => ProgressKeeps(s, l);
    }
  }

  lemma StopKeeps(s: Session)
    requires Valid(s)
    ensures Valid(s.(phase := s.phase.(stop := true)))
  {
  }

  lemma InitialIsValid(s: Session)
    requires Initial(s)
    ensures Valid(s)
  {
  }

  lemma {:induction false} RunsKeep(s: Session, commands: seq<Command>, t: Session)
    requires Valid(s) && Runs(s, commands, t)
    ensures Valid(t)
    decreases |commands|
  {
    if commands != [] {
      StepKeeps(s, commands[0]);
      RunsKeep(Step(s, commands[0]).s, commands[1..], t);
    }
  }

  /** One more command at the end of a run. */
  lemma {:induction false} RunThen(start: Session, commands: seq<Command>, s: Session, c: Command)
    requires Valid(start) && Runs(start, commands, s) && Valid(s) && Proper(s, c) && (c.ReadDatabase? || c.ReadLog? ==> s.phase.inProgress)
    ensures Runs(start, commands + [c], Step(s, c).s)
    decreases |commands|
  {
    hide Valid, Proper, Step;
    if commands == [] {
      StepKeeps(s, c);
      assert ([] + [c])[1..] == [];
    } else {
      StepKeeps(start, commands[0]);
      RunThen(Step(start, commands[0]).s, commands[1..], s, c);
      assert (commands + [c])[1..] == commands[1..] + [c];
    }
  }

  /** A state that some run reaches. */
  ghost predicate Reached(start: Session, s: Session)
  {
    Valid(start) && exists commands :: Runs(start, commands, s)
  }

  lemma Next(start: Session, s: Session, c: Command, t: Session)
    requires Reached(start, s) && Valid(s) && Proper(s, c) && (c.ReadDatabase? || c.ReadLog? ==> s.phase.inProgress)
    requires t == Step(s, c).s
    ensures Reached(start, t) && Valid(t)
  {
    hide Valid, Proper, Step;
    var commands :| Runs(start, commands, s);
    RunThen(start, commands, s, c);
    StepKeeps(s, c);
  }

  // ------------------------------------------------------------------ the logs that are deleted

  /** A generation that may go: it is closed and behind the checkpoint; an incremental backup has copied it; and no
      database that was left out when the range of deletion was set needs it behind its last full backup. */
  ghost predicate MayGo(s: Session, g: nat)
  {
    && g < s.logs.copyMac && g < s.log.checkpoint
    && (!s.phase.full ==> s.logs.copyMic <= g && (s.history.clean ==> g in s.history.closes))
    && (s.phase.full ==> forall d :: 0 <= d < |s.dbs| && d in s.history.left ==> g < s.dbs[d].full.high)
  }

  ghost predicate Deleted(s: Session, failing: set<nat>, g: nat)
  {
    g in s.log.existing && g !in TruncateStep(s, failing).s.log.existing
  }

  /** ErrBKTruncateLog in any state that a run can reach. */
  lemma TruncationIsSafe(start: Session, commands: seq<Command>, s: Session, failing: set<nat>)
    requires Initial(start) && Valid(start) && Runs(start, commands, s)
    ensures forall g :: Deleted(s, failing, g) ==> MayGo(s, g)
    ensures var r := TruncateStep(s, failing);
      (r.err == Ok || r.err == IoError) && s.history.clean ==> Covers(s.history.closes, s.logs.copyMic, s.logs.copyMac)
  {
    RunsKeep(start, commands, s);
    KeptIs(s.log.existing, failing, s.logs.deleteMic, s.logs.deleteMac);
    if s.phase.inProgress && s.logs.copyMic != 0 && s.logs.copyMac != 0 { TruncatedIsCovered(s); }
    hide ValidDbs, ValidCount, ValidFiles, ValidRoll, Kept, CopyMust;
    if s.phase.inProgress { Bounds(s); }
  }

  lemma Bounds(s: Session)
    requires ValidCount(s)
    ensures s.logs.copyMac != 0 ==> s.logs.copyMic < s.logs.copyMac
  {
  }

  /** Reads of the open log, with buffers of these sizes. */
  ghost function ReadLogs(s: Session, sizes: seq<nat>): (t: Session)
    requires Valid(s) && s.handle.LogHandle? && Asked(s) == Ok
    ensures t.handle.LogHandle?
    decreases |sizes|
  {
    if sizes == [] then s
    else
      ReadOnce(s, sizes[0]);
      ReadLogs(ReadLogStep(s, sizes[0], true).s, sizes[1..])
  }

  /** The bytes that the reads give to the client. */
  ghost function Given(s: Session, sizes: seq<nat>): nat
    requires Valid(s) && s.handle.LogHandle? && Asked(s) == Ok
    decreases |sizes|
  {
    if sizes == [] then 0
    else
      ReadOnce(s, sizes[0]);
      var t := ReadLogStep(s, sizes[0], true).s;
      t.handle.ib - s.handle.ib + Given(t, sizes[1..])
  }

  lemma ReadOnce(s: Session, size: nat)
    requires Valid(s) && s.handle.LogHandle? && Asked(s) == Ok
    ensures |s.dbs| == |s.history.held| && s.handle.ib <= s.handle.cb
    ensures var t := ReadLogStep(s, size, true).s;
      Valid(t) && Asked(t) == Ok && t == s.(handle := t.handle)
      && t.handle == s.handle.(ib := s.handle.ib + Min(s.handle.cb - s.handle.ib, size))
  {
    hide ValidDbs, ValidCount, ValidDelete, ValidPhase, ValidRoll;
    ReadLogKeeps(s, size, true);
    Lengths(s);
  }

  lemma {:induction false} ReadsGive(s: Session, sizes: seq<nat>)
    requires Valid(s) && s.handle.LogHandle? && Asked(s) == Ok
    ensures var t := ReadLogs(s, sizes);
      s.handle.ib + Given(s, sizes) <= s.handle.cb && t == s.(handle := s.handle.(ib := s.handle.ib + Given(s, sizes)))
    decreases |sizes|
  {
    hide Valid, Asked;
    if sizes == [] {
      ReadOnce(s, 0);
    } else {
      ReadOnce(s, sizes[0]);
      ReadsGive(ReadLogStep(s, sizes[0], true).s, sizes[1..]);
    }
  }

  lemma OpenLogIs(s: Session, gen: nat, from: nat, cb: nat)
    requires Valid(s) && Asked(s) == Ok && s.handle == Free && s.phase.status == LogsAndPatches
    requires gen in s.log.existing && from <= cb
    ensures |s.dbs| == |s.history.held|
    ensures OpenLogStep(s, gen, from, cb, true).s == s.(handle := LogHandle(gen, from, from, cb))
    ensures Valid(s.(handle := LogHandle(gen, from, from, cb)))
  {
    hide ValidDbs, ValidCount, ValidDelete, ValidPhase, ValidRoll;
    OpenLogKeeps(s, gen, from, cb, true);
    Lengths(s);
  }

  /** Why a copy must be clean: a log opened at any offset and read with any buffers is counted on close exactly if the
      reads gave the bytes behind the offset, and so it was handed out whole if and only if it was opened at 0. */
  lemma CountedFromItsOffset(s: Session, gen: nat, from: nat, cb: nat, sizes: seq<nat>)
    requires Valid(s) && Asked(s) == Ok && s.handle == Free && s.phase.status == LogsAndPatches
    requires gen in s.log.existing && s.logs.copyMic <= gen < s.logs.copyMac && from <= cb
    ensures |s.dbs| == |s.history.held|
    ensures var o := OpenLogStep(s, gen, from, cb, true).s;
      && Valid(o) && Asked(o) == Ok && o.handle.LogHandle?
      && var t := CloseStep(ReadLogs(o, sizes)).s;
      && var counted := t.history.closes == s.history.closes + [gen];
      && (counted <==> from + Given(o, sizes) == cb)
      && t.logs.genDone == s.logs.genDone + (if counted then gen else 0)
      && (counted ==> (Given(o, sizes) == cb <==> from == 0))
      && (counted ==> (t.history.clean <==> s.history.clean && Given(o, sizes) == cb && gen !in s.history.closes))
  {
    OpenLogIs(s, gen, from, cb);
    var o := s.(handle := LogHandle(gen, from, from, cb));
    ReadsGive(o, sizes);
    hide Valid;
    assert |s.history.closes + [gen]| == |s.history.closes| + 1;
  }

  /** No database that is left out of the full backup needs the generation. */
  ghost predicate Spared(s: Session, g: nat)
  {
    forall d :: 0 <= d < |s.dbs| && LeftOut(s.dbs[d]) ==> g < s.dbs[d].full.high
  }

  /** Every database that was opened after the range of deletion was set has been read to its end, or the range ends
      below the high generation of its last full backup. */
  ghost predicate ReopenedAreSafe(s: Session)
  {
    forall d :: 0 <= d < |s.dbs| && d in s.history.reopened && LeftOut(s.dbs[d]) ==> s.logs.deleteMac <= s.dbs[d].full.high
  }

  /** The truncation succeeds, and there is a log to lose: the last one of the range. */
  ghost predicate DeletesToTheEnd(s: Session, failing: set<nat>)
  {
    && TruncateStep(s, failing).err == Ok
    && s.logs.deleteMic < s.logs.deleteMac && s.logs.deleteMac - 1 in s.log.existing
  }

  /** The databases that are left out of a full backup when it truncates are spared exactly under this condition. */
  lemma LeftOutAreSpared(start: Session, commands: seq<Command>, s: Session, failing: set<nat>)
    requires Initial(start) && Valid(start) && Runs(start, commands, s) && s.phase.full
    ensures ReopenedAreSafe(s) ==> forall g :: Deleted(s, failing, g) ==> Spared(s, g)
    ensures DeletesToTheEnd(s, failing) ==> ((forall g :: Deleted(s, failing, g) ==> Spared(s, g)) <==> ReopenedAreSafe(s))
  {
    RunsKeep(start, commands, s);
    KeptIs(s.log.existing, failing, s.logs.deleteMic, s.logs.deleteMac);
    hide ValidDbs, ValidCount, ValidFiles, ValidRoll, ValidPhase, Kept, CopyMust, LeftOut;
    if DeletesToTheEnd(s, failing) { assert Deleted(s, failing, s.logs.deleteMac - 1); }
  }

  // ------------------------------------------------------------------ the logs that are held

  /** In every run, each database has its logs from its last full backup to its highest recorded generation. */
  lemma RecordedLogsHaveNoGap(start: Session, commands: seq<Command>, s: Session, d: nat)
    requires Initial(start) && Valid(start) && Runs(start, commands, s) && d < |s.dbs|
    ensures |s.history.held| == |s.dbs| && NoGap(s.dbs[d], s.history.held[d])
    ensures s.history.held[d].certain && s.dbs[d].full.low != 0 ==>
              forall g :: s.dbs[d].full.low <= g <= Max(s.dbs[d].full.high, s.dbs[d].inc.high) ==> g in s.history.held[d].copies
  {
    RunsKeep(start, commands, s);
    assert ValidDb(s.dbs[d], s.history.held[d], s.log);
  }

  /** A completed truncating backup is recorded with its whole range, and no record goes back. */
  lemma CompletionIsRecorded(s: Session, d: nat, truncateDone: bool, unlogged: set<nat>)
    requires Valid(s) && s.phase.inProgress && !s.phase.stop && s.phase.status != Databases && s.logs.copyMic != 0
    requires d < |s.dbs| && Updated(s, d, unlogged) && (truncateDone || s.phase.truncated)
    ensures var t := CleanUp(s, true, truncateDone, false, unlogged).s;
      && (s.phase.full ==> t.dbs[d].full == BkInfo(s.fullMark, s.logs.copyMic, s.logs.copyMac - 1) && t.dbs[d].inc == NO_BACKUP)
      && (!s.phase.full ==> t.dbs[d].inc == BkInfo(s.incMark, s.logs.copyMic, s.logs.copyMac - 1) && t.dbs[d].full == s.dbs[d].full)
      && Max(t.dbs[d].full.high, t.dbs[d].inc.high) > Max(s.dbs[d].full.high, s.dbs[d].inc.high)
  {
    Bounds(s);
    Lengths(s);
    assert OlderThan(s.dbs[d], s.history.held[d], s.logs.copyMac - 1);
    hide ValidDbs, ValidDelete, ValidCount, ValidRoll;
    assert CleanUp(s, true, truncateDone, false, unlogged).s.dbs[d] == EndDb(s, d, true, true, unlogged);
    assert s.phase.full ==> s.dbs[d].full.mark <= s.fullMark;
    assert s.dbs[d].inc.mark <= s.incMark;
  }

  /** A backup that is not truncating leaves the records of the truncating ones alone. */
  lemma OthersDoNotCount(s: Session, d: nat, ok: bool, noHeader: bool, unlogged: set<nat>)
    requires Valid(s) && d < |s.dbs| && !s.phase.truncated
    ensures var t := CleanUp(s, ok, false, noHeader, unlogged).s;
      t.dbs[d].full == s.dbs[d].full && t.dbs[d].inc == s.dbs[d].inc && t.history.held[d] == s.history.held[d]
  {
    hide ValidDelete, ValidCount, ValidPhase, ValidFiles, ValidRoll;
    if s.phase.inProgress {
      var header := ok && !s.phase.stop && s.phase.status != Databases && !noHeader;
      assert CleanUp(s, ok, false, noHeader, unlogged).s.dbs[d] == EndDb(s, d, header, false, unlogged);
      assert CleanUp(s, ok, false, noHeader, unlogged).s.history.held[d] == EndHeld(s, d, header, false, unlogged);
    }
  }

  /** JET_bitBackupTruncateDone at the end of an incremental backup: the caller's word that the logs were truncated is
      recorded even if log preparation failed, or was never asked for. Then, and only then, the record is wrong: it
      claims logs that no backup has had in its range. */
  lemma TruncateDoneNeedsLogList(s: Session, d: nat, unlogged: set<nat>)
    requires Valid(s) && s.phase.inProgress && !s.phase.full && !s.phase.stop && d < |s.dbs| && Updated(s, d, unlogged)
    requires s.log.current <= 0xFFFF_FFFF
    ensures var t := CleanUp(s, true, true, false, unlogged).s;
      |t.history.held| == |t.dbs| && (NoGap(t.dbs[d], t.history.held[d]) <==> s.logs.copyMic != 0)
  {
    Lengths(s);
    if s.logs.copyMic != 0 {
      EndDbKeeps(s, d, true, true, unlogged);
    } else {
      WrongRecord(s, d, unlogged);
    }
  }

  lemma WrongRecord(s: Session, d: nat, unlogged: set<nat>)
    requires Valid(s) && s.phase.inProgress && !s.phase.full && d < |s.dbs| && Updated(s, d, unlogged) && s.logs.copyMic == 0
    requires s.log.current <= 0xFFFF_FFFF
    ensures |s.dbs| == |s.history.held| && !NoGap(EndDb(s, d, true, true, unlogged), EndHeld(s, d, true, true, unlogged))
  {
    var db, h := EndDb(s, d, true, true, unlogged), EndHeld(s, d, true, true, unlogged);
    var high := Ulong(s.logs.copyMac - 1);
    assert ValidDb(s.dbs[d], s.history.held[d], s.log);
    assert QualifiesForIncremental(s.dbs[d]);
    assert s.logs.copyMac != 0 ==> OlderThan(s.dbs[d], s.history.held[d], s.logs.copyMac - 1);
    assert s.dbs[d].inc.mark <= s.incMark;
    assert db.full.low <= high <= Max(db.full.high, db.inc.high);
    assert high !in h.ranges;
  }
}
