/** What every run of backups keeps, and what that says about the deletion of logs and about the logs that the backups
    of a database hold. */
module BackupRuns {
  import opened GenerationSum
  import opened BackupSpec

  // ------------------------------------------------------------------ the environment

  ghost predicate ValidLog(l: Log)
  {
    1 <= l.checkpoint <= l.current && forall g :: g in l.existing ==> 1 <= g < l.current
  }

  /** The log moves on: nothing goes back, and files may be removed by others. */
  ghost predicate Grows(l: Log, m: Log)
  {
    ValidLog(m) && l.current <= m.current && l.checkpoint <= m.checkpoint && l.tip <= m.tip
  }

  /** The roll closes a generation, so the directory holds one below the new generation. */
  ghost predicate ProperPrep(l: Log, p: Prep)
  {
    && Grows(l, p.log) && l.current < p.mac <= p.log.current && l.tip <= p.mark <= p.log.tip
    && l.checkpoint <= p.checkpoint <= p.log.checkpoint
    && (if p.lowest == 0 then p.log.existing == {}
        else p.lowest in p.log.existing && p.lowest < p.mac && forall g :: g in p.log.existing ==> p.lowest <= g)
  }

  ghost predicate Proper(s: Session, c: Command)
  {
    match c
    case OpenDatabase(d, _, _) => d < |s.dbs|
    case ReadDatabase(_, _) => s.handle.DbHandle?
    case OpenLog(_, from, cb, _) => from <= cb
    case ReadLog(_, _) => s.handle.LogHandle?
    case GetLogInfo(p) => ProperPrep(s.log, p)
    case Progress(l) => Grows(s.log, l)
    case End(_, truncateDone, _, _) => truncateDone && s.phase.inProgress ==> s.logs.copyMic != 0
    case _ => true
  }

  // ------------------------------------------------------------------ the invariant

  /** From the lowest generation of its last full backup to the highest that any truncating backup has recorded, the
      ranges of these backups leave no gap, and if all were truncated after clean copies, the copies leave none. */
  ghost predicate NoGap(db: Db, h: Held)
  {
    && (db.full.low != 0 ==> forall g :: db.full.low <= g <= Max(db.full.high, db.inc.high) ==> g in h.ranges)
    && (h.certain ==> h.ranges <= h.copies)
  }

  ghost predicate ValidDb(db: Db, h: Held, l: Log)
  {
    && NoGap(db, h) && db.full.low <= db.full.high < l.current && db.inc.high < l.current
    && db.full.mark <= l.tip && db.inc.mark <= l.tip && forall g :: g in h.ranges ==> g < l.current
  }

  ghost predicate ValidDbs(s: Session)
  {
    |s.dbs| == |s.history.held| && forall d :: 0 <= d < |s.dbs| ==> ValidDb(s.dbs[d], s.history.held[d], s.log)
  }

  /** The generations counted so far. */
  ghost predicate ValidCount(s: Session)
  {
    s.logs.copyMac != 0 ==>
      && s.logs.copyMic < s.logs.copyMac <= s.log.current && s.logs.genDone == Sum(s.history.closes)
      && Within(s.history.closes, s.logs.copyMic, s.logs.copyMac) && (s.history.clean ==> Distinct(s.history.closes))
  }

  /** The range of deletion. */
  ghost predicate ValidDelete(s: Session)
  {
    && s.logs.deleteMac <= s.logs.copyMac && s.logs.deleteMac <= s.log.checkpoint
    && (s.phase.full ==> forall d :: 0 <= d < |s.dbs| && d in s.history.left ==> s.logs.deleteMac <= s.dbs[d].full.high)
    && (s.phase.full && s.logs.deleteMac > 0 ==>
          forall d :: 0 <= d < |s.dbs| && LeftOut(s.dbs[d]) ==> d in s.history.left || d in s.history.reopened)
  }

  ghost predicate ValidPhase(s: Session)
  {
    && (s.phase.full ==> 1 <= s.logs.copyMic <= s.log.checkpoint)
    && (!s.phase.full && s.logs.copyMic != 0 ==>
          && s.logs.copyMic == s.logs.deleteMic && s.logs.copyMac != 0
          && AllContinue(s.dbs, s.logs.copyMic))
    && (!s.phase.full && s.logs.copyMic == 0 ==> s.logs.deleteMac == 0)
    && (!s.phase.full ==> s.phase.status == LogsAndPatches)
    && (s.phase.begun <==> s.logs.copyMac != 0)
    && (s.phase.full && s.phase.status == LogsAndPatches ==> s.logs.copyMac != 0)
    && (s.phase.truncated ==> s.logs.copyMic != 0 && s.logs.copyMac != 0)
    && (s.phase.truncated && s.history.clean ==> Covers(s.history.closes, s.logs.copyMic, s.logs.copyMac))
    && s.phase.status != NotStarted
    && (s.phase.full ==> FullBefore(s.dbs, s.fullMark))
  }

  /** Every record is older than the generation that this backup closed. */
  ghost predicate ValidRoll(s: Session)
  {
    && |s.dbs| == |s.history.held|
    && (s.logs.copyMac != 0 ==>
          forall d :: 0 <= d < |s.dbs| ==> OlderThan(s.dbs[d], s.history.held[d], s.logs.copyMac - 1))
  }

  ghost predicate OlderThan(db: Db, h: Held, gen: nat)
  {
    db.full.high < gen && db.inc.high < gen && forall g :: g in h.ranges ==> g < gen
  }

  /** No record is younger than this backup. */
  ghost predicate FullBefore(dbs: seq<Db>, mark: nat) { forall d :: 0 <= d < |dbs| ==> dbs[d].full.mark <= mark }

  ghost predicate IncrementBefore(dbs: seq<Db>, mark: nat) { forall d :: 0 <= d < |dbs| ==> dbs[d].inc.mark <= mark }

  /** A database that counts as copied has the patch header of this backup. */
  ghost predicate ValidFiles(s: Session)
  {
    && (s.phase.full ==> forall d :: 0 <= d < |s.dbs| && s.dbs[d].done ==>
                     s.dbs[d].inSession && s.dbs[d].patch.mark == s.fullMark && s.dbs[d].patch.low == s.logs.copyMic)
    && (!s.phase.full ==> AllQualify(s.dbs) && forall d :: 0 <= d < |s.dbs| ==> s.dbs[d].inSession)
    && match s.handle
       case Free => true
       case DbHandle(d, whole) =>
         && d < |s.dbs| && s.phase.full && s.phase.status == Databases && s.dbs[d].inSession && (s.phase.begun ==> d in s.history.reopened)
         && (whole ==> s.dbs[d].patch.mark == s.fullMark && s.dbs[d].patch.low == s.logs.copyMic)
       case LogHandle(_, _, ib, cb) => ib <= cb && s.phase.status == LogsAndPatches
  }

  ghost predicate Valid(s: Session)
  {
    && ValidLog(s.log) && ValidDbs(s) && s.fullMark <= s.log.tip && s.incMark <= s.log.tip
    && IncrementBefore(s.dbs, s.incMark)
    && (s.phase.inProgress ==> ValidCount(s) && ValidDelete(s) && ValidPhase(s) && ValidFiles(s) && ValidRoll(s))
    && (!s.phase.inProgress ==> s.handle == Free)
  }

  ghost function Step(s: Session, c: Command): Reply
    requires Valid(s) && Proper(s, c) && (c.ReadDatabase? || c.ReadLog? ==> s.phase.inProgress)
  {
    match c
    case Begin(incremental, instance, io) => BeginStep(s, incremental, instance, io)
    case OpenDatabase(d, found, io) => OpenDatabaseStep(s, d, found, io)
    case ReadDatabase(io, last) => ReadDatabaseStep(s, io, last)
    case OpenLog(gen, from, cb, io) => OpenLogStep(s, gen, from, cb, io)
    case ReadLog(cbMax, io) => ReadLogStep(s, cbMax, io)
    case Close => CloseStep(s)
    case GetLogInfo(p) => GetLogInfoStep(s, p)
    case TruncateLog(failing) => TruncateStep(s, failing)
    case End(normal, truncateDone, noHeader, unlogged) => CleanUp(s, normal, truncateDone, noHeader, unlogged)
    case Stop => Reply(s.(phase := s.phase.(stop := true)), Ok)
    case Progress(l) => Reply(s.(log := l), Ok)
  }

  lemma Lengths(s: Session)
    requires Valid(s)
    ensures |s.dbs| == |s.history.held|
  {
  }

  // ------------------------------------------------------------------ every step keeps the invariant

  /** A step that changes the flags of databases only. */
  ghost predicate SameHeaders(s: Session, t: Session)
  {
    && |t.dbs| == |s.dbs| && t.history.held == s.history.held && t.log == s.log
    && forall d :: 0 <= d < |s.dbs| ==> SameHeader(s.dbs[d], t.dbs[d])
  }

  ghost predicate SameHeader(a: Db, b: Db)
  {
    && b.full == a.full && b.inc == a.inc && b.snapshotFull == a.snapshotFull
    && b.logged == a.logged && b.attached == a.attached
  }

  lemma HeadersKeep(s: Session, t: Session)
    requires ValidDbs(s) && SameHeaders(s, t)
    ensures ValidDbs(t)
  {
    forall d | 0 <= d < |s.dbs|
      ensures ValidDb(t.dbs[d], t.history.held[d], t.log)
    {
      assert SameHeader(s.dbs[d], t.dbs[d]);
    }
  }

  lemma RollKeeps(s: Session, t: Session)
    requires ValidRoll(s) && SameHeaders(s, t) && t.logs.copyMac == s.logs.copyMac
    ensures ValidRoll(t)
  {
    forall d | 0 <= d < |s.dbs| && s.logs.copyMac != 0
      ensures OlderThan(t.dbs[d], t.history.held[d], t.logs.copyMac - 1)
    {
      assert SameHeader(s.dbs[d], t.dbs[d]);
    }
  }

  lemma BeginKeeps(s: Session, incremental: bool, i: Instance, io: bool)
    requires Valid(s)
    ensures Valid(BeginStep(s, incremental, i, io).s)
  {
    var t := BeginStep(s, incremental, i, io).s;
    HeadersKeep(s, t);
    QualifySame(s, t);
    RecordsBefore(s);
    hide ValidDbs, AllQualify, FullBefore, IncrementBefore;
  }

  lemma RecordsBefore(s: Session)
    requires ValidDbs(s)
    ensures FullBefore(s.dbs, s.log.tip) && IncrementBefore(s.dbs, s.log.tip)
  {
    forall d | 0 <= d < |s.dbs|
      ensures s.dbs[d].full.mark <= s.log.tip && s.dbs[d].inc.mark <= s.log.tip
    {
      assert ValidDb(s.dbs[d], s.history.held[d], s.log);
    }
  }

  lemma LaterMark(dbs: seq<Db>, a: nat, b: nat)
    requires IncrementBefore(dbs, a) && a <= b
    ensures IncrementBefore(dbs, b)
  {
  }

  lemma QualifySame(s: Session, t: Session)
    requires SameHeaders(s, t)
    ensures AllQualify(s.dbs) <==> AllQualify(t.dbs)
    ensures forall lowest: nat :: AllContinue(s.dbs, lowest) <==> AllContinue(t.dbs, lowest)
    ensures forall mark: nat :: FullBefore(s.dbs, mark) <==> FullBefore(t.dbs, mark)
    ensures forall mark: nat :: IncrementBefore(s.dbs, mark) <==> IncrementBefore(t.dbs, mark)
  {
    forall d | 0 <= d < |s.dbs|
      ensures QualifiesForIncremental(s.dbs[d]) <==> QualifiesForIncremental(t.dbs[d])
      ensures forall lowest: nat :: Continues(s.dbs[d], lowest) <==> Continues(t.dbs[d], lowest)
      ensures s.dbs[d].full.mark == t.dbs[d].full.mark && s.dbs[d].inc.mark == t.dbs[d].inc.mark
    {
      assert SameHeader(s.dbs[d], t.dbs[d]);
    }
  }

  lemma OpenDatabaseKeeps(s: Session, d: nat, found: bool, io: bool)
    requires Valid(s) && d < |s.dbs|
    ensures Valid(OpenDatabaseStep(s, d, found, io).s)
  {
    AbortKeeps(s, InvalidSequence);
    AbortKeeps(s, DatabaseNotFound);
    var r := OpenDatabaseStep(s, d, found, io);
    if r.err == Ok || r.err == IoError { OpenKeeps(s, d, found, io); }
  }

  lemma OpenKeeps(s: Session, d: nat, found: bool, io: bool)
    requires Valid(s) && d < |s.dbs|
    requires var r := OpenDatabaseStep(s, d, found, io); r.err == Ok || r.err == IoError
    ensures Valid(OpenDatabaseStep(s, d, found, io).s)
  {
    var t := OpenDatabaseStep(s, d, found, io).s;
    FlagsKeep(s, t, d);
    hide ValidRoll, ValidDbs, ValidCount, ValidDelete, ValidPhase, Aborted, CleanUp, AllQualify, IncrementBefore;
  }

  /** A step that changes the flags of one database, which has been opened since the range of deletion was set. */
  ghost predicate FlagsOf(s: Session, t: Session, d: nat)
  {
    && SameHeaders(s, t) && t.phase == s.phase && t.logs == s.logs && t.fullMark == s.fullMark && t.incMark == s.incMark
    && t.history.closes == s.history.closes && t.history.clean == s.history.clean && t.history.left == s.history.left
    && s.history.reopened <= t.history.reopened && (s.phase.begun ==> d in t.history.reopened)
    && forall i :: 0 <= i < |s.dbs| && i != d ==> t.dbs[i] == s.dbs[i]
  }

  lemma FlagsKeep(s: Session, t: Session, d: nat)
    requires Valid(s) && s.phase.inProgress && FlagsOf(s, t, d)
    ensures ValidRoll(t) && ValidDbs(t) && ValidCount(t) && ValidDelete(t) && ValidPhase(t) && IncrementBefore(t.dbs, t.incMark)
    ensures AllQualify(s.dbs) <==> AllQualify(t.dbs)
  {
    hide ValidFiles;
    HeadersKeep(s, t);
    QualifySame(s, t);
    CountSame(s, t);
    RollKeeps(s, t);
    FlagsDelete(s, t, d);
    FlagsPhase(s, t, d);
    hide ValidRoll, ValidDbs, ValidCount, ValidDelete, ValidPhase;
  }

  lemma FlagsDelete(s: Session, t: Session, d: nat)
    requires ValidDelete(s) && ValidPhase(s) && FlagsOf(s, t, d)
    ensures ValidDelete(t)
  {
    hide AllContinue, Covers, FullBefore, LeftOut;
    forall i | 0 <= i < |s.dbs|
      ensures t.dbs[i].full.high == s.dbs[i].full.high
    {
      assert SameHeader(s.dbs[i], t.dbs[i]);
    }
  }

  lemma FlagsPhase(s: Session, t: Session, d: nat)
    requires ValidPhase(s) && FlagsOf(s, t, d)
    ensures ValidPhase(t)
  {
    QualifySame(s, t);
    hide AllContinue, Covers, FullBefore, LeftOut;
  }

  lemma CountSame(s: Session, t: Session)
    requires ValidCount(s) && t.logs.copyMac == s.logs.copyMac && t.logs.copyMic == s.logs.copyMic && t.logs.genDone == s.logs.genDone
    requires t.history.closes == s.history.closes && t.history.clean == s.history.clean && t.log.current >= s.log.current
    ensures ValidCount(t)
  {
  }

  lemma ReadDatabaseKeeps(s: Session, io: bool, last: bool)
    requires Valid(s) && s.handle.DbHandle?
    ensures s.handle.db < |s.dbs| && Valid(ReadDatabaseStep(s, io, last).s)
  {
    var t := ReadDatabaseStep(s, io, last).s;
    FlagsKeep(s, t, s.handle.db);
    hide ValidRoll, ValidDbs, ValidCount, ValidDelete, ValidPhase, AllQualify, IncrementBefore;
  }

  lemma OpenLogKeeps(s: Session, gen: nat, from: nat, cb: nat, io: bool)
    requires Valid(s) && from <= cb
    ensures Valid(OpenLogStep(s, gen, from, cb, io).s)
  {
    AbortKeeps(s, MissingFile);
    AbortKeeps(s, IoError);
  }

  lemma ReadLogKeeps(s: Session, cbMax: nat, io: bool)
    requires Valid(s) && s.handle.LogHandle?
    ensures s.handle.ib <= s.handle.cb && Valid(ReadLogStep(s, cbMax, io).s)
  {
    AbortKeeps(s, IoError);
  }

  lemma CloseKeeps(s: Session)
    requires Valid(s)
    ensures (s.handle.DbHandle? ==> s.handle.db < |s.dbs|) && Valid(CloseStep(s).s)
  {
    if s.phase.inProgress && s.handle.DbHandle? { CloseDatabaseKeeps(s); }
    if s.phase.inProgress && s.handle.LogHandle? { CloseLogKeeps(s); }
  }

  lemma CloseDatabaseKeeps(s: Session)
    requires Valid(s) && s.phase.inProgress && s.handle.DbHandle?
    ensures s.handle.db < |s.dbs| && Valid(CloseStep(s).s)
  {
    FlagsKeep(s, CloseStep(s).s, s.handle.db);
    hide ValidRoll, ValidDbs, ValidCount, ValidDelete, ValidPhase, AllQualify, IncrementBefore;
  }

  lemma CloseLogKeeps(s: Session)
    requires Valid(s) && s.phase.inProgress && s.handle.LogHandle?
    ensures Valid(CloseStep(s).s)
  {
    var t := CloseStep(s).s;
    CoversMore(s.history.closes, s.handle.gen, s.logs.copyMic, s.logs.copyMac);
    if s.logs.copyMic <= s.handle.gen <= s.logs.copyMac - 1 && s.handle.ib == s.handle.cb {
      CountKeeps(s, t, s.handle.gen);
    } else {
      CountSame(s, t);
    }
    DeleteSame(s, t);
    PhaseSame(s, t);
    FilesFree(s, t);
    RollKeeps(s, t);
    hide ValidRoll, ValidDbs, ValidCount, ValidDelete, ValidPhase, ValidFiles, Covers;
  }

  lemma PhaseSame(s: Session, t: Session)
    requires ValidPhase(s) && t.phase.full == s.phase.full && t.logs.copyMic == s.logs.copyMic && t.logs.copyMac == s.logs.copyMac && t.dbs == s.dbs
    requires t.logs.deleteMic == s.logs.deleteMic && t.logs.deleteMac == s.logs.deleteMac && t.phase.begun == s.phase.begun
    requires t.fullMark == s.fullMark && t.incMark == s.incMark
    requires t.log.checkpoint >= s.log.checkpoint
    requires t.phase.status == s.phase.status || t.phase.status == LogsAndPatches
    requires t.phase.status == LogsAndPatches && s.phase.full ==> t.logs.copyMac != 0
    requires t.phase.truncated ==> t.logs.copyMic != 0 && t.logs.copyMac != 0
    requires t.phase.truncated && t.history.clean ==> Covers(t.history.closes, t.logs.copyMic, t.logs.copyMac)
    ensures ValidPhase(t)
  {
    hide AllContinue, Covers, FullBefore, IncrementBefore;
  }

  lemma FilesFree(s: Session, t: Session)
    requires ValidFiles(s) && t.handle == Free && t.phase.full == s.phase.full && t.dbs == s.dbs
    requires t.fullMark == s.fullMark && (s.phase.full ==> t.logs.copyMic == s.logs.copyMic)
    ensures ValidFiles(t)
  {
    hide AllQualify;
  }

  lemma CoversMore(gens: seq<nat>, gen: nat, mic: nat, mac: nat)
    ensures Covers(gens, mic, mac) ==> Covers(gens + [gen], mic, mac)
  {
    forall g | mic <= g < mac && g in gens
      ensures g in gens + [gen]
    {
    }
  }

  lemma DeleteSame(s: Session, t: Session)
    requires ValidDelete(s) && t.logs.deleteMac == s.logs.deleteMac && t.logs.copyMac == s.logs.copyMac && t.phase.full == s.phase.full && t.history.left == s.history.left
    requires t.history.reopened == s.history.reopened && t.dbs == s.dbs && t.log.checkpoint >= s.log.checkpoint
    ensures ValidDelete(t)
  {
  }

  lemma CountKeeps(s: Session, t: Session, gen: nat)
    requires ValidCount(s) && s.logs.copyMic <= gen <= s.logs.copyMac - 1
    requires t.logs.copyMac == s.logs.copyMac && t.logs.copyMic == s.logs.copyMic && t.logs.genDone == s.logs.genDone + gen && t.log == s.log
    requires t.history.closes == s.history.closes + [gen] && (t.history.clean ==> s.history.clean && gen !in s.history.closes)
    ensures ValidCount(t)
  {
    assert (s.history.closes + [gen])[..|s.history.closes|] == s.history.closes;
  }

  lemma GetLogInfoKeeps(s: Session, p: Prep)
    requires Valid(s) && ProperPrep(s.log, p)
    ensures |s.dbs| == |s.history.held| && Valid(GetLogInfoStep(s, p).s)
    ensures s.phase.inProgress && s.handle == Free ==> Valid(Prepared(s, p).s)
  {
    hide Valid, ProperPrep, Prepared, ListLogs;
    Lengths(s);
    if s.phase.inProgress && s.handle == Free {
      PreparedKeeps(s, p);
      if Prepared(s, p).err == Ok { ListLogsKeeps(Prepared(s, p).s, p.listing); }
    }
  }

  lemma PreparedKeeps(s: Session, p: Prep)
    requires Valid(s) && s.phase.inProgress && s.handle == Free && ProperPrep(s.log, p)
    ensures Valid(Prepared(s, p).s) && Prepared(s, p).s.phase.inProgress && Prepared(s, p).s.handle == Free
    ensures Prepared(s, p).err == Ok ==> Prepared(s, p).s.phase.begun
  {
    if !s.phase.begun {
      var t := s.(history := s.history.(reopened := {}));
      ReopenedForgotten(s);
      PrepareKeeps(t, p);
    }
  }

  lemma ReopenedForgotten(s: Session)
    requires Valid(s) && s.phase.inProgress && !s.phase.begun && s.handle == Free
    ensures Valid(s.(history := s.history.(reopened := {})))
  {
  }

  lemma ListLogsKeeps(s: Session, listing: Listing)
    requires Valid(s) && s.phase.inProgress && s.handle == Free && s.phase.begun
    ensures |s.dbs| == |s.history.held| && Valid(ListLogs(s, listing).s)
  {
    hide AllContinue, AllQualify, Aborted;
    AbortKeeps(s, OutOfMemory);
    Lengths(s);
  }

  /** The state that log preparation starts from, in a backup that has not begun its new log file. */
  ghost predicate Unprepared(s: Session, p: Prep)
  {
    Valid(s) && s.phase.inProgress && !s.phase.begun && s.handle == Free && s.history.reopened == {} && ProperPrep(s.log, p)
  }

  lemma PrepareKeeps(s: Session, p: Prep)
    requires Unprepared(s, p)
    ensures Valid(PrepareStep(s, p).s) && PrepareStep(s, p).s.phase.inProgress && PrepareStep(s, p).s.handle == Free
  {
    var t := PrepareStep(s, p).s;
    PrepareFrame(s, p);
    ExistingKeeps(s, t);
    PrepareCount(s, p);
    PrepareDelete(s, p);
    PreparePhase(s, p);
    PrepareRoll(s, p);
    FilesFree(s, t);
    hide ValidRoll, ValidDbs, ValidCount, ValidDelete, ValidPhase, ValidFiles, PrepareStep;
  }

  lemma PrepareFrame(s: Session, p: Prep)
    requires Unprepared(s, p)
    ensures var t := PrepareStep(s, p).s;
      && t.phase.inProgress && t.handle == Free && t.phase.full == s.phase.full && t.dbs == s.dbs && t.history.held == s.history.held
      && t.fullMark == s.fullMark && t.incMark <= t.log.tip && (t.log == s.log || t.log == p.log)
      && (s.phase.full ==> t.logs.copyMic == s.logs.copyMic)
  {
    hide ValidDbs, ValidCount, ValidDelete, ValidFiles, AllContinue, AllQualify, DeleteLimit, LeftOut;
  }

  lemma PrepareCount(s: Session, p: Prep)
    requires Unprepared(s, p)
    ensures ValidCount(PrepareStep(s, p).s)
  {
    hide ValidDbs, ValidDelete, ValidFiles, AllContinue, AllQualify, DeleteLimit, LeftOut;
  }

  lemma PrepareRoll(s: Session, p: Prep)
    requires Unprepared(s, p)
    ensures ValidRoll(PrepareStep(s, p).s)
  {
    hide ValidDelete, ValidCount, ValidFiles, AllContinue, AllQualify, DeleteLimit, LeftOut, NoGap;
    forall d | 0 <= d < |s.dbs|
      ensures OlderThan(s.dbs[d], s.history.held[d], p.mac - 1)
    {
      assert ValidDb(s.dbs[d], s.history.held[d], s.log);
    }
  }

  lemma PrepareDelete(s: Session, p: Prep)
    requires Unprepared(s, p)
    ensures ValidDelete(PrepareStep(s, p).s)
  {
    LimitIs(s.dbs, Min(p.checkpoint, p.mac));
    hide ValidDbs, ValidCount, ValidFiles, AllContinue, AllQualify, DeleteLimit, LeftOut;
  }

  lemma PreparePhase(s: Session, p: Prep)
    requires Unprepared(s, p)
    ensures ValidPhase(PrepareStep(s, p).s)
  {
    RecordsBefore(s);
    LaterMark(s.dbs, s.log.tip, p.mark);
    hide ValidDbs, ValidCount, ValidFiles, AllContinue, AllQualify, Covers, LeftOut, DeleteLimit, FullBefore, IncrementBefore;
  }

  lemma {:induction false} LimitIs(dbs: seq<Db>, mac: nat)
    ensures DeleteLimit(dbs, mac) <= mac
    ensures forall d :: 0 <= d < |dbs| && LeftOut(dbs[d]) ==> DeleteLimit(dbs, mac) <= dbs[d].full.high
  {
    if dbs != [] {
      LimitIs(dbs[..|dbs| - 1], mac);
      forall d | 0 <= d < |dbs| && LeftOut(dbs[d])
        ensures DeleteLimit(dbs, mac) <= dbs[d].full.high
      {
        if d < |dbs| - 1 { assert dbs[..|dbs| - 1][d] == dbs[d]; }
      }
    }
  }

  lemma TruncateKeeps(s: Session, failing: set<nat>)
    requires Valid(s)
    ensures Valid(TruncateStep(s, failing).s)
  {
    KeptIs(s.log.existing, failing, s.logs.deleteMic, s.logs.deleteMac);
    if s.phase.inProgress && s.logs.copyMic != 0 && s.logs.copyMac != 0 { TruncatedIsCovered(s); }
    var t := TruncateStep(s, failing).s;
    ExistingKeeps(s, t);
    if s.phase.inProgress && t != s {
      DeleteSame(s, t);
      CountSame(s, t);
      PhaseSame(s, t);
      FilesFree(s, t);
      RollKeeps(s.(log := t.log), t);
    }
    hide ValidRoll, ValidDbs, ValidCount, ValidDelete, ValidPhase, ValidFiles, Covers, Kept, CopyMust;
  }

  /** Passing the test after a clean copy means that the whole range was copied. */
  lemma TruncatedIsCovered(s: Session)
    requires ValidCount(s) && s.logs.copyMic != 0 && s.logs.copyMac != 0
    ensures s.history.clean && s.logs.genDone >= CopyMust(s.logs.copyMic, s.logs.copyMac) ==> Covers(s.history.closes, s.logs.copyMic, s.logs.copyMac)
  {
    if s.history.clean { TestIsExact(s.history.closes, s.logs.copyMic, s.logs.copyMac); }
  }

  lemma ExistingKeeps(s: Session, t: Session)
    requires ValidDbs(s) && t.dbs == s.dbs && t.history.held == s.history.held
    requires t.log.current >= s.log.current && t.log.tip >= s.log.tip
    ensures ValidDbs(t)
  {
    forall d | 0 <= d < |s.dbs|
      ensures ValidDb(t.dbs[d], t.history.held[d], t.log)
    {
      assert ValidDb(s.dbs[d], s.history.held[d], s.log);
    }
  }

  lemma {:induction false} KeptIs(existing: set<nat>, failing: set<nat>, mic: nat, mac: nat)
    ensures Kept(existing, failing, mic, mac) <= existing
    ensures forall g :: g in existing && g !in Kept(existing, failing, mic, mac) ==> mic <= g < mac
    decreases mac - mic
  {
    if mic < mac && !(mic in existing && mic in failing) {
      KeptIs(existing - {mic}, failing, mic + 1, mac);
    }
  }

  lemma AbortKeeps(s: Session, err: Err)
    requires Valid(s)
    ensures Valid(Aborted(s, err).s)
  {
    CleanUpKeeps(s, false, false, false, {});
  }

  lemma CleanUpKeeps(s: Session, ok: bool, truncateDone: bool, noHeader: bool, unlogged: set<nat>)
    requires Valid(s) && (truncateDone && s.phase.inProgress ==> s.logs.copyMic != 0)
    ensures Valid(CleanUp(s, ok, truncateDone, noHeader, unlogged).s)
  {
    if s.phase.inProgress {
      var header := ok && !s.phase.stop && s.phase.status != Databases && !noHeader;
      var truncated := truncateDone || s.phase.truncated;
      forall d | 0 <= d < |s.dbs|
        ensures ValidDb(EndDb(s, d, header, truncated, unlogged), EndHeld(s, d, header, truncated, unlogged), s.log)
      {
        EndDbKeeps(s, d, header, truncated, unlogged);
      }
    }
  }

  lemma EndDbKeeps(s: Session, d: nat, header: bool, truncated: bool, unlogged: set<nat>)
    requires Valid(s) && s.phase.inProgress && d < |s.dbs| && (truncated ==> s.logs.copyMic != 0)
    requires header ==> s.phase.status != Databases
    ensures ValidDb(EndDb(s, d, header, truncated, unlogged), EndHeld(s, d, header, truncated, unlogged), s.log)
  {
    if header && truncated && Updated(s, d, unlogged) {
      if s.phase.full { FullIsRecorded(s, s.dbs[d], s.history.held[d]); } else { IncrementIsRecorded(s, s.dbs[d], s.history.held[d]); }
    }
    hide ValidCount, ValidDelete, ValidPhase, ValidFiles, NewRecord, NewHeld, NoGap;
    assert ValidDb(s.dbs[d], s.history.held[d], s.log);
  }

  /** The flags of the session do not matter to the records. */
  ghost predicate Recorded(db: Db, h: Held, l: Log)
  {
    ValidDb(db, h, l) && ValidDb(db.(inSession := false, done := false), h, l)
  }

  lemma CopiesCoverRange(s: Session)
    requires ValidPhase(s) && s.phase.truncated && s.history.clean
    ensures Range(s.logs.copyMic, s.logs.copyMac) <= Elements(s.history.closes)
  {
    forall g | g in Range(s.logs.copyMic, s.logs.copyMac)
      ensures g in s.history.closes
    {
    }
  }

  lemma FullIsRecorded(s: Session, db: Db, h: Held)
    requires ValidCount(s) && ValidPhase(s) && s.phase.full && s.logs.copyMic != 0 && s.logs.copyMac != 0 && ValidDb(db, h, s.log) && s.fullMark <= s.log.tip
    requires db.patch.mark == s.fullMark && db.patch.low == s.logs.copyMic
    requires db.full.mark <= s.fullMark
    ensures Recorded(HeaderUpdate(db, false, true, NewRecord(s, db)), NewHeld(s, h), s.log)
  {
    if s.phase.truncated && s.history.clean { CopiesCoverRange(s); }
  }

  lemma IncrementIsRecorded(s: Session, db: Db, h: Held)
    requires ValidCount(s) && ValidPhase(s) && !s.phase.full && s.logs.copyMic != 0 && ValidDb(db, h, s.log) && s.incMark <= s.log.tip
    requires db.attached && QualifiesForIncremental(db) && Continues(db, s.logs.copyMic)
    requires db.inc.mark <= s.incMark
    ensures Recorded(HeaderUpdate(db, true, true, NewRecord(s, db)), NewHeld(s, h), s.log)
  {
    if s.phase.truncated && s.history.clean { CopiesCoverRange(s); }
  }

  lemma ProgressKeeps(s: Session, l: Log)
    requires Valid(s) && Grows(s.log, l)
    ensures Valid(s.(log := l))
  {
  }
}
