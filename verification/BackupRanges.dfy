/** The ranges of logs that a backup deletes, and its records, exactly (ese/backup.cxx:637-745, 3502-3561, 3999-4128,
    1634-1700; ese/_log/logstream.cxx:4144-4229): truncation reaches as far as it may. */
module BackupRanges {
  import opened GenerationSum
  import opened BackupSpec
  import opened BackupRuns
  import opened BackupSafety

  // ------------------------------------------------------------------ the end of the range

  /** The largest generation that is neither above mac nor above the last full backup of a database left out, one that
      is logged and attached but was not copied to its end in this backup. */
  ghost predicate IsLimit(dbs: seq<Db>, mac: nat, limit: nat)
  {
    && limit <= mac
    && (forall d :: 0 <= d < |dbs| && dbs[d].logged && dbs[d].attached && !(dbs[d].inSession && dbs[d].done) ==>
          limit <= dbs[d].full.high)
    && (limit == mac ||
        exists d :: 0 <= d < |dbs| && dbs[d].logged && dbs[d].attached && !(dbs[d].inSession && dbs[d].done)
                    && limit == dbs[d].full.high)
  }

  lemma {:induction false} LimitIsAttained(dbs: seq<Db>, mac: nat)
    ensures IsLimit(dbs, mac, DeleteLimit(dbs, mac))
  {
    if dbs != [] {
      var rest, last := dbs[..|dbs| - 1], dbs[|dbs| - 1];
      LimitIsAttained(rest, mac);
      var limit := DeleteLimit(rest, mac);
      if limit != mac {
        var d :| 0 <= d < |rest| && rest[d].logged && rest[d].attached && !(rest[d].inSession && rest[d].done)
                 && limit == rest[d].full.high;
        assert dbs[d] == rest[d];
      }
      assert forall d :: 0 <= d < |rest| ==> dbs[d] == rest[d];
      assert dbs[|dbs| - 1] == last;
    }
  }

  /** The state from which log preparation can succeed. */
  ghost predicate Preparing(s: Session, p: Prep)
  {
    Valid(s) && Asked(s) == Ok && s.handle == Free && !s.phase.begun && ProperPrep(s.log, p)
  }

  /** What a successful preparation sets: the log to be written next ends the range of the copy; the range of deletion
      begins at or below every log there is, and ends at the largest generation that is not above the checkpoint, the
      range of the copy, or in a full backup the last full backup of a database left out. */
  lemma PreparedRanges(s: Session, p: Prep)
    requires Preparing(s, p)
    ensures |s.dbs| == |s.history.held|
    ensures GetLogInfoStep(s, p).err == Ok ==>
              var t := GetLogInfoStep(s, p).s;
              && t.phase.begun && t.logs.copyMac == p.mac && t.log == p.log
              && t.logs.copyMic == (if s.phase.full then s.logs.copyMic else p.lowest)
              && (forall g :: g in p.log.existing ==> p.lowest <= g) && t.logs.deleteMic <= p.lowest
              && (s.phase.full ==> IsLimit(s.dbs, if p.checkpoint <= p.mac then p.checkpoint else p.mac, t.logs.deleteMac))
              && (!s.phase.full ==> t.logs.deleteMac == if p.checkpoint <= p.mac then p.checkpoint else p.mac)
  {
    Lengths(s);
    LimitIsAttained(s.dbs, Min(p.checkpoint, p.mac));
    hide Valid, IsLimit, DeleteLimit, Aborted, AllContinue, LeftOut;
  }

  /** Preparation succeeds, and with it the list of logs, exactly if no call of the environment fails, there is a log, and
      in an incremental backup no attached database misses a log behind its last record. */
  lemma PreparationSucceeds(s: Session, p: Prep)
    requires Preparing(s, p)
    ensures |s.dbs| == |s.history.held|
    ensures GetLogInfoStep(s, p).err == Ok <==>
              && p.fault == NoFault && p.listing == Listed && p.lowest != 0
              && (!s.phase.full ==>
                    forall d :: 0 <= d < |s.dbs| && s.dbs[d].attached ==>
                      p.lowest <= s.dbs[d].full.high + 1 || p.lowest <= s.dbs[d].inc.high + 1)
  {
    Lengths(s);
    if !AllContinue(s.dbs, p.lowest) {
      var d :| 0 <= d < |s.dbs| && !Continues(s.dbs[d], p.lowest);
      assert s.dbs[d].attached && p.lowest > s.dbs[d].full.high + 1 && p.lowest > s.dbs[d].inc.high + 1;
    } else {
      forall d | 0 <= d < |s.dbs| && s.dbs[d].attached
        ensures p.lowest <= s.dbs[d].full.high + 1 || p.lowest <= s.dbs[d].inc.high + 1
      {
        assert Continues(s.dbs[d], p.lowest);
      }
    }
    hide Valid, DeleteLimit, Aborted, AllContinue, LeftOut, ProperPrep;
  }

  // ------------------------------------------------------------------ until truncation

  lemma RangesStep(s: Session, c: Command)
    requires Valid(s) && Proper(s, c) && s.phase.begun && !c.Begin?
    ensures c.ReadDatabase? || c.ReadLog? ==> s.phase.inProgress
    ensures var t := Step(s, c).s;
      && t.phase.begun && t.logs.copyMic == s.logs.copyMic && t.logs.copyMac == s.logs.copyMac
      && t.logs.deleteMic == s.logs.deleteMic && t.logs.deleteMac == s.logs.deleteMac
  {
    StepKeeps(s, c);
    Lengths(s);
    hide Valid, WithHeaders, Kept, CopyMust;
  }

  ghost predicate NoBegin(commands: seq<Command>) { forall i :: 0 <= i < |commands| ==> !commands[i].Begin? }

  lemma {:induction false} RangesStay(s: Session, commands: seq<Command>, t: Session)
    requires Valid(s) && Runs(s, commands, t) && s.phase.begun && NoBegin(commands)
    ensures t.logs.copyMic == s.logs.copyMic && t.logs.copyMac == s.logs.copyMac
    ensures t.logs.deleteMic == s.logs.deleteMic && t.logs.deleteMac == s.logs.deleteMac
    decreases |commands|
  {
    hide Valid, Proper, Step;
    if commands != [] {
      assert !commands[0].Begin?;
      StepKeeps(s, commands[0]);
      RangesStep(s, commands[0]);
      RangesStay(Step(s, commands[0]).s, commands[1..], t);
    }
  }

  // ------------------------------------------------------------------ the files

  /** Some file from mic to g is there and cannot be deleted. */
  ghost predicate Blocked(existing: set<nat>, failing: set<nat>, mic: nat, g: nat)
  {
    exists h :: mic <= h <= g && h in existing && h in failing
  }

  lemma BlockedFrom(existing: set<nat>, failing: set<nat>, mic: nat, g: nat)
    requires mic < g && !(mic in existing && mic in failing)
    ensures Blocked(existing - {mic}, failing, mic + 1, g) <==> Blocked(existing, failing, mic, g)
  {
    if h :| mic <= h <= g && h in existing && h in failing { assert h in existing - {mic}; }
    if h :| mic + 1 <= h <= g && h in existing - {mic} && h in failing { assert h in existing; }
  }

  lemma {:induction false} KeptAt(existing: set<nat>, failing: set<nat>, mic: nat, mac: nat, g: nat)
    ensures g in Kept(existing, failing, mic, mac) <==>
              g in existing && (!(mic <= g < mac) || Blocked(existing, failing, mic, g))
    decreases mac - mic
  {
    hide Blocked;
    if mic < mac {
      if mic in existing && mic in failing {
        FirstBlocks(existing, failing, mic, g);
      } else {
        KeptAt(existing - {mic}, failing, mic + 1, mac, g);
        if mic < g { BlockedFrom(existing, failing, mic, g); }
        if g == mic { NotBlockedByItself(existing, failing, mic); }
      }
    }
  }

  lemma FirstBlocks(existing: set<nat>, failing: set<nat>, mic: nat, g: nat)
    requires mic in existing && mic in failing
    ensures mic <= g ==> Blocked(existing, failing, mic, g)
  {
  }

  lemma NotBlockedByItself(existing: set<nat>, failing: set<nat>, mic: nat)
    requires !(mic in existing && mic in failing)
    ensures !Blocked(existing, failing, mic, mic)
  {
  }

  /** Deletion removes what is in the range up to the first file that cannot be deleted, which stays with all behind it. */
  lemma KeptExactly(existing: set<nat>, failing: set<nat>, mic: nat, mac: nat)
    ensures forall g :: g in Kept(existing, failing, mic, mac) <==>
                          g in existing && (!(mic <= g < mac) || Blocked(existing, failing, mic, g))
  {
    hide Kept, Blocked;
    forall g: nat
      ensures g in Kept(existing, failing, mic, mac) <==>
                g in existing && (!(mic <= g < mac) || Blocked(existing, failing, mic, g))
    {
      KeptAt(existing, failing, mic, mac, g);
    }
  }

  /** The tests of ErrBKTruncateLog before it deletes. */
  ghost predicate MayTruncate(s: Session)
  {
    && Asked(s) == Ok && s.handle == Free && s.logs.copyMic != 0 && s.logs.copyMac != 0
    && s.logs.genDone >= CopyMust(s.logs.copyMic, s.logs.copyMac)
  }

  /** ErrBKTruncateLog deletes exactly these files; it reports success if and only if it may truncate and no file of the
      range has stayed. */
  lemma TruncatedExactly(s: Session, failing: set<nat>)
    ensures forall g: nat :: Deleted(s, failing, g) <==>
              MayTruncate(s) && g in s.log.existing && s.logs.deleteMic <= g < s.logs.deleteMac
              && !Blocked(s.log.existing, failing, s.logs.deleteMic, g)
    ensures TruncateStep(s, failing).err == Ok <==>
              MayTruncate(s) && forall g :: g in s.log.existing && s.logs.deleteMic <= g < s.logs.deleteMac ==> g !in failing
  {
    hide Kept, CopyMust;
    var existing, mic, mac := s.log.existing, s.logs.deleteMic, s.logs.deleteMac;
    KeptExactly(existing, failing, mic, mac);
    if g :| g in existing && mic <= g < mac && g in failing { assert Blocked(existing, failing, mic, g); }
    if g :| g in Kept(existing, failing, mic, mac) && mic <= g < mac { assert Blocked(existing, failing, mic, g); }
  }

  /** Some run of other commands leads from a successful preparation to t. */
  ghost predicate AfterPreparation(s: Session, p: Prep, commands: seq<Command>, t: Session)
  {
    && Preparing(s, p) && |s.dbs| == |s.history.held| && GetLogInfoStep(s, p).err == Ok && NoBegin(commands)
    && Valid(GetLogInfoStep(s, p).s) && Runs(GetLogInfoStep(s, p).s, commands, t)
  }

  /** From log preparation to truncation, in every run: a truncation that succeeds deletes every log there is from the
      lowest one that preparation found up to the end of the range, and no other. */
  lemma TruncationIsComplete(s: Session, p: Prep, commands: seq<Command>, t: Session, failing: set<nat>)
    requires AfterPreparation(s, p, commands, t) && TruncateStep(t, failing).err == Ok
    ensures if s.phase.full then IsLimit(s.dbs, if p.checkpoint <= p.mac then p.checkpoint else p.mac, t.logs.deleteMac)
            else t.logs.deleteMac == if p.checkpoint <= p.mac then p.checkpoint else p.mac
    ensures forall g :: g in t.log.existing && p.lowest <= g < t.logs.deleteMac ==> Deleted(t, failing, g)
    ensures forall g: nat :: Deleted(t, failing, g) ==> g < t.logs.deleteMac
  {
    hide Valid, IsLimit, Runs, NoBegin, Asked, ProperPrep, GetLogInfoStep, TruncateStep, Deleted, MayTruncate;
    PreparedRanges(s, p);
    RangesStay(GetLogInfoStep(s, p).s, commands, t);
    TruncatedExactly(t, failing);
    NothingBlocks(t.log.existing, failing, t.logs.deleteMic, t.logs.deleteMac);
  }

  lemma NothingBlocks(existing: set<nat>, failing: set<nat>, mic: nat, mac: nat)
    requires forall g :: g in existing && mic <= g < mac ==> g !in failing
    ensures forall g :: mic <= g < mac ==> !Blocked(existing, failing, mic, g)
  {
  }

  // ------------------------------------------------------------------ the records

  /** The records of a database after a completed backup that it took part in: the one of its kind is replaced unless it is
      younger, a truncating full backup clears the incremental and the differential one, and the others stay. */
  lemma OneRecordChanges(s: Session, d: nat, truncateDone: bool, unlogged: set<nat>)
    requires Valid(s) && s.phase.inProgress && !s.phase.stop && s.phase.status != Databases && s.logs.copyMic != 0
    requires d < |s.dbs| && s.dbs[d].logged && s.dbs[d].attached && s.dbs[d].inSession && d !in unlogged
    requires s.phase.full ==> s.dbs[d].done
    ensures |s.dbs| == |s.history.held| && s.logs.copyMac > 0
    ensures var db, t := s.dbs[d], CleanUp(s, true, truncateDone, false, unlogged).s.dbs[d];
      var truncating := truncateDone || s.phase.truncated;
      var info := BkInfo(if s.phase.full then s.fullMark else s.incMark, s.logs.copyMic, s.logs.copyMac - 1);
      && (s.phase.full && truncating ==> t.full == info && t.inc == NO_BACKUP && t.diff == NO_BACKUP && t.copy == db.copy)
      && (s.phase.full && !truncating ==>
            t.copy == (if db.copy.mark > info.mark then db.copy else info) && t.full == db.full && t.inc == db.inc && t.diff == db.diff)
      && (!s.phase.full && truncating ==> t.inc == info && t.full == db.full && t.diff == db.diff && t.copy == db.copy)
      && (!s.phase.full && !truncating ==>
            t.diff == (if db.diff.mark > info.mark then db.diff else info) && t.full == db.full && t.inc == db.inc && t.copy == db.copy)
  {
    Lengths(s);
    Bounds(s);
    var truncating := truncateDone || s.phase.truncated;
    assert s.dbs[d].full.mark <= s.fullMark || !s.phase.full;
    assert s.dbs[d].inc.mark <= s.incMark;
    hide ValidDbs, ValidDelete, ValidCount, ValidRoll;
    assert CleanUp(s, true, truncateDone, false, unlogged).s.dbs[d] == EndDb(s, d, true, truncating, unlogged);
  }

  ghost predicate SameRecords(a: Db, b: Db) { a.full == b.full && a.inc == b.inc && a.copy == b.copy && a.diff == b.diff }

  /** All records stay if the backup was stopped, did not come to its logs, ended abnormally or on its caller's word, and
      those of a database that took no part in it. */
  lemma RecordsStay(s: Session, d: nat, ok: bool, truncateDone: bool, noHeader: bool, unlogged: set<nat>)
    requires Valid(s) && d < |s.dbs|
    requires !ok || noHeader || !s.phase.inProgress || s.phase.stop || s.phase.status == Databases
             || !s.dbs[d].logged || !s.dbs[d].attached || !s.dbs[d].inSession || d in unlogged || (s.phase.full && !s.dbs[d].done)
    ensures |s.dbs| == |s.history.held|
    ensures SameRecords(CleanUp(s, ok, truncateDone, noHeader, unlogged).s.dbs[d], s.dbs[d])
  {
    Lengths(s);
    hide Valid, HeaderUpdate, NewRecord;
    if s.phase.inProgress {
      var header := ok && !s.phase.stop && s.phase.status != Databases && !noHeader;
      assert CleanUp(s, ok, truncateDone, noHeader, unlogged).s.dbs[d]
             == EndDb(s, d, header, truncateDone || s.phase.truncated, unlogged);
    }
  }

  // ------------------------------------------------------------------ stopping

  ghost predicate AllRecordsSame(s: Session, t: Session)
  {
    |s.dbs| == |t.dbs| && forall d :: 0 <= d < |s.dbs| ==> SameRecords(t.dbs[d], s.dbs[d])
  }

  lemma HaltedStep(s: Session, c: Command)
    requires Valid(s) && Proper(s, c) && (s.phase.inProgress ==> s.phase.stop) && !c.Begin?
    ensures c.ReadDatabase? || c.ReadLog? ==> s.phase.inProgress
    ensures var r := Step(s, c);
      && Valid(r.s) && (r.s.phase.inProgress ==> r.s.phase.stop) && AllRecordsSame(s, r.s)
      && (!c.Progress? ==> r.s.log == s.log)
      && (c.OpenDatabase? || c.ReadDatabase? || c.OpenLog? || c.ReadLog? || c.GetLogInfo? || c.TruncateLog? ==>
            r.err == if s.phase.inProgress then AbortByServer else NoBackup)
  {
    StepKeeps(s, c);
    Lengths(s);
    if c.End? {
      forall d: nat | d < |s.dbs| ensures SameRecords(Step(s, c).s.dbs[d], s.dbs[d]) {
        RecordsStay(s, d, c.normal, c.truncateDone, c.noHeader, c.unlogged);
      }
    }
    hide Valid, EndDb, Kept, CopyMust;
  }

  /** From the stop on, whatever is called until the next backup begins: nothing is opened, read, listed or deleted, and no
      record changes, however the backup is ended. */
  lemma StopIsFinal(s: Session, commands: seq<Command>, t: Session)
    requires Valid(s) && Valid(Step(s, Stop).s) && Runs(Step(s, Stop).s, commands, t) && NoBegin(commands)
    ensures AllRecordsSame(s, t)
    ensures forall failing: set<nat> :: TruncateStep(t, failing).s == t && TruncateStep(t, failing).err in {AbortByServer, NoBackup}
  {
    hide Valid, Runs;
    assert Step(s, Stop).s == s.(phase := s.phase.(stop := true));
    Halted(Step(s, Stop).s, commands, t);
  }

  lemma {:induction false} Halted(s: Session, commands: seq<Command>, t: Session)
    requires Valid(s) && (s.phase.inProgress ==> s.phase.stop) && Runs(s, commands, t) && NoBegin(commands)
    ensures AllRecordsSame(s, t) && (t.phase.inProgress ==> t.phase.stop)
    decreases |commands|
  {
    hide Valid, Proper, Step;
    if commands != [] {
      assert !commands[0].Begin?;
      HaltedStep(s, commands[0]);
      Halted(Step(s, commands[0]).s, commands[1..], t);
    }
  }

  // ------------------------------------------------------------------ refusals

  /** A backup begins only if logging is on and has not failed, log space is left, the logs are kept if it is
      incremental, and none is in progress; a refusal names the first of these that is not so, and changes nothing. */
  lemma RefusedExactly(s: Session, incremental: bool, i: Instance, io: bool)
    ensures var r := BeginStep(s, incremental, i, io);
      && (i.logDisabled ==> r == Reply(s, LoggingDisabled))
      && (!i.logDisabled && i.logFailed ==> r == Reply(s, LogWriteFail))
      && (!i.logDisabled && !i.logFailed && incremental && i.circular ==> r == Reply(s, InvalidBackup))
      && (!i.logDisabled && !i.logFailed && !(incremental && i.circular) && i.exhausted ==> r == Reply(s, LogStateBad))
      && (!i.logDisabled && !i.logFailed && !(incremental && i.circular) && !i.exhausted && s.phase.inProgress ==>
            r == Reply(s, BackupInProgress))
    ensures BeginStep(s, incremental, i, io).err == Ok <==>
              !i.logDisabled && !i.logFailed && !(incremental && i.circular) && !i.exhausted && !s.phase.inProgress
              && (if incremental then
                    forall d :: 0 <= d < |s.dbs| && s.dbs[d].attached ==> s.dbs[d].full.low != 0 && !s.dbs[d].snapshotFull
                  else io)
  {
    if incremental {
      QualifyJoined(s.dbs);
      if !AllQualify(s.dbs) {
        var d :| 0 <= d < |s.dbs| && !QualifiesForIncremental(s.dbs[d]);
        assert s.dbs[d].attached;
      } else {
        forall d | 0 <= d < |s.dbs| && s.dbs[d].attached ensures s.dbs[d].full.low != 0 && !s.dbs[d].snapshotFull {
          assert QualifiesForIncremental(s.dbs[d]);
        }
      }
    }
  }

  lemma QualifyJoined(dbs: seq<Db>)
    ensures AllQualify(AllJoined(dbs, true)) <==> AllQualify(dbs)
  {
    forall d | 0 <= d < |dbs|
      ensures QualifiesForIncremental(AllJoined(dbs, true)[d]) <==> QualifiesForIncremental(dbs[d])
    {
    }
    if AllQualify(AllJoined(dbs, true)) {
      forall d | 0 <= d < |dbs| ensures QualifiesForIncremental(dbs[d]) {
        assert QualifiesForIncremental(AllJoined(dbs, true)[d]);
      }
    }
  }
}
