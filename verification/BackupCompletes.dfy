/** What a backup is for: from every state at rest, a full backup, and an incremental one where it is allowed, can be
    carried through by the calls of a client to records of all databases and the deletion of all logs behind the
    checkpoint (ese/backup.cxx:1628-1913, 2125-3149, 3155-3561, 4130-4436). */
module BackupCompletes {
  import opened GenerationSum
  import opened BackupSpec
  import opened BackupRuns
  import opened BackupSafety
  import opened BackupRanges

  /** No backup is in progress, and no log from a generation on is missing. */
  ghost predicate AtRest(s: Session, from: nat)
  {
    Valid(s) && !s.phase.inProgress && 1 <= from && forall g :: from <= g < s.log.current ==> g in s.log.existing
  }

  /** The log after the roll, with the checkpoint moved on. */
  function RolledLog(l: Log, checkpoint: nat): Log { Log(l.current + 1, checkpoint, l.tip, l.existing + {l.current}) }

  ghost predicate Lowest(l: Log, lowest: nat)
  {
    lowest in l.existing + {l.current} && forall g :: g in l.existing + {l.current} ==> lowest <= g
  }

  function Roll(l: Log, checkpoint: nat, lowest: nat): Prep
  {
    Prep(NoFault, RolledLog(l, checkpoint), l.current + 1, l.tip, lowest, checkpoint, Listed)
  }

  lemma RollIsProper(l: Log, checkpoint: nat, lowest: nat)
    requires ValidLog(l) && l.checkpoint <= checkpoint <= l.current + 1 && Lowest(l, lowest)
    ensures ProperPrep(l, Roll(l, checkpoint, lowest)) && 1 <= lowest <= l.current
  {
  }

  // ------------------------------------------------------------------ copying the logs

  function Gens(mic: nat, m: nat): (gens: seq<nat>)
    ensures |gens| == m && forall i :: 0 <= i < m ==> gens[i] == mic + i
  {
    seq(m, i requires 0 <= i => mic + i)
  }

  /** The list of logs has been given out and none has been read. */
  ghost predicate LogsListed(l: Session)
  {
    && Valid(l) && Asked(l) == Ok && l.handle == Free && l.phase.status == LogsAndPatches
    && 1 <= l.logs.copyMic < l.logs.copyMac && l.logs.genDone == 0 && l.history.closes == [] && l.history.clean
    && forall g :: l.logs.copyMic <= g < l.logs.copyMac ==> g in l.log.existing
  }

  /** The first m logs of the range have been read. */
  function LogsRead(l: Session, m: nat): Session
  {
    l.(logs := l.logs.(genDone := SumTo(l.logs.copyMic, l.logs.copyMic + m)),
       history := l.history.(closes := Gens(l.logs.copyMic, m)))
  }

  /** Open, read and close one log. */
  lemma ReadNext(start: Session, l: Session, m: nat)
    requires LogsListed(l) && l.logs.copyMic + m < l.logs.copyMac
    requires Reached(start, LogsRead(l, m)) && Valid(LogsRead(l, m))
    ensures Reached(start, LogsRead(l, m + 1)) && Valid(LogsRead(l, m + 1))
  {
    hide Reached, Valid;
    var s, g := LogsRead(l, m), l.logs.copyMic + m;
    Lengths(s);
    var atOpen := s.(handle := LogHandle(g, 0, 0, 1));
    Next(start, s, OpenLog(g, 0, 1, true), atOpen);
    Next(start, atOpen, ReadLog(1, true), atOpen.(handle := LogHandle(g, 0, 1, 1)));
    assert g !in Gens(l.logs.copyMic, m);
    assert Gens(l.logs.copyMic, m) + [g] == Gens(l.logs.copyMic, m + 1);
    Next(start, atOpen.(handle := LogHandle(g, 0, 1, 1)), Command.Close, LogsRead(l, m + 1));
  }

  lemma {:induction false} LogsCanBeRead(start: Session, l: Session, m: nat)
    requires LogsListed(l) && l.logs.copyMic + m <= l.logs.copyMac && Reached(start, l)
    ensures Reached(start, LogsRead(l, m)) && Valid(LogsRead(l, m))
  {
    hide Reached, Valid;
    if m == 0 {
      assert LogsRead(l, 0) == l;
    } else {
      LogsCanBeRead(start, l, m - 1);
      ReadNext(start, l, m - 1);
    }
  }

  /** After truncation. */
  ghost function LogsDeleted(l: Session): Session
    requires l.logs.copyMic <= l.logs.copyMac
  {
    var all := LogsRead(l, l.logs.copyMac - l.logs.copyMic);
    all.(phase := all.phase.(truncated := true),
         log := l.log.(existing := Kept(l.log.existing, {}, l.logs.deleteMic, l.logs.deleteMac)))
  }

  lemma LogsCanBeDeleted(start: Session, l: Session)
    requires LogsListed(l) && Reached(start, l)
    ensures Reached(start, LogsDeleted(l)) && Valid(LogsDeleted(l))
    ensures forall g: nat :: g in LogsDeleted(l).log.existing <==> g in l.log.existing && !(l.logs.deleteMic <= g < l.logs.deleteMac)
    ensures Elements(LogsDeleted(l).history.closes) == Range(l.logs.copyMic, l.logs.copyMac)
  {
    hide Reached, Valid;
    var n: nat := l.logs.copyMac - l.logs.copyMic;
    LogsCanBeRead(start, l, n);
    CopyMustIsSum(l.logs.copyMic, l.logs.copyMac);
    var all := LogsRead(l, n);
    KeptExactly(l.log.existing, {}, l.logs.deleteMic, l.logs.deleteMac);
    Truncates(all);
    Next(start, all, TruncateLog({}), LogsDeleted(l));
    AllElements(l.logs.copyMic, n);
  }

  lemma Truncates(s: Session)
    requires MayTruncate(s) && s.phase.status == LogsAndPatches
    ensures TruncateStep(s, {}).s
            == s.(phase := s.phase.(truncated := true),
                  log := s.log.(existing := Kept(s.log.existing, {}, s.logs.deleteMic, s.logs.deleteMac)))
  {
  }

  lemma AllElements(mic: nat, m: nat)
    ensures Elements(Gens(mic, m)) == Range(mic, mic + m)
  {
    forall g: nat ensures g in Elements(Gens(mic, m)) <==> g in Range(mic, mic + m) {
      if mic <= g < mic + m { assert Gens(mic, m)[g - mic] == g; }
    }
  }

  // ------------------------------------------------------------------ a full backup

  function Begun(s: Session): Session
  {
    s.(phase := Phase(true, false, Databases, true, false, false),
       logs := LogRanges(s.log.checkpoint, 0, 0, 0, s.logs.genDone), fullMark := s.log.tip, dbs := CopiedDbs(s, 0))
  }

  function CopiedDb(s: Session, db: Db): Db
  {
    db.(inSession := true, done := true, patch := BkInfo(s.log.tip, s.log.checkpoint, s.log.current))
  }

  /** The first m databases have been copied. */
  function CopiedDbs(s: Session, m: nat): (dbs: seq<Db>)
    ensures |dbs| == |s.dbs|
    ensures forall d :: 0 <= d < |dbs| ==> dbs[d] == if d < m then CopiedDb(s, s.dbs[d]) else Joined(s.dbs[d], false)
  {
    seq(|s.dbs|, d requires 0 <= d < |s.dbs| => if d < m then CopiedDb(s, s.dbs[d]) else Joined(s.dbs[d], false))
  }

  lemma FullBegins(s: Session)
    requires AtRest(s, s.log.checkpoint)
    ensures Reached(s, Begun(s)) && Valid(Begun(s))
  {
    assert Runs(s, [], s);
    assert AllJoined(s.dbs, false) == CopiedDbs(s, 0);
    hide Valid, Runs;
    Next(s, s, Begin(false, READY, true), Begun(s));
  }

  /** Open, read to the trailer, and close one database. */
  lemma CopyNext(s: Session, m: nat)
    requires m < |s.dbs| && s.handle == Free && Reached(s, Begun(s).(dbs := CopiedDbs(s, m))) && Valid(Begun(s).(dbs := CopiedDbs(s, m)))
    ensures Reached(s, Begun(s).(dbs := CopiedDbs(s, m + 1))) && Valid(Begun(s).(dbs := CopiedDbs(s, m + 1)))
  {
    hide Reached, Valid, Joined;
    var before := Begun(s).(dbs := CopiedDbs(s, m));
    Lengths(before);
    var db := s.dbs[m];
    var joined := CopiedDbs(s, m)[m].(inSession := true);
    var atOpen := before.(dbs := before.dbs[m := joined], handle := DbHandle(m, false));
    Opens(before, m);
    Next(s, before, OpenDatabase(m, true, true), atOpen);
    var read := joined.(patch := BkInfo(s.log.tip, s.log.checkpoint, s.log.current));
    var atEnd := before.(dbs := before.dbs[m := read], handle := DbHandle(m, true));
    assert atOpen.dbs[m := read] == atEnd.dbs;
    Next(s, atOpen, ReadDatabase(true, true), atEnd);
    JoinedIs(db);
    assert atEnd.dbs[m := read.(done := true)] == CopiedDbs(s, m + 1);
    Next(s, atEnd, Command.Close, Begun(s).(dbs := CopiedDbs(s, m + 1)));
  }

  lemma Opens(s: Session, m: nat)
    requires m < |s.dbs| == |s.history.held| && Asked(s) == Ok && s.handle == Free && s.phase.full
    requires s.phase.status == Databases && !s.phase.begun
    ensures OpenDatabaseStep(s, m, true, true).s
            == s.(dbs := s.dbs[m := s.dbs[m].(inSession := true)], handle := DbHandle(m, false))
  {
  }

  lemma JoinedIs(db: Db)
    ensures Joined(db, false) == db.(inSession := false, done := false)
  {
  }

  lemma {:induction false} DatabasesCanBeCopied(s: Session, m: nat)
    requires AtRest(s, s.log.checkpoint) && m <= |s.dbs|
    ensures Reached(s, Begun(s).(dbs := CopiedDbs(s, m))) && Valid(Begun(s).(dbs := CopiedDbs(s, m)))
  {
    hide Reached, Valid, AtRest, CopiedDbs;
    if m == 0 {
      FullBegins(s);
    } else {
      FromRest(s);
      DatabasesCanBeCopied(s, m - 1);
      CopyNext(s, m - 1);
    }
  }

  /** Ranges and list of logs of the full backup. */
  function FullListed(s: Session, checkpoint: nat, lowest: nat): Session
  {
    Begun(s).(phase := Phase(true, false, LogsAndPatches, true, true, false), dbs := CopiedDbs(s, |s.dbs|),
              logs := LogRanges(s.log.checkpoint, s.log.current + 1, Min(checkpoint, lowest), checkpoint, 0),
              log := RolledLog(s.log, checkpoint),
              history := s.history.(closes := [], clean := true, left := {}, reopened := {}))
  }

  lemma {:induction false} NoneIsLeftOut(dbs: seq<Db>, mac: nat)
    requires forall d :: 0 <= d < |dbs| ==> dbs[d].inSession && dbs[d].done
    ensures DeleteLimit(dbs, mac) == mac && (set d: nat | d < |dbs| && LeftOut(dbs[d])) == {}
  {
    if dbs != [] { NoneIsLeftOut(dbs[..|dbs| - 1], mac); }
  }

  lemma FullLists(s: Session, checkpoint: nat, lowest: nat)
    requires AtRest(s, s.log.checkpoint) && s.log.checkpoint <= checkpoint <= s.log.current + 1 && Lowest(s.log, lowest)
    ensures Reached(s, FullListed(s, checkpoint, lowest)) && LogsListed(FullListed(s, checkpoint, lowest))
  {
    hide Reached, Valid, CopiedDbs, ProperPrep, FullListed;
    DatabasesCanBeCopied(s, |s.dbs|);
    FromRest(s);
    RollIsProper(s.log, checkpoint, lowest);
    var copied := Begun(s).(dbs := CopiedDbs(s, |s.dbs|));
    Lengths(copied);
    FullPrepares(s, checkpoint, lowest);
    Next(s, copied, GetLogInfo(Roll(s.log, checkpoint, lowest)), FullListed(s, checkpoint, lowest));
    FullIsListed(s, checkpoint, lowest);
  }

  lemma FromRest(s: Session)
    requires AtRest(s, s.log.checkpoint)
    ensures ValidLog(s.log) && |s.dbs| == |s.history.held| && s.handle == Free
    ensures forall g :: s.log.checkpoint <= g <= s.log.current ==> g in s.log.existing + {s.log.current}
  {
  }

  lemma FullPrepares(s: Session, checkpoint: nat, lowest: nat)
    requires s.log.checkpoint <= checkpoint <= s.log.current + 1 && 1 <= lowest && |s.dbs| == |s.history.held| && s.handle == Free
    ensures GetLogInfoStep(Begun(s).(dbs := CopiedDbs(s, |s.dbs|)), Roll(s.log, checkpoint, lowest)).s == FullListed(s, checkpoint, lowest)
  {
    NoneIsLeftOut(CopiedDbs(s, |s.dbs|), checkpoint);
    hide DeleteLimit, LeftOut, CopiedDbs;
  }

  lemma FullIsListed(s: Session, checkpoint: nat, lowest: nat)
    requires Valid(FullListed(s, checkpoint, lowest)) && s.handle == Free && 1 <= s.log.checkpoint <= s.log.current
    requires forall g :: s.log.checkpoint <= g <= s.log.current ==> g in s.log.existing + {s.log.current}
    ensures LogsListed(FullListed(s, checkpoint, lowest))
  {
    hide Valid, CopiedDbs;
  }

  /** From every state at rest with the logs from the checkpoint on, wherever the roll leaves the checkpoint: a client can
      make a full backup after which every attached and logged database has a full record of the whole range, a clean copy
      of its logs, and no log behind the checkpoint is left. */
  lemma FullBackupCanComplete(s: Session, checkpoint: nat, lowest: nat) returns (commands: seq<Command>, t: Session)
    requires AtRest(s, s.log.checkpoint) && s.log.checkpoint <= checkpoint <= s.log.current + 1 && Lowest(s.log, lowest)
    ensures Runs(s, commands, t) && !t.phase.inProgress && |t.dbs| == |s.dbs| == |t.history.held|
    ensures forall d :: 0 <= d < |s.dbs| && s.dbs[d].logged && s.dbs[d].attached ==>
              && t.dbs[d].full == BkInfo(s.log.tip, s.log.checkpoint, s.log.current) && t.dbs[d].inc == NO_BACKUP
              && t.history.held[d] == Held(Range(s.log.checkpoint, s.log.current + 1), Range(s.log.checkpoint, s.log.current + 1), true)
    ensures forall g: nat :: g in t.log.existing <==> (g in s.log.existing || g == s.log.current) && g >= checkpoint
  {
    hide Valid, AtRest, LogsListed, LogsDeleted, CleanUp, Range, Elements, CopiedDbs;
    FromRest(s);
    FullLists(s, checkpoint, lowest);
    var l := FullListed(s, checkpoint, lowest);
    LogsCanBeDeleted(s, l);
    var u := LogsDeleted(l);
    DeletedFull(s, checkpoint, lowest);
    Lengths(u);
    t := CleanUp(u, true, false, false, {}).s;
    Next(s, u, End(true, false, false, {}), t);
    commands :| Runs(s, commands, t);
    Ended(u);
    forall d: nat | d < |s.dbs| && s.dbs[d].logged && s.dbs[d].attached
      ensures t.dbs[d].full == BkInfo(s.log.tip, s.log.checkpoint, s.log.current) && t.dbs[d].inc == NO_BACKUP
      ensures t.history.held[d] == Held(Range(s.log.checkpoint, s.log.current + 1), Range(s.log.checkpoint, s.log.current + 1), true)
    {
      RecordAfter(u, d);
    }
  }

  /** The records and what is held after truncation and a normal end. */
  lemma RecordAfter(u: Session, d: nat)
    requires Valid(u) && u.phase.inProgress && !u.phase.stop && u.phase.status == LogsAndPatches && u.phase.truncated
    requires u.history.clean && u.logs.copyMic != 0 && d < |u.dbs| && Updated(u, d, {})
    requires Elements(u.history.closes) == Range(u.logs.copyMic, u.logs.copyMac)
    ensures |u.dbs| == |u.history.held|
    ensures var t, range := CleanUp(u, true, false, false, {}).s, Range(u.logs.copyMic, u.logs.copyMac);
      && |t.dbs| == |t.history.held| == |u.dbs|
      && (u.phase.full ==>
            && t.dbs[d].full == BkInfo(u.fullMark, u.logs.copyMic, u.logs.copyMac - 1) && t.dbs[d].inc == NO_BACKUP
            && t.history.held[d] == Held(range, range, true))
      && (!u.phase.full ==>
            && t.dbs[d].inc == BkInfo(u.incMark, u.logs.copyMic, u.logs.copyMac - 1) && t.dbs[d].full == u.dbs[d].full
            && t.history.held[d].ranges == u.history.held[d].ranges + range
            && t.history.held[d].copies == u.history.held[d].copies + range)
  {
    hide Valid, Updated, Elements;
    Lengths(u);
    Ended(u);
    CompletionIsRecorded(u, d, false, {});
    HeldAfter(u, d);
  }

  lemma DeletedFull(s: Session, checkpoint: nat, lowest: nat)
    requires 1 <= s.log.checkpoint <= s.log.current
    ensures var u := LogsDeleted(FullListed(s, checkpoint, lowest));
      && u.phase == Phase(true, false, LogsAndPatches, true, true, true) && u.fullMark == s.log.tip && u.history.clean
      && u.logs.copyMic == s.log.checkpoint && u.logs.copyMac == s.log.current + 1 && u.dbs == CopiedDbs(s, |s.dbs|)
  {
  }

  lemma Ended(u: Session)
    requires |u.dbs| == |u.history.held| && u.phase.inProgress && !u.phase.stop && u.phase.status == LogsAndPatches
    ensures var t := CleanUp(u, true, false, false, {}).s;
      !t.phase.inProgress && |t.dbs| == |u.dbs| == |t.history.held| && t.log == u.log
  {
  }

  /** What is held after a truncating backup with a clean copy. */
  lemma HeldAfter(u: Session, d: nat)
    requires |u.dbs| == |u.history.held| && d < |u.dbs| && u.phase.inProgress && !u.phase.stop && u.phase.status == LogsAndPatches
    requires u.phase.truncated && u.history.clean && u.logs.copyMic != 0 && Updated(u, d, {})
    ensures var t, range := CleanUp(u, true, false, false, {}).s, Range(u.logs.copyMic, u.logs.copyMac);
      && d < |t.history.held|
      && (u.phase.full ==> t.history.held[d] == Held(range, Elements(u.history.closes), true))
      && (!u.phase.full ==>
            var h := u.history.held[d]; t.history.held[d] == Held(h.ranges + range, h.copies + Elements(u.history.closes), h.certain))
  {
    assert CleanUp(u, true, false, false, {}).s.history.held[d] == EndHeld(u, d, true, true, {});
  }

  // ------------------------------------------------------------------ an incremental backup

  /** Every attached database has a full backup of its own kind, and no log since its last record is missing. */
  ghost predicate CanGoOn(s: Session, lowest: nat)
  {
    forall d :: 0 <= d < |s.dbs| && s.dbs[d].attached ==>
      && s.dbs[d].full.low != 0 && !s.dbs[d].snapshotFull
      && (lowest <= s.dbs[d].full.high + 1 || lowest <= s.dbs[d].inc.high + 1)
  }

  function IncrementalListed(s: Session, checkpoint: nat, lowest: nat, dbs: seq<Db>): Session
  {
    s.(phase := Phase(true, false, LogsAndPatches, false, true, false), dbs := dbs, incMark := s.log.tip,
       logs := LogRanges(lowest, s.log.current + 1, lowest, checkpoint, 0), log := RolledLog(s.log, checkpoint),
       history := s.history.(closes := [], clean := true, reopened := {}))
  }

  lemma GensAtRest(s: Session, lowest: nat)
    requires AtRest(s, lowest) && Lowest(s.log, lowest)
    ensures 1 <= lowest <= s.log.current
  {
  }

  lemma GoesOn(s: Session, lowest: nat)
    requires CanGoOn(s, lowest)
    ensures AllQualify(AllJoined(s.dbs, true)) && AllContinue(AllJoined(s.dbs, true), lowest)
  {
    forall d | 0 <= d < |s.dbs|
      ensures QualifiesForIncremental(AllJoined(s.dbs, true)[d]) && Continues(AllJoined(s.dbs, true)[d], lowest)
    {
    }
  }

  lemma IncrementalLists(s: Session, checkpoint: nat, lowest: nat)
    requires AtRest(s, lowest) && s.log.checkpoint <= checkpoint <= s.log.current + 1 && Lowest(s.log, lowest) && CanGoOn(s, lowest)
    ensures var l := IncrementalListed(s, checkpoint, lowest, AllJoined(s.dbs, true)); Reached(s, l) && LogsListed(l)
  {
    GoesOn(s, lowest);
    assert Runs(s, [], s);
    RollIsProper(s.log, checkpoint, lowest);
    hide Valid, Runs, AllQualify, AllContinue, ProperPrep, ValidLog;
    var begun := s.(phase := Phase(true, false, LogsAndPatches, false, false, false),
                    logs := LogRanges(0, 0, 0, 0, s.logs.genDone), dbs := AllJoined(s.dbs, true));
    Next(s, s, Begin(true, READY, true), begun);
    Lengths(begun);
    Next(s, begun, GetLogInfo(Roll(s.log, checkpoint, lowest)), IncrementalListed(s, checkpoint, lowest, AllJoined(s.dbs, true)));
  }

  /** From every state at rest in which no log from the lowest on is missing and every attached database can go on from its
      records: a client can make an incremental backup after which every attached and logged database has a record of all
      logs there were, and holds copies of them, and no log behind the checkpoint is left. */
  lemma IncrementalBackupCanComplete(s: Session, checkpoint: nat, lowest: nat) returns (commands: seq<Command>, t: Session)
    requires AtRest(s, lowest) && s.log.checkpoint <= checkpoint <= s.log.current + 1 && Lowest(s.log, lowest) && CanGoOn(s, lowest)
    ensures Runs(s, commands, t) && !t.phase.inProgress && |t.dbs| == |s.dbs| == |t.history.held| == |s.history.held|
    ensures forall d :: 0 <= d < |s.dbs| && s.dbs[d].logged && s.dbs[d].attached ==>
              && t.dbs[d].inc == BkInfo(s.log.tip, lowest, s.log.current) && t.dbs[d].full == s.dbs[d].full
              && t.history.held[d].ranges == s.history.held[d].ranges + Range(lowest, s.log.current + 1)
              && t.history.held[d].copies == s.history.held[d].copies + Range(lowest, s.log.current + 1)
    ensures forall g: nat :: g in t.log.existing <==> (g in s.log.existing || g == s.log.current) && g >= checkpoint
  {
    hide Valid, AtRest, LogsListed, LogsDeleted, CleanUp, Range, Elements, CanGoOn;
    GensAtRest(s, lowest);
    IncrementalLists(s, checkpoint, lowest);
    Lengths(s);
    var l := IncrementalListed(s, checkpoint, lowest, AllJoined(s.dbs, true));
    LogsCanBeDeleted(s, l);
    var u := LogsDeleted(l);
    DeletedIncremental(s, checkpoint, lowest);
    Lengths(u);
    t := CleanUp(u, true, false, false, {}).s;
    Next(s, u, End(true, false, false, {}), t);
    commands :| Runs(s, commands, t);
    Ended(u);
    forall d: nat | d < |s.dbs| && s.dbs[d].logged && s.dbs[d].attached
      ensures t.dbs[d].inc == BkInfo(s.log.tip, lowest, s.log.current) && t.dbs[d].full == s.dbs[d].full
      ensures t.history.held[d].ranges == s.history.held[d].ranges + Range(lowest, s.log.current + 1)
      ensures t.history.held[d].copies == s.history.held[d].copies + Range(lowest, s.log.current + 1)
    {
      RecordAfter(u, d);
    }
  }

  lemma DeletedIncremental(s: Session, checkpoint: nat, lowest: nat)
    requires 1 <= lowest <= s.log.current
    ensures var u := LogsDeleted(IncrementalListed(s, checkpoint, lowest, AllJoined(s.dbs, true)));
      && u.phase == Phase(true, false, LogsAndPatches, false, true, true) && u.incMark == s.log.tip && u.history.clean
      && u.history.held == s.history.held
      && u.logs.copyMic == lowest && u.logs.copyMac == s.log.current + 1 && u.dbs == AllJoined(s.dbs, true)
  {
  }
}
