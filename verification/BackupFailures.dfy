/** Runs, from an instance whose database has never been backed up, in which a backup does not do what it is for. */
module BackupFailures {
  import opened GenerationSum
  import opened BackupSpec
  import opened BackupRuns
  import opened BackupSafety

  /** A run reaches the state without reading from a log. */
  ghost predicate ReachedUnread(start: Session, s: Session)
  {
    Valid(start) && exists commands :: Runs(start, commands, s) && NoLogRead(commands)
  }

  ghost predicate NoLogRead(commands: seq<Command>) { forall i :: 0 <= i < |commands| ==> !commands[i].ReadLog? }

  lemma NextUnread(start: Session, s: Session, c: Command, t: Session)
    requires ReachedUnread(start, s) && Valid(s) && Proper(s, c) && !c.ReadLog? && (c.ReadDatabase? ==> s.phase.inProgress)
    requires t == Step(s, c).s
    ensures ReachedUnread(start, t) && Reached(start, t) && Valid(t)
  {
    hide Valid, Proper, Step;
    var commands :| Runs(start, commands, s) && NoLogRead(commands);
    RunThen(start, commands, s, c);
    StepKeeps(s, c);
    assert NoLogRead(commands + [c]);
  }

  // ------------------------------------------------------------------ a full backup that has copied its database

  const FRESH: Db := Db(true, true, false, false, NO_BACKUP, false, NO_BACKUP, NO_BACKUP, NO_BACKUP, NO_BACKUP)
  const COPIED: Db := FRESH.(inSession := true, done := true, patch := BkInfo(0, 5, 5))
  const NO_HISTORY: History := History([], false, {}, {}, [Held({}, {}, false)])

  function Idle(): Session
  {
    Session(Phase(false, false, NotStarted, false, false, false), LogRanges(0, 0, 0, 0, 0), 0, 0, Free, [FRESH],
            Log(5, 5, 0, {1, 2, 3, 4}), NO_HISTORY)
  }

  function Begun(): Session
  {
    Idle().(phase := Phase(true, false, Databases, true, false, false), logs := LogRanges(5, 0, 0, 0, 0))
  }

  function Copied(): Session { Begun().(dbs := [COPIED]) }

  lemma ReachBegun()
    ensures Initial(Idle()) && ReachedUnread(Idle(), Begun()) && Valid(Begun())
  {
    var s := Idle();
    InitialIsValid(s);
    assert Runs(s, [], s) && NoLogRead([]);
    assert AllJoined(s.dbs, false) == [FRESH];
    NextUnread(s, s, Begin(false, READY, true), Begun());
  }

  lemma ReachCopied()
    ensures ReachedUnread(Idle(), Copied()) && Reached(Idle(), Copied()) && Valid(Copied())
  {
    ReachBegun();
    hide Reached, ReachedUnread, Valid, Initial;
    var atOpen := Begun().(dbs := [FRESH.(inSession := true)], handle := DbHandle(0, false));
    NextUnread(Idle(), Begun(), OpenDatabase(0, true, true), atOpen);
    var read := atOpen.(dbs := [COPIED.(done := false)], handle := DbHandle(0, true));
    InProgress(atOpen);
    NextUnread(Idle(), atOpen, ReadDatabase(true, true), read);
    NextUnread(Idle(), read, Command.Close, Copied());
  }

  lemma InProgress(s: Session)
    requires Valid(s) && s.handle != Free
    ensures s.phase.inProgress
  {
  }

  // ------------------------------------------------------------------ a left-out database whose logs are deleted

  /** The ranges have been set, with every log below the checkpoint to be deleted. */
  function Unlisted(): Session
  {
    Copied().(phase := Phase(true, false, Databases, true, true, false), logs := LogRanges(5, 6, 1, 6, 0),
              log := Log(6, 6, 0, {1, 2, 3, 4, 5}), history := NO_HISTORY.(clean := true))
  }

  /** The database has been opened again, and a read of it has failed. */
  function Dropped(): Session
  {
    Unlisted().(dbs := [COPIED.(inSession := false, done := false)], history := NO_HISTORY.(clean := true, reopened := {0}))
  }

  /** The log has been copied. */
  function LogCopied(): Session
  {
    Dropped().(phase := Phase(true, false, LogsAndPatches, true, true, false), logs := LogRanges(5, 6, 1, 6, 5),
               history := NO_HISTORY.(clean := true, reopened := {0}, closes := [5]))
  }

  lemma ReachUnlisted()
    ensures Reached(Idle(), Unlisted()) && Valid(Unlisted())
  {
    ReachCopied();
    hide Reached, ReachedUnread, Valid, Initial;
    var p := Prep(NoFault, Log(6, 6, 0, {1, 2, 3, 4, 5}), 6, 0, 1, 6, BadPath);
    assert DeleteLimit([COPIED], 6) == 6 by { assert [COPIED][..0] == []; }
    assert (set d: nat | d < 1 && LeftOut([COPIED][d])) == {};
    Next(Idle(), Copied(), GetLogInfo(p), Unlisted());
  }

  lemma ReachDropped()
    ensures Reached(Idle(), Dropped()) && Valid(Dropped())
  {
    ReachUnlisted();
    hide Reached, Valid, Initial;
    var atOpen := Unlisted().(handle := DbHandle(0, false), history := NO_HISTORY.(clean := true, reopened := {0}));
    Next(Idle(), Unlisted(), OpenDatabase(0, true, true), atOpen);
    InProgress(atOpen);
    Next(Idle(), atOpen, ReadDatabase(false, false), Dropped());
  }

  lemma ReachLogCopied()
    ensures Reached(Idle(), LogCopied()) && Valid(LogCopied())
  {
    ReachDropped();
    hide Reached, Valid, Initial;
    var p := Prep(NoFault, Log(7, 6, 0, {1, 2, 3, 4, 5}), 7, 0, 1, 6, Listed);
    var listed := Dropped().(phase := Phase(true, false, LogsAndPatches, true, true, false));
    Next(Idle(), Dropped(), GetLogInfo(p), listed);
    var atOpen := listed.(handle := LogHandle(5, 0, 0, 1));
    Next(Idle(), listed, OpenLog(5, 0, 1, true), atOpen);
    InProgress(atOpen);
    Next(Idle(), atOpen, ReadLog(1, true), atOpen.(handle := LogHandle(5, 0, 1, 1)));
    Next(Idle(), atOpen.(handle := LogHandle(5, 0, 1, 1)), Command.Close, LogCopied());
  }

  /** A full backup reads its only database, fails to build the list of logs, reads the database again without success,
      and goes on: it deletes the logs of the database, which has no backup at all. */
  lemma ReopenedDatabaseLosesItsLogs()
    ensures Initial(Idle()) && Reached(Idle(), LogCopied()) && LeftOut(LogCopied().dbs[0])
    ensures TruncateStep(LogCopied(), {}).err == Ok && Deleted(LogCopied(), {}, 4) && LogCopied().dbs[0].full == NO_BACKUP
    ensures !Spared(LogCopied(), 4) && !ReopenedAreSafe(LogCopied())
  {
    ReachBegun();
    ReachLogCopied();
    hide Reached, Valid, Initial;
    var s := LogCopied();
    assert CopyMust(5, 6) == 5;
    TruncatesAll(s);
    assert LeftOut(s.dbs[0]);
  }

  lemma {:induction false} KeptNone(existing: set<nat>, mic: nat, mac: nat)
    ensures forall g :: g in Kept(existing, {}, mic, mac) <==> g in existing && !(mic <= g < mac)
    decreases mac - mic
  {
    if mic < mac { KeptNone(existing - {mic}, mic + 1, mac); }
  }

  /** If the sum test passes and no file resists, every log of the range of deletion is deleted. */
  lemma TruncatesAll(s: Session)
    requires Asked(s) == Ok && s.handle == Free && s.logs.copyMic != 0 && s.logs.copyMac != 0
    requires s.logs.genDone >= CopyMust(s.logs.copyMic, s.logs.copyMac)
    ensures TruncateStep(s, {}).err == Ok
    ensures forall g :: g in s.log.existing && s.logs.deleteMic <= g < s.logs.deleteMac ==> Deleted(s, {}, g)
  {
    hide Kept;
    KeptNone(s.log.existing, s.logs.deleteMic, s.logs.deleteMac);
  }

  // ------------------------------------------------------------------ a record of logs that no backup has had

  /** The ranges have been set and the list of logs given out. */
  function ListGiven(): Session { Unlisted().(phase := Phase(true, false, LogsAndPatches, true, true, false)) }

  lemma ReachListGiven()
    ensures ReachedUnread(Idle(), ListGiven()) && Reached(Idle(), ListGiven()) && Valid(ListGiven())
  {
    ReachCopied();
    hide Reached, ReachedUnread, Valid, Initial;
    var p := Prep(NoFault, Log(6, 6, 0, {1, 2, 3, 4, 5}), 6, 0, 1, 6, Listed);
    assert DeleteLimit([COPIED], 6) == 6 by { assert [COPIED][..0] == []; }
    assert (set d: nat | d < 1 && LeftOut([COPIED][d])) == {};
    NextUnread(Idle(), Copied(), GetLogInfo(p), ListGiven());
  }

  /** The full backup is over. */
  function FullDone(): Session
  {
    Idle().(phase := Phase(false, false, NotStarted, true, true, false), logs := LogRanges(5, 6, 1, 6, 0),
            dbs := [COPIED.(inSession := false, done := false, full := BkInfo(0, 5, 5))],
            log := Log(6, 6, 0, {1, 2, 3, 4, 5}),
            history := History([], true, {}, {}, [Held({5}, {}, false)]))
  }

  lemma ReachFullDone()
    ensures Reached(Idle(), FullDone()) && Valid(FullDone())
  {
    ReachListGiven();
    hide Reached, ReachedUnread, Valid, Initial;
    assert Range(5, 6) == {5} && Elements([]) == {};
    assert EndDbs(ListGiven(), true, true, {}) == FullDone().dbs;
    assert EndHelds(ListGiven(), true, true, {}) == FullDone().history.held;
    Next(Idle(), ListGiven(), End(true, true, false, {}), FullDone());
  }

  /** Logs 6 and 7 have been removed, and the incremental backup notices. */
  function GapFound(): Session
  {
    FullDone().(phase := Phase(true, false, LogsAndPatches, false, true, false), logs := LogRanges(0, 10, 8, 0, 0),
                dbs := [FullDone().dbs[0].(inSession := true)], log := Log(10, 9, 0, {8, 9}))
  }

  lemma ReachGapFound()
    ensures Reached(Idle(), GapFound()) && Valid(GapFound())
  {
    ReachFullDone();
    hide Reached, Valid, Initial;
    var later := FullDone().(log := Log(9, 9, 0, {8}));
    Next(Idle(), FullDone(), Progress(Log(9, 9, 0, {8})), later);
    var begun := later.(phase := Phase(true, false, LogsAndPatches, false, false, false), logs := LogRanges(0, 0, 0, 0, 0),
                        dbs := GapFound().dbs);
    assert AllJoined(later.dbs, true) == begun.dbs;
    assert AllQualify(begun.dbs);
    Next(Idle(), later, Begin(true, READY, true), begun);
    assert !Continues(begun.dbs[0], 8);
    Next(Idle(), begun, GetLogInfo(Prep(NoFault, Log(10, 9, 0, {8, 9}), 10, 0, 8, 9, Listed)), GapFound());
  }

  /** If the caller nevertheless ends the backup with JET_bitBackupTruncateDone, log 6 counts as backed up. */
  lemma GapIsRecorded()
    ensures Initial(Idle()) && Reached(Idle(), GapFound()) && GapFound().logs.copyMac != 0
    ensures var t := CleanUp(GapFound(), true, true, false, {}).s;
      && t.dbs[0].full == BkInfo(0, 5, 5) && t.dbs[0].inc == BkInfo(0, 0, 9)
      && 6 !in t.log.existing && 6 !in t.history.held[0].ranges && !NoGap(t.dbs[0], t.history.held[0])
  {
    ReachBegun();
    ReachGapFound();
    hide Reached, Valid, Initial;
    var s := GapFound();
    assert CleanUp(s, true, true, false, {}).s.dbs[0] == EndDb(s, 0, true, true, {});
    assert CleanUp(s, true, true, false, {}).s.history.held[0] == EndHeld(s, 0, true, true, {});
    assert Elements([]) == {};
  }

  // ------------------------------------------------------------------ logs that are deleted although nobody has read them

  /** Log 5, of one byte, has been opened at its end and closed. */
  function Skipped(): Session
  {
    ListGiven().(logs := LogRanges(5, 6, 1, 6, 5), history := NO_HISTORY.(closes := [5], clean := false))
  }

  lemma ReachSkipped()
    ensures ReachedUnread(Idle(), Skipped()) && Reached(Idle(), Skipped()) && Valid(Skipped())
  {
    ReachListGiven();
    hide Reached, ReachedUnread, Valid, Initial;
    var atOpen := ListGiven().(handle := LogHandle(5, 1, 1, 1));
    NextUnread(Idle(), ListGiven(), OpenLog(5, 1, 1, true), atOpen);
    NextUnread(Idle(), atOpen, Command.Close, Skipped());
  }

  /** The test passes and log 5 is deleted, the only one of the range to copy, in a run that reads no log at all. */
  lemma UnreadLogIsDeleted()
    ensures Initial(Idle()) && ReachedUnread(Idle(), Skipped())
    ensures TruncateStep(Skipped(), {}).err == Ok && Deleted(Skipped(), {}, 5)
    ensures Skipped().logs.copyMic == 5 && Skipped().logs.copyMac == 6
  {
    ReachBegun();
    ReachSkipped();
    hide Reached, ReachedUnread, Valid, Initial;
    assert CopyMust(5, 6) == 5;
    TruncatesAll(Skipped());
  }

  /** Logs 5 and 6 are to be copied. */
  function TwoListed(): Session
  {
    Copied().(phase := Phase(true, false, LogsAndPatches, true, true, false), logs := LogRanges(5, 7, 1, 7, 0),
              log := Log(7, 7, 0, {1, 2, 3, 4, 5, 6}), history := NO_HISTORY.(clean := true))
  }

  /** Log 6 has been copied once. */
  function SixOnce(): Session
  {
    TwoListed().(logs := LogRanges(5, 7, 1, 7, 6), history := NO_HISTORY.(closes := [6], clean := true))
  }

  /** Log 6 has been copied twice. */
  function SixTwice(): Session
  {
    TwoListed().(logs := LogRanges(5, 7, 1, 7, 12), history := NO_HISTORY.(closes := [6, 6], clean := false))
  }

  lemma ReachTwoListed()
    ensures Reached(Idle(), TwoListed()) && Valid(TwoListed())
  {
    ReachCopied();
    hide Reached, ReachedUnread, Valid, Initial;
    var p := Prep(NoFault, Log(7, 7, 0, {1, 2, 3, 4, 5, 6}), 7, 0, 1, 7, Listed);
    assert DeleteLimit([COPIED], 7) == 7 by { assert [COPIED][..0] == []; }
    assert (set d: nat | d < 1 && LeftOut([COPIED][d])) == {};
    Next(Idle(), Copied(), GetLogInfo(p), TwoListed());
  }

  /** Log 6 opened at 0, read and closed. */
  lemma CopySix(s: Session, t: Session)
    requires Reached(Idle(), s) && Valid(s) && s.phase == TwoListed().phase && s.handle == Free && s.log == TwoListed().log
    requires s.logs.copyMic == 5 && s.logs.copyMac == 7
    requires t == s.(logs := s.logs.(genDone := s.logs.genDone + 6), history := Counted(s.history, 6, 0))
    ensures Reached(Idle(), t) && Valid(t)
  {
    hide Reached, Valid;
    var atOpen := s.(handle := LogHandle(6, 0, 0, 1));
    Lengths(s);
    Next(Idle(), s, OpenLog(6, 0, 1, true), atOpen);
    InProgress(atOpen);
    Next(Idle(), atOpen, ReadLog(1, true), atOpen.(handle := LogHandle(6, 0, 1, 1)));
    Next(Idle(), atOpen.(handle := LogHandle(6, 0, 1, 1)), Command.Close, t);
  }

  /** Log 6, copied twice, stands in for log 5, which is deleted without having been opened. */
  lemma TwiceCopiedStandsIn()
    ensures Initial(Idle()) && Reached(Idle(), SixTwice())
    ensures TruncateStep(SixTwice(), {}).err == Ok && Deleted(SixTwice(), {}, 5)
    ensures SixTwice().logs.copyMic <= 5 < SixTwice().logs.copyMac && 5 !in SixTwice().history.closes
  {
    ReachBegun();
    ReachTwoListed();
    hide Reached, ReachedUnread, Valid, Initial;
    CopySix(TwoListed(), SixOnce());
    CopySix(SixOnce(), SixTwice());
    assert CopyMust(5, 7) == 11;
    TruncatesAll(SixTwice());
  }
}
