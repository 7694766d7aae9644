/** A streaming backup as a state machine (ese/backup.cxx:597-745, 844-895, 1628-1913, 2125-2672, 2959-3149, 3155-3195,
    3457-3471, 3502-3561, 3999-4128, 4130-4436): its steps as functions from state to state. */
module BackupSpec {
  import opened GenerationSum

  datatype Status = NotStarted | Databases | LogsAndPatches

  /** A record of a backup in a database header: a log position and the log generations that belong to it. */
  datatype BkInfo = BkInfo(mark: nat, low: nat, high: nat)

  const NO_BACKUP: BkInfo := BkInfo(0, 0, 0)

  /** The flags of a database, its patch header, and the backup records of its file header. */
  datatype Db = Db(logged: bool, attached: bool, inSession: bool, done: bool, patch: BkInfo,
                   snapshotFull: bool, full: BkInfo, inc: BkInfo, copy: BkInfo, diff: BkInfo)

  /** The log: the generation being written, the generation of the checkpoint, the next position, and the finished
      generations that are in the directory. */
  datatype Log = Log(current: nat, checkpoint: nat, tip: nat, existing: set<nat>)

  /** The one file that can be open. A log is read from some offset to its size. */
  datatype Handle = Free | DbHandle(db: nat, whole: bool) | LogHandle(gen: nat, from: nat, ib: nat, cb: nat)

  /** What the truncating backups since the last full one hold of a database's logs: the generations in their ranges,
      the generations that were read, and whether each of them was truncated after a clean copy. */
  datatype Held = Held(ranges: set<nat>, copies: set<nat>, certain: bool)

  datatype Err = Ok | NoBackup | AbortByServer | InvalidParameter | InvalidSequence | OutOfMemory | BackupInProgress
    | MissingFullBackup | MissingFile | FileNotFound | LogNotCopied | DatabaseNotFound | IoError
    | LoggingDisabled | LogWriteFail | InvalidBackup | LogStateBad

  /** Where a backup is: m_fBackupInProgressLocal, m_fStopBackup, m_fBackupStatus, m_fBackupFull,
      m_fBackupBeginNewLogFile and m_fLogsTruncated. */
  datatype Phase = Phase(inProgress: bool, stop: bool, status: Status, full: bool, begun: bool, truncated: bool)

  /** The generations to copy and to delete, and the sum of those that were copied. */
  datatype LogRanges = LogRanges(copyMic: nat, copyMac: nat, deleteMic: nat, deleteMac: nat, genDone: nat)

  /** What has happened: the generations counted in genDone, whether each was read in full and once, the databases that
      the range of deletion spared, those that were opened after it was set, and what the backups hold. */
  datatype History = History(closes: seq<nat>, clean: bool, left: set<nat>, reopened: set<nat>, held: seq<Held>)

  /** BACKUP_CONTEXT with its databases and the log. */
  datatype Session = Session(phase: Phase, logs: LogRanges, fullMark: nat, incMark: nat, handle: Handle,
                             dbs: seq<Db>, log: Log, history: History)

  datatype Reply = Reply(s: Session, err: Err)

  datatype Fault = NoFault | PrepFault | WaitFault | RangeFault | CheckpointFault

  /** Whether the list of log files could be built, or the log path was refused, or there was no memory for it. */
  datatype Listing = Listed | BadPath | NoMemory

  /** What log preparation met: the step that failed, the log as it was left, the generation after the roll, the
      position of its record, the lowest generation in the directory or 0, the checkpoint read last, and what became
      of the file list. */
  datatype Prep = Prep(fault: Fault, log: Log, mac: nat, mark: nat, lowest: nat, checkpoint: nat, listing: Listing)

  /** What a backup asks of the instance before it begins: logging on and not failed, no circular logging if it is
      incremental, and enough log space and log generations left. */
  datatype Instance = Instance(logDisabled: bool, logFailed: bool, circular: bool, exhausted: bool)

  const READY: Instance := Instance(false, false, false, false)

  datatype Command =
    | Begin(incremental: bool, instance: Instance, io: bool)
    | OpenDatabase(db: nat, found: bool, io: bool)
    | ReadDatabase(io: bool, last: bool)
    | OpenLog(gen: nat, from: nat, cb: nat, io: bool)
    | ReadLog(cbMax: nat, io: bool)
    | Close
    | GetLogInfo(prep: Prep)
    | TruncateLog(failing: set<nat>)
    | End(normal: bool, truncateDone: bool, noHeader: bool, unlogged: set<nat>)
    | Stop
    | Progress(log: Log)

  function Min(a: nat, b: nat): nat { if a < b then a else b }

  function Max(a: nat, b: nat): nat { if a < b then b else a }

  // ------------------------------------------------------------------ begin

  predicate QualifiesForIncremental(db: Db)
  {
    db.attached ==> db.full.low != 0 && !db.snapshotFull
  }

  ghost predicate AllQualify(dbs: seq<Db>) { forall d :: 0 <= d < |dbs| ==> QualifiesForIncremental(dbs[d]) }

  function Joined(db: Db, incremental: bool): Db
  {
    if incremental then db.(inSession := true) else db.(inSession := false, done := false)
  }

  ghost function AllJoined(dbs: seq<Db>, incremental: bool): (r: seq<Db>)
    ensures |r| == |dbs| && forall d :: 0 <= d < |dbs| ==> r[d] == Joined(dbs[d], incremental)
  {
    seq(|dbs|, d requires 0 <= d < |dbs| => Joined(dbs[d], incremental))
  }

  ghost function Started(s: Session, incremental: bool): Session
  {
    var status := if incremental then LogsAndPatches else Databases;
    s.(phase := s.phase.(truncated := false, stop := false, inProgress := true, status := status),
       logs := s.logs.(copyMic := 0, copyMac := 0, deleteMic := 0, deleteMac := 0),
       dbs := AllJoined(s.dbs, incremental))
  }

  function GivenUp(p: Phase): Phase { p.(inProgress := false, stop := false, status := NotStarted) }

  ghost function StartIncremental(s: Session): Reply
  {
    if AllQualify(s.dbs) then Reply(s.(phase := s.phase.(begun := false, full := false)), Ok)
    else Reply(s.(phase := GivenUp(s.phase)), MissingFullBackup)
  }

  ghost function StartFull(s: Session, io: bool): Reply
  {
    var t := s.(fullMark := s.log.tip, phase := s.phase.(begun := false, full := true));
    if io then Reply(t.(logs := t.logs.(copyMic := s.log.checkpoint)), Ok)
    else Reply(t.(phase := GivenUp(t.phase)), IoError)
  }

  function Refusal(i: Instance, incremental: bool): Err
  {
    if i.logDisabled then LoggingDisabled
    else if i.logFailed then LogWriteFail
    else if incremental && i.circular then InvalidBackup
    else if i.exhausted then LogStateBad
    else Ok
  }

  /** ErrBKBeginExternalBackup. */
  ghost function BeginStep(s: Session, incremental: bool, i: Instance, io: bool): Reply
  {
    if Refusal(i, incremental) != Ok then Reply(s, Refusal(i, incremental))
    else if s.phase.inProgress then Reply(s, BackupInProgress)
    else if incremental then StartIncremental(Started(s, true))
    else StartFull(Started(s, false), io)
  }

  // ------------------------------------------------------------------ end

  ghost predicate Updated(s: Session, d: nat, unlogged: set<nat>)
    requires d < |s.dbs|
  {
    var db := s.dbs[d];
    db.logged && db.attached && db.inSession && d !in unlogged && (s.phase.full ==> db.done)
  }

  /** The value of an unsigned 32-bit field. */
  function Ulong(v: int): nat
    requires v >= -1
  {
    if v < 0 then 0xFFFF_FFFF else v
  }

  /** ErrBKUpdateHdrBackupInfo for a normal backup. */
  function HeaderUpdate(db: Db, logOnly: bool, truncated: bool, info: BkInfo): Db
  {
    if logOnly then
      if truncated then if db.inc.mark > info.mark then db else db.(inc := info)
      else if db.diff.mark > info.mark then db else db.(diff := info)
    else if truncated then
      if db.full.mark > info.mark then db
      else db.(full := info, snapshotFull := false, inc := NO_BACKUP, diff := NO_BACKUP)
    else if db.copy.mark > info.mark then db else db.(copy := info)
  }

  function NewRecord(s: Session, db: Db): BkInfo
  {
    if s.phase.full then BkInfo(db.patch.mark, db.patch.low, Ulong(s.logs.copyMac - 1))
    else BkInfo(s.incMark, s.logs.copyMic, Ulong(s.logs.copyMac - 1))
  }

  function Range(mic: nat, mac: nat): (r: set<nat>)
    ensures forall g :: g in r <==> mic <= g < mac
    decreases mac
  {
    if mac <= mic then {} else Range(mic, mac - 1) + {mac - 1}
  }

  function Elements(gens: seq<nat>): set<nat> { set g: nat | g in gens }

  /** What is held after a truncating backup. If its log preparation failed, no generation was in its range. */
  ghost function NewHeld(s: Session, h: Held): Held
  {
    var certain := s.phase.truncated && s.history.clean;
    var range := if s.logs.copyMic == 0 then {} else Range(s.logs.copyMic, s.logs.copyMac);
    if s.phase.full then Held(range, Elements(s.history.closes), certain)
    else Held(h.ranges + range, h.copies + Elements(s.history.closes), h.certain && certain)
  }

  ghost function EndDb(s: Session, d: nat, header: bool, truncated: bool, unlogged: set<nat>): Db
    requires d < |s.dbs|
  {
    var db := s.dbs[d];
    var t := if header && Updated(s, d, unlogged) then HeaderUpdate(db, !s.phase.full, truncated, NewRecord(s, db)) else db;
    t.(inSession := false, done := false)
  }

  ghost function EndHeld(s: Session, d: nat, header: bool, truncated: bool, unlogged: set<nat>): Held
    requires d < |s.dbs| == |s.history.held|
  {
    if header && truncated && Updated(s, d, unlogged) then NewHeld(s, s.history.held[d]) else s.history.held[d]
  }

  ghost function EndDbs(s: Session, header: bool, truncated: bool, unlogged: set<nat>): (r: seq<Db>)
    ensures |r| == |s.dbs| && forall d :: 0 <= d < |s.dbs| ==> r[d] == EndDb(s, d, header, truncated, unlogged)
  {
    seq(|s.dbs|, d requires 0 <= d < |s.dbs| => EndDb(s, d, header, truncated, unlogged))
  }

  ghost function EndHelds(s: Session, header: bool, truncated: bool, unlogged: set<nat>): (r: seq<Held>)
    requires |s.dbs| == |s.history.held|
    ensures |r| == |s.dbs| && forall d :: 0 <= d < |s.dbs| ==> r[d] == EndHeld(s, d, header, truncated, unlogged)
  {
    seq(|s.dbs|, d requires 0 <= d < |s.dbs| => EndHeld(s, d, header, truncated, unlogged))
  }

  ghost function WithHeaders(s: Session, header: bool, truncated: bool, unlogged: set<nat>): Session
    requires |s.dbs| == |s.history.held|
  {
    s.(dbs := EndDbs(s, header, truncated, unlogged),
       history := s.history.(held := EndHelds(s, header, truncated, unlogged)))
  }

  function Closed(s: Session): Session
  {
    s.(handle := Free, phase := GivenUp(s.phase.(truncated := false)))
  }

  /** ErrBKExternalBackupCleanUp. */
  ghost function CleanUp(s: Session, ok: bool, truncateDone: bool, noHeader: bool, unlogged: set<nat>): Reply
    requires |s.dbs| == |s.history.held|
  {
    if !s.phase.inProgress then Reply(s.(phase := s.phase.(stop := false, status := NotStarted)), NoBackup)
    else
      var header := ok && !s.phase.stop && s.phase.status != Databases && !noHeader;
      Reply(Closed(WithHeaders(s, header, truncateDone || s.phase.truncated, unlogged)), Ok)
  }

  ghost function Aborted(s: Session, err: Err): Reply
    requires |s.dbs| == |s.history.held|
  {
    Reply(CleanUp(s, false, false, false, {}).s, err)
  }

  // ------------------------------------------------------------------ files

  ghost function Asked(s: Session): Err
  {
    if !s.phase.inProgress then NoBackup else if s.phase.stop then AbortByServer else Ok
  }

  ghost function LeftSession(s: Session, d: nat): Session
    requires d < |s.dbs|
  {
    s.(dbs := s.dbs[d := s.dbs[d].(inSession := false, done := false)], handle := Free)
  }

  /** ErrBKOpenFile for a database. */
  ghost function OpenDatabaseStep(s: Session, d: nat, found: bool, io: bool): Reply
    requires d < |s.dbs| == |s.history.held|
  {
    if Asked(s) != Ok then Reply(s, Asked(s))
    else if s.handle != Free then Reply(s, OutOfMemory)
    else if !found then if s.phase.status == Databases then Reply(s, DatabaseNotFound) else Aborted(s, DatabaseNotFound)
    else if !s.phase.full || s.phase.status != Databases then Aborted(s, InvalidSequence)
    else
      var t := if s.phase.begun then s.(history := s.history.(reopened := s.history.reopened + {d})) else s;
      if !io then Reply(LeftSession(t, d), IoError)
      else Reply(t.(dbs := s.dbs[d := s.dbs[d].(inSession := true)], handle := DbHandle(d, false)), Ok)
  }

  /** ErrBKReadFile for a database: an error gives up this database, and the last read makes the trailer. */
  ghost function ReadDatabaseStep(s: Session, io: bool, last: bool): Reply
    requires s.handle.DbHandle? && s.handle.db < |s.dbs|
  {
    if Asked(s) != Ok then Reply(s, Asked(s))
    else
      var d := s.handle.db;
      if !io then Reply(LeftSession(s, d), IoError)
      else if !last then Reply(s, Ok)
      else Reply(s.(dbs := s.dbs[d := s.dbs[d].(patch := BkInfo(s.fullMark, s.logs.copyMic, s.log.current))],
                    handle := DbHandle(d, true)), Ok)
  }

  /** ErrBKOpenFile for a log; any error ends the backup, unless databases are still being copied. */
  ghost function OpenLogStep(s: Session, gen: nat, from: nat, cb: nat, io: bool): Reply
    requires |s.dbs| == |s.history.held|
  {
    if Asked(s) != Ok then Reply(s, Asked(s))
    else if s.handle != Free then Reply(s, OutOfMemory)
    else if s.phase.status == Databases then Reply(s, DatabaseNotFound)
    else if gen !in s.log.existing then Aborted(s, MissingFile)
    else if !io then Aborted(s, IoError)
    else Reply(s.(handle := LogHandle(gen, from, from, cb)), Ok)
  }

  /** ErrBKReadFile for a log. */
  ghost function ReadLogStep(s: Session, cbMax: nat, io: bool): Reply
    requires s.handle.LogHandle? && s.handle.ib <= s.handle.cb && |s.dbs| == |s.history.held|
  {
    if Asked(s) != Ok then Reply(s, Asked(s))
    else if !io then Aborted(s, IoError)
    else Reply(s.(handle := s.handle.(ib := s.handle.ib + Min(s.handle.cb - s.handle.ib, cbMax))), Ok)
  }

  function Counted(h: History, gen: nat, from: nat): History
  {
    h.(closes := h.closes + [gen], clean := h.clean && from == 0 && gen !in h.closes)
  }

  /** ErrBKCloseFile: a log of the range that was read to its end is counted. */
  ghost function CloseStep(s: Session): Reply
    requires s.handle.DbHandle? ==> s.handle.db < |s.dbs|
  {
    if !s.phase.inProgress then Reply(s, NoBackup)
    else
      match s.handle
      case Free => Reply(s, InvalidParameter)
      case DbHandle(d, whole) =>
        Reply(s.(dbs := if whole then s.dbs[d := s.dbs[d].(done := true)] else s.dbs, handle := Free), Ok)
      case LogHandle(gen, from, ib, cb) =>
        if ib == cb && s.logs.copyMic <= gen <= s.logs.copyMac - 1 then
          Reply(s.(handle := Free, logs := s.logs.(genDone := s.logs.genDone + gen), history := Counted(s.history, gen, from)), Ok)
        else Reply(s.(handle := Free), Ok)
  }

  // ------------------------------------------------------------------ the ranges of logs

  /** A database whose logs a full backup does not replace. */
  predicate LeftOut(db: Db) { db.logged && db.attached && !(db.inSession && db.done) }

  function DeleteLimit(dbs: seq<Db>, mac: nat): nat
  {
    if dbs == [] then mac
    else
      var rest, db := DeleteLimit(dbs[..|dbs| - 1], mac), dbs[|dbs| - 1];
      if LeftOut(db) then Min(rest, db.full.high) else rest
  }

  /** ErrBKICheckLogsForIncrementalBackup. */
  predicate Continues(db: Db, lowest: nat)
  {
    db.attached ==> lowest <= Max(db.full.high, db.inc.high) + 1
  }

  ghost predicate AllContinue(dbs: seq<Db>, lowest: nat) { forall d :: 0 <= d < |dbs| ==> Continues(dbs[d], lowest) }

  /** The new generation has begun. */
  ghost function Rolled(s: Session, p: Prep): Session
  {
    s.(log := p.log, incMark := if s.phase.full then s.incMark else p.mark)
  }

  ghost function NewLogFile(s: Session, mac: nat): Session
  {
    s.(phase := s.phase.(begun := true), logs := s.logs.(copyMac := mac, genDone := 0),
       history := s.history.(closes := [], clean := true))
  }

  /** The ranges are set. */
  ghost function Ranged(s: Session, p: Prep): Session
  {
    var mac := Min(p.checkpoint, p.mac);
    if s.phase.full then
      var limit := DeleteLimit(s.dbs, mac);
      s.(logs := s.logs.(deleteMac := limit, deleteMic := Min(limit, p.lowest)),
         history := s.history.(left := set d: nat | d < |s.dbs| && LeftOut(s.dbs[d])))
    else s.(logs := s.logs.(deleteMac := mac, deleteMic := p.lowest, copyMic := p.lowest))
  }

  /** ErrBKIPrepareLogFiles. What an early error leaves behind stays. */
  ghost function PrepareStep(s: Session, p: Prep): (r: Reply)
    ensures r.s.dbs == s.dbs && r.s.history.held == s.history.held
  {
    if p.fault == PrepFault then Reply(s, IoError)
    else if p.fault == WaitFault then Reply(Rolled(s, p), IoError)
    else
      var u := NewLogFile(Rolled(s, p), p.mac);
      if p.fault == RangeFault then Reply(u, IoError)
      else if p.lowest == 0 then Reply(u, FileNotFound)
      else
        var v := u.(logs := u.logs.(deleteMic := p.lowest));
        if !s.phase.full && !AllContinue(s.dbs, p.lowest) then Reply(v, MissingFile)
        else if p.fault == CheckpointFault then Reply(v, IoError)
        else Reply(Ranged(v, p), Ok)
  }

  /** ErrBKIPrepareLogInfo, once no file is open. */
  ghost function Prepared(s: Session, p: Prep): (r: Reply)
    ensures r.s.dbs == s.dbs && r.s.history.held == s.history.held
  {
    if s.phase.begun then Reply(s, Ok) else PrepareStep(s.(history := s.history.(reopened := {})), p)
  }

  /** ErrBKIGetLogInfo: a bad path leaves the backup where it is, a failed allocation ends it. */
  ghost function ListLogs(s: Session, listing: Listing): Reply
    requires |s.dbs| == |s.history.held|
  {
    match listing
    case BadPath => Reply(s, InvalidParameter)
    case NoMemory => Aborted(s, OutOfMemory)
    case Listed => Reply(s.(phase := s.phase.(status := LogsAndPatches)), Ok)
  }

  /** ErrBKGetLogInfo. */
  ghost function GetLogInfoStep(s: Session, p: Prep): Reply
    requires |s.dbs| == |s.history.held|
  {
    if Asked(s) != Ok then Reply(s, Asked(s))
    else if s.handle != Free then Reply(s, InvalidSequence)
    else if Prepared(s, p).err != Ok then Prepared(s, p)
    else ListLogs(Prepared(s, p).s, p.listing)
  }

  /** ErrBKTruncateLog with the deletion of ErrLGTruncateLog (ese/_log/logstream.cxx:4144-4229), which stops at the
      first file that cannot be deleted. */
  ghost function TruncateStep(s: Session, failing: set<nat>): Reply
  {
    if Asked(s) != Ok then Reply(s, Asked(s))
    else if s.handle != Free then Reply(s, InvalidSequence)
    else if s.logs.copyMic == 0 || s.logs.copyMac == 0 then Reply(s, InvalidSequence)
    else if s.logs.genDone < CopyMust(s.logs.copyMic, s.logs.copyMac) then
      Reply(s.(phase := s.phase.(status := LogsAndPatches)), LogNotCopied)
    else
      var kept := Kept(s.log.existing, failing, s.logs.deleteMic, s.logs.deleteMac);
      Reply(s.(phase := s.phase.(status := LogsAndPatches, truncated := true), log := s.log.(existing := kept)),
            if exists g :: g in kept && s.logs.deleteMic <= g < s.logs.deleteMac then IoError else Ok)
  }

  /** The files left by deleting from mic up to mac. */
  ghost function Kept(existing: set<nat>, failing: set<nat>, mic: nat, mac: nat): set<nat>
    decreases mac - mic
  {
    if mic >= mac || (mic in existing && mic in failing) then existing
    else Kept(existing - {mic}, failing, mic + 1, mac)
  }
}
