/**
 * The command log as a state machine. Each operation runs under the log's
 * mutex, so it is one step; the outcome of every system call it makes is a
 * parameter. A crash in the middle of an operation leaves the disk that the
 * operation leaves when its next system call fails.
 */
module LogSpec {
  import opened ByteStrings
  import opened Options
  import opened Sequences
  import opened Codecs
  import opened SegmentScan
  import opened Disks

  datatype FsyncPolicy = Always | Interval | OperatingSystem

  datatype Config = Config(segmentBytes: nat, fsync: FsyncPolicy)

  /** last is first - 1 while the segment is empty. */
  datatype Segment = Segment(first: nat, last: int)

  /** The fields of an open Log; released says that Close has closed the active file. */
  datatype Session = Session(
    cfg: Config,
    segments: seq<Segment>,
    activeSize: nat,
    lastIndex: int,
    dirty: bool,
    failed: bool,
    closed: bool,
    released: bool)

  datatype Live = Live(disk: Disk, log: Session)

  /** The active file is the one of the last segment. */
  predicate Shaped(l: Live) {
    0 < |l.log.segments| <= |l.disk| && l.log.lastIndex >= -1
  }

  function Active(l: Live): SegmentFile
    requires Shaped(l)
  {
    l.disk[|l.log.segments| - 1]
  }

  function WithActive(l: Live, f: File): (r: Live)
    requires Shaped(l)
    ensures Shaped(r)
  {
    var a := |l.log.segments| - 1;
    l.(disk := l.disk[a := l.disk[a].(file := f)])
  }

  // ---- Writing ----

  /** createSegment: the file exists already or cannot be created; the directory cannot be flushed; success. */
  datatype CreateOutcome = NotCreated | NotLinked | Created

  function CreateSegment(d: Disk, first: nat, outcome: CreateOutcome): (r: (Disk, bool))
    ensures r.1 ==> |r.0| == |d| + 1
    ensures |r.0| >= |d|
  {
    if outcome.NotCreated? || Exists(d, first) then (d, false)
    else
      var created := InsertFile(d, SegmentFile(first, EMPTY_FILE, false));
      if outcome.NotLinked? then (created, false) else (DirectoryFlushed(created), true)
  }

  function InsertFile(d: Disk, e: SegmentFile): (r: Disk)
    ensures |r| == |d| + 1
  {
    InsertSize(d, e);
    Insert(d, e)
  }

  lemma InsertSize(d: Disk, e: SegmentFile)
    ensures |Insert(d, e)| == |d| + 1
  {
  }

  /** sync: a failure is sticky. */
  function Sync(l: Live, ok: bool): (r: Live)
    requires Shaped(l)
    ensures Shaped(r)
  {
    if ok then
      var flushed := WithActive(l, Flushed(Active(l).file));
      flushed.(log := flushed.log.(dirty := false))
    else l.(log := l.log.(failed := true))
  }

  function Fail(l: Live): Live {
    l.(log := l.log.(failed := true))
  }

  /** A write that reports an error may still have appended some of its bytes. */
  datatype WriteOutcome = Wrote | Short(written: nat)

  /**
   * The outcomes of the system calls of one Append, in order: rotation's fsync,
   * close and create, the write, the fsync.
   */
  datatype AppendIO = AppendIO(flush: bool, close: bool, create: CreateOutcome, write: WriteOutcome, sync: bool)

  datatype AppendResult = Acked(index: nat) | TooLarge | Refused | Failed

  function Rotate(l: Live, next: nat, io: AppendIO): (r: (Live, bool))
    requires Shaped(l)
    ensures Shaped(r.0)
  {
    var l1 := if l.log.dirty then Sync(l, io.flush) else l;
    if (l.log.dirty && !io.flush) || !io.close then (l1, false)
    else
      var (disk, ok) := CreateSegment(l1.disk, next, io.create);
      if !ok then (l1.(disk := disk), false)
      else (Live(disk, l1.log.(segments := l1.log.segments + [Segment(next, next - 1)], activeSize := 0)), true)
  }

  function Least(a: nat, b: nat): nat {
    if a < b then a else b
  }

  function WriteRecord(l: Live, index: nat, record: Bytes, io: AppendIO): (r: (Live, AppendResult))
    requires Shaped(l)
    ensures Shaped(r.0)
  {
    var f := Active(l).file;
    match io.write
    case Short(n) =>
      (Fail(WithActive(l, Written(f, record[..Least(n, |record|)]))), Failed)
    case Wrote =>
      var l1 := WithActive(l, Written(f, record));
      var l2 := l1.(log := l1.log.(activeSize := l1.log.activeSize + |record|, dirty := true));
      var l3 := if l.log.cfg.fsync == Always then Sync(l2, io.sync) else l2;
      if l.log.cfg.fsync == Always && !io.sync then (l3, Failed)
      else
        var last := |l3.log.segments| - 1;
        (l3.(log := l3.log.(lastIndex := index,
                            segments := l3.log.segments[last := l3.log.segments[last].(last := index)])),
         Acked(index))
  }

  predicate MustRotate(l: Live, record: Bytes) {
    l.log.activeSize > 0 && l.log.activeSize + |record| > l.log.cfg.segmentBytes
  }

  function Append(k: Codec, l: Live, command: Bytes, io: AppendIO): (r: (Live, AppendResult))
    requires Shaped(l)
    ensures Shaped(r.0)
  {
    if |command| > MAX_COMMAND_SIZE then (l, TooLarge)
    else if l.log.closed || l.log.failed then (l, Refused)
    else
      var index := l.log.lastIndex + 1;
      var record := k.enc(index, command);
      if MustRotate(l, record) then
        var (l1, ok) := Rotate(l, index, io);
        if ok then WriteRecord(l1, index, record, io) else (Fail(l1), Failed)
      else WriteRecord(l, index, record, io)
  }

  /** syncIfDirty. */
  function Tick(l: Live, ok: bool): (r: Live)
    requires Shaped(l)
    ensures Shaped(r)
  {
    if !l.log.dirty || l.log.failed || l.log.closed then l else Sync(l, ok)
  }

  /** The first locked phase of Close; the second result says whether this call does the work. */
  function CloseBegin(l: Live): (Live, bool) {
    (l.(log := l.log.(closed := true)), !l.log.closed)
  }

  /** The second locked phase of Close; the second result is true when it returns no error. */
  function CloseFinish(l: Live, syncOk: bool, closeOk: bool): (r: (Live, bool))
    requires Shaped(l)
    ensures Shaped(r.0)
  {
    var flush := !l.log.failed && l.log.dirty;
    var l1 := if flush then Sync(l, syncOk) else l;
    (l1.(log := l1.log.(released := true)), closeOk && (flush ==> syncOk))
  }

  // ---- Opening ----

  datatype TruncateOutcome = NotCut | NotFlushed | CutAndFlushed

  datatype OpenIO = OpenIO(readable: bool, create: CreateOutcome, truncate: TruncateOutcome, reopen: bool)

  datatype OpenResult = Opened(log: Session) | Corrupted | IoError

  /** What verification reads from each file. */
  function ScanAll(k: Codec, d: Disk): (r: seq<Scanned>)
    requires Lawful(k)
    ensures |r| == |d|
  {
    if d == [] then [] else ScanAll(k, Init(d)) + [Scan(k, Last(d).file.data, Last(d).first)]
  }

  /** The index after the last record that verification accepted. */
  function NextIndex(e: SegmentFile, r: Scanned): nat {
    e.first + |r.commands|
  }

  /** e starts where the files d end. */
  predicate Continues(d: Disk, rs: seq<Scanned>, e: SegmentFile)
    requires |rs| == |d|
  {
    d != [] ==> e.first == NextIndex(Last(d), Last(rs))
  }

  /** Files that are not the last verify: undamaged, each starting where the one before it ends. */
  predicate Verified(d: Disk, rs: seq<Scanned>)
    requires |rs| == |d|
  {
    d != [] ==>
      && Verified(Init(d), Init(rs))
      && Continues(Init(d), Init(rs), Last(d))
      && Last(rs).damage == NoDamage
  }

  /** The whole log verifies: the last file may have a torn tail, and nothing else is wrong. */
  ghost predicate Acceptable(k: Codec, d: Disk, rs: seq<Scanned>)
    requires |rs| == |d| && (d != [] ==> Last(rs).size <= |Last(d).file.data|)
  {
    d != [] ==>
      && Verified(Init(d), Init(rs))
      && Continues(Init(d), Init(rs), Last(d))
      && Classify(k, Last(d).file.data, Last(d).first, true, Last(rs)) != Corrupt
  }

  function NewSession(cfg: Config, segments: seq<Segment>, activeSize: nat, lastIndex: int): Session {
    Session(cfg, segments, activeSize, lastIndex, false, false, false, false)
  }

  function SegmentsOf(d: Disk, rs: seq<Scanned>): (r: seq<Segment>)
    requires |rs| == |d|
    ensures |r| == |d|
  {
    if d == [] then []
    else SegmentsOf(Init(d), Init(rs)) + [Segment(Last(d).first, NextIndex(Last(d), Last(rs)) - 1)]
  }

  ghost function Open(k: Codec, cfg: Config, d: Disk, io: OpenIO): (r: (Disk, OpenResult))
    requires Lawful(k)
    ensures r.1.Opened? ==> Shaped(Live(r.0, r.1.log))
  {
    if !io.readable then (d, IoError)
    else if d == [] then
      var (disk, ok) := CreateSegment(d, 1, io.create);
      (disk, if ok then Opened(NewSession(cfg, [Segment(1, 0)], 0, 0)) else IoError)
    else
      ScanPrints(k, Last(d).file.data, Last(d).first);
      OpenScanned(k, cfg, d, ScanAll(k, d), io)
  }

  /** recover, once the segments rs have been read. */
  ghost function OpenScanned(k: Codec, cfg: Config, d: Disk, rs: seq<Scanned>, io: OpenIO): (r: (Disk, OpenResult))
    requires d != [] && |rs| == |d| && Last(rs).size <= |Last(d).file.data|
    ensures r.1.Opened? ==> Shaped(Live(r.0, r.1.log))
  {
    var n, last, read := |d| - 1, Last(d), Last(rs);
    if !Acceptable(k, d, rs) then (d, Corrupted)
    else
      var torn := read.damage != NoDamage;
      var cut := Truncated(last.file, read.size);
      if torn && io.truncate.NotCut? then (d, IoError)
      else if torn && io.truncate.NotFlushed? then (d[n := last.(file := cut)], IoError)
      else
        var disk := if torn then d[n := last.(file := Flushed(cut))] else d;
        if !io.reopen then (disk, IoError)
        else (disk, Opened(NewSession(cfg, SegmentsOf(d, rs), read.size, NextIndex(last, read) - 1)))
  }

  // ---- Runs ----

  /** A machine with a disk and at most one process that has the log open. */
  datatype State = State(disk: Disk, log: Option<Session>)

  const INITIAL: State := State([], None)

  predicate Sane(s: State) {
    s.log.Some? ==> Shaped(Live(s.disk, s.log.value))
  }

  /** The locked operations of an open log, by any of the goroutines that share it. */
  datatype Operation =
    | AppendCommand(command: Bytes, io: AppendIO)
    | TickSyncer(ok: bool)
    | BeginClose
    | FinishClose(syncOk: bool, closeOk: bool)

  datatype Event =
    | OpenLog(cfg: Config, io: OpenIO)
    | Operate(op: Operation)
    | Crash(fates: seq<Fate>)  // the machine stops: unflushed data may be lost
    | Exit                     // the process ends: the kernel keeps what was written

  /** An operation that does not apply changes nothing. */
  function Perform(k: Codec, l: Live, op: Operation): (r: Live)
    requires Shaped(l)
    ensures Shaped(r)
  {
    match op
    case AppendCommand(command, io) => Append(k, l, command, io).0
    case TickSyncer(ok) => Tick(l, ok)
    case BeginClose => CloseBegin(l).0
    case FinishClose(syncOk, closeOk) =>
      if l.log.closed && !l.log.released then CloseFinish(l, syncOk, closeOk).0 else l
  }

  ghost function Next(k: Codec, s: State, e: Event): (r: State)
    requires Lawful(k) && Sane(s)
    ensures Sane(r)
  {
    match e
    case Crash(fates) => if CrashAllowed(s.disk, fates) then State(AfterCrash(s.disk, fates), None) else s
    case Exit => State(s.disk, None)
    case OpenLog(cfg, io) =>
      if s.log.Some? then s
      else
        var (disk, result) := Open(k, cfg, s.disk, io);
        State(disk, if result.Opened? then Some(result.log) else None)
    case Operate(op) =>
      if s.log.None? then s
      else
        var l := Perform(k, Live(s.disk, s.log.value), op);
        State(l.disk, Some(l.log))
  }

  ghost function Run(k: Codec, s: State, events: seq<Event>): (r: State)
    requires Lawful(k) && Sane(s)
    ensures Sane(r)
    decreases |events|
  {
    if events == [] then s else Run(k, Next(k, s, events[0]), events[1..])
  }
}
