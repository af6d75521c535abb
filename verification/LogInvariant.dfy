/** The invariant of the command log, and that every operation on an open log keeps it. */
module LogInvariant {
  import opened ByteStrings
  import opened Sequences
  import opened Codecs
  import opened SegmentScan
  import opened Disks
  import opened LogSpec

  type Parts = seq<seq<Bytes>>

  /**
   * What a disk stands for: the commands of each segment file in order, and the
   * bytes torn, a prefix of the record of the command inflight, after them.
   */
  datatype History = History(parts: Parts, torn: Bytes, inflight: Bytes)

  /** The index after the last record of the files d. */
  ghost function Following(d: Disk, parts: Parts): nat
    requires |d| == |parts|
  {
    if d == [] then 1 else Last(d).first + |Last(parts)|
  }

  /** A file that is not the last: whole records, at least one, all of it on disk. */
  ghost predicate InnerOk(k: Codec, e: SegmentFile, commands: seq<Bytes>) {
    && commands != [] && AllStorable(e.first, commands)
    && e.linked && Settled(e.file) && e.file.data == EncodeAll(k, e.first, commands)
  }

  /** Consecutive inner files, from index 1 on. */
  ghost predicate InnersOk(k: Codec, d: Disk, parts: Parts) {
    && |d| == |parts|
    && (d != [] ==>
          && InnersOk(k, Init(d), Init(parts))
          && Last(d).first == Following(Init(d), Init(parts))
          && InnerOk(k, Last(d), Last(parts)))
  }

  /** The last file: whole records, then perhaps the beginning of one more. */
  ghost predicate LastOk(k: Codec, e: SegmentFile, commands: seq<Bytes>, torn: Bytes, inflight: Bytes) {
    match e
    case SegmentFile(first, file, linked) =>
      var records := EncodeAll(k, first, commands);
      && AllStorable(first, commands)
      && file.durable <= |file.data|
      && (linked || file.data == [])
      && (torn != [] ==> Storable(first + |commands|, inflight) && torn <= k.enc(first + |commands|, inflight))
      && (if file.stale == [] then file.data == records + torn
          else && linked && file.data == records && file.stale == records + torn
               && torn != [] && torn < k.enc(first + |commands|, inflight))
  }

  ghost predicate DiskOk(k: Codec, d: Disk, h: History) {
    match h
    case History(parts, torn, inflight) =>
      && |d| == |parts|
      && if d == [] then torn == []
         else && InnersOk(k, Init(d), Init(parts))
              && Last(d).first == Following(Init(d), Init(parts))
              && LastOk(k, Last(d), Last(parts), torn, inflight)
  }

  // ---- The open log ----

  function SegmentFor(e: SegmentFile, commands: seq<Bytes>): Segment {
    Segment(e.first, e.first + |commands| - 1)
  }

  function SegmentsFor(d: Disk, parts: Parts): (r: seq<Segment>)
    requires |d| == |parts|
    ensures |r| == |d|
  {
    if d == [] then [] else SegmentsFor(Init(d), Init(parts)) + [SegmentFor(Last(d), Last(parts))]
  }

  /**
   * The log's fields agree with the files in its list: the segments, the last
   * index and, until a failure, the active size and the dirty flag.
   */
  ghost predicate Agrees(k: Codec, log: Session, d: Disk, parts: Parts, torn: Bytes) {
    match log
    case Session(cfg, segments, activeSize, lastIndex, dirty, failed, _, _) =>
      && |d| == |parts| && d != []
      && var active, commands := Last(d), Last(parts);
         && segments == SegmentsFor(d, parts)
         && lastIndex == active.first + |commands| - 1
         && (!failed ==> torn == [] && active.linked && activeSize == |active.file.data|)
         && (!failed && !dirty ==> Settled(active.file))
         && (cfg.fsync == Always ==> active.file.durable >= |EncodeAll(k, active.first, commands)|)
  }

  /** Only a failed log can have a file on disk, an empty one, that is not in its list. */
  ghost predicate LiveOk(k: Codec, l: Live, h: History) {
    match l
    case Live(disk, log) =>
      && disk != []
      && DiskOk(k, disk, h)
      && Last(disk).file.stale == []
      && (Agrees(k, log, disk, h.parts, h.torn)
          || (log.failed && Last(h.parts) == [] && h.torn == [] && Agrees(k, log, Init(disk), Init(h.parts), [])))
  }

  ghost predicate StateOk(k: Codec, s: State, h: History) {
    match s
    case State(disk, log) => DiskOk(k, disk, h) && (log.Some? ==> LiveOk(k, Live(disk, log.value), h))
  }

  lemma LiveIsShaped(k: Codec, l: Live, h: History)
    requires LiveOk(k, l, h)
    ensures Shaped(l)
    ensures !l.log.failed ==> |l.log.segments| == |l.disk| && Agrees(k, l.log, l.disk, h.parts, h.torn)
  {
  }

  // ---- Changing the end of a disk ----

  /** d with the file of its last entry replaced. */
  function WithLast(d: Disk, f: File): Disk
    requires d != []
  {
    d[|d| - 1 := Last(d).(file := f)]
  }

  /** The history with the commands of the last file replaced. */
  function Amend(h: History, commands: seq<Bytes>, torn: Bytes, inflight: Bytes): History
    requires h.parts != []
  {
    History(Init(h.parts) + [commands], torn, inflight)
  }

  lemma ReplaceLast(k: Codec, d: Disk, h: History, e: SegmentFile, commands: seq<Bytes>, torn: Bytes, inflight: Bytes)
    requires DiskOk(k, d, h) && d != [] && e.first == Last(d).first
    requires LastOk(k, e, commands, torn, inflight)
    ensures DiskOk(k, d[|d| - 1 := e], Amend(h, commands, torn, inflight))
    ensures Init(d[|d| - 1 := e]) == Init(d) && Last(d[|d| - 1 := e]) == e
    ensures Init(Amend(h, commands, torn, inflight).parts) == Init(h.parts)
    ensures Last(Amend(h, commands, torn, inflight).parts) == commands
  {
    assert Init(d[|d| - 1 := e]) == Init(d);
    assert Init(Init(h.parts) + [commands]) == Init(h.parts);
  }

  // ---- Where the commands on a disk come from ----

  ghost predicate AllIn(commands: seq<Bytes>, p: iset<Bytes>) {
    commands != [] ==> AllIn(Init(commands), p) && Last(commands) in p
  }

  ghost predicate PartsIn(parts: Parts, p: iset<Bytes>) {
    parts != [] ==> PartsIn(Init(parts), p) && AllIn(Last(parts), p)
  }

  /** Every command of h, complete or not, is one of p. */
  ghost predicate Within(h: History, p: iset<Bytes>) {
    PartsIn(h.parts, p) && (h.torn != [] ==> h.inflight in p)
  }

  ghost function Everything(): (p: iset<Bytes>)
    ensures forall c :: c in p
  {
    iset c: Bytes | |c| >= 0
  }

  lemma {:induction false} WithinEverything(parts: Parts)
    ensures PartsIn(parts, Everything())
    decreases |parts|
  {
    if parts != [] {
      WithinEverything(Init(parts));
      AllInEverything(Last(parts));
    }
  }

  lemma {:induction false} AllInEverything(commands: seq<Bytes>)
    ensures AllIn(commands, Everything())
    decreases |commands|
  {
    if commands != [] {
      AllInEverything(Init(commands));
    }
  }

  lemma WithinAll(h: History)
    ensures Within(h, Everything())
  {
    WithinEverything(h.parts);
  }

  lemma AmendWithin(h: History, commands: seq<Bytes>, torn: Bytes, inflight: Bytes, p: iset<Bytes>)
    requires h.parts != [] && Within(h, p) && AllIn(commands, p) && (torn != [] ==> inflight in p)
    ensures Within(Amend(h, commands, torn, inflight), p)
  {
    assert Init(Init(h.parts) + [commands]) == Init(h.parts);
  }

  lemma SnocWithin(h: History, c: Bytes, p: iset<Bytes>)
    requires h.parts != [] && Within(h, p) && c in p
    ensures Within(Amend(h, Last(h.parts) + [c], [], []), p)
  {
    assert Init(Last(h.parts) + [c]) == Last(h.parts);
    AmendWithin(h, Last(h.parts) + [c], [], [], p);
  }

  lemma PushWithin(h: History, p: iset<Bytes>)
    requires Within(h, p)
    ensures Within(History(h.parts + [[]], [], []), p)
  {
    assert Init(h.parts + [[]]) == h.parts;
  }

  lemma {:induction false} PrefixIn(commands: seq<Bytes>, n: nat, p: iset<Bytes>)
    requires n <= |commands| && AllIn(commands, p)
    ensures AllIn(commands[..n], p)
    ensures n < |commands| ==> commands[n] in p
    decreases |commands|
  {
    if n == |commands| {
      assert commands[..n] == commands;
    } else {
      if n < |commands| - 1 {
        PrefixIn(Init(commands), n, p);
        assert Init(commands)[..n] == commands[..n] && Init(commands)[n] == commands[n];
      }
    }
  }

  lemma PushFile(k: Codec, d: Disk, h: History, e: SegmentFile)
    requires DiskOk(k, d, h) && d != []
    requires InnerOk(k, Last(d), Last(h.parts))
    requires e.first == Following(d, h.parts) < INDEX_LIMIT
    requires e.file == EMPTY_FILE
    ensures DiskOk(k, d + [e], History(h.parts + [[]], [], []))
    ensures Init(d + [e]) == d && Init(h.parts + [[]]) == h.parts
  {
    assert Init(d + [e]) == d && Init(h.parts + [[]]) == h.parts;
    assert EncodeAll(k, e.first, []) == [];
  }

  lemma InnersAreOk(k: Codec, d: Disk, parts: Parts)
    requires InnersOk(k, d, parts)
    ensures DiskOk(k, d, History(parts, [], []))
  {
  }

  /** An operation that rewrites only the last file, and leaves the log agreeing with it, keeps the invariant. */
  lemma RewriteLast(
    k: Codec, d: Disk, h: History, e: SegmentFile, commands: seq<Bytes>, torn: Bytes, inflight: Bytes, log: Session)
    requires DiskOk(k, d, h) && d != [] && e.first == Last(d).first && e.file.stale == []
    requires LastOk(k, e, commands, torn, inflight)
    requires log.segments == SegmentsFor(Init(d), Init(h.parts)) + [SegmentFor(e, commands)]
    requires log.lastIndex == e.first + |commands| - 1
    requires !log.failed ==> torn == [] && e.linked && log.activeSize == |e.file.data|
    requires !log.failed && !log.dirty ==> Settled(e.file)
    requires log.cfg.fsync == Always ==> e.file.durable >= |EncodeAll(k, e.first, commands)|
    ensures LiveOk(k, Live(d[|d| - 1 := e], log), Amend(h, commands, torn, inflight))
  {
    ReplaceLast(k, d, h, e, commands, torn, inflight);
  }

  lemma FailKeeps(k: Codec, l: Live, h: History)
    requires LiveOk(k, l, h)
    ensures LiveOk(k, Fail(l), h)
  {
  }

  // ---- fsync ----

  lemma FlushedOk(k: Codec, e: SegmentFile, commands: seq<Bytes>, inflight: Bytes)
    requires LastOk(k, e, commands, [], inflight) && e.linked && e.file.stale == []
    ensures LastOk(k, e.(file := Flushed(e.file)), commands, [], inflight)
    ensures |e.file.data| == |EncodeAll(k, e.first, commands)|
  {
  }

  lemma AmendNothing(h: History)
    requires h.parts != [] && h.torn == []
    ensures Amend(h, Last(h.parts), [], h.inflight) == h
  {
  }

  lemma FlushedLive(k: Codec, d: Disk, log: Session, h: History)
    requires LiveOk(k, Live(d, log), h) && !log.failed
    ensures LiveOk(k, Live(WithLast(d, Flushed(Last(d).file)), log.(dirty := false)), h)
  {
    LiveIsShaped(k, Live(d, log), h);
    AmendNothing(h);
    FlushedOk(k, Last(d), Last(h.parts), h.inflight);
    RewriteLast(k, d, h, Last(d).(file := Flushed(Last(d).file)), Last(h.parts), [], h.inflight, log.(dirty := false));
  }

  lemma SyncFlushes(l: Live)
    requires Shaped(l) && |l.log.segments| == |l.disk|
    ensures Sync(l, true) == Live(WithLast(l.disk, Flushed(Last(l.disk).file)), l.log.(dirty := false))
  {
  }

  lemma FlushKeeps(k: Codec, l: Live, h: History)
    requires LiveOk(k, l, h) && !l.log.failed
    ensures Shaped(l) && LiveOk(k, Sync(l, true), h)
  {
    LiveIsShaped(k, l, h);
    SyncFlushes(l);
    FlushedLive(k, l.disk, l.log, h);
  }

  lemma SyncKeeps(k: Codec, l: Live, h: History, ok: bool)
    requires LiveOk(k, l, h) && !l.log.failed
    ensures Shaped(l) && LiveOk(k, Sync(l, ok), h)
  {
    LiveIsShaped(k, l, h);
    if ok {
      FlushKeeps(k, l, h);
    } else {
      FailKeeps(k, l, h);
    }
  }

  // ---- Writing a record ----

  /** After a write of some of a record's bytes. */
  lemma PartWritten(k: Codec, e: SegmentFile, commands: seq<Bytes>, command: Bytes, part: Bytes, was: Bytes)
    requires LastOk(k, e, commands, [], was) && e.linked && e.file.stale == []
    requires Storable(e.first + |commands|, command) && part <= k.enc(e.first + |commands|, command)
    ensures LastOk(k, e.(file := Written(e.file, part)), commands, part, command)
  {
    assert EncodeAll(k, e.first, commands) + [] == EncodeAll(k, e.first, commands);
  }

  /** After a write of all of it. */
  lemma RecordWritten(k: Codec, e: SegmentFile, commands: seq<Bytes>, command: Bytes, was: Bytes)
    requires LastOk(k, e, commands, [], was) && e.linked && e.file.stale == []
    requires Storable(e.first + |commands|, command)
    ensures var f := Written(e.file, k.enc(e.first + |commands|, command));
            && LastOk(k, e.(file := f), commands + [command], [], [])
            && |f.data| == |EncodeAll(k, e.first, commands + [command])|
  {
    EncodeAllSnoc(k, e.first, commands, command);
    var records := EncodeAll(k, e.first, commands + [command]);
    assert EncodeAll(k, e.first, commands) + [] == EncodeAll(k, e.first, commands);
    assert records + [] == records;
  }

  lemma ShortWriteKeeps(k: Codec, l: Live, h: History, command: Bytes, part: Bytes, l': Live)
    requires LiveOk(k, l, h) && !l.log.failed
    requires Storable(l.log.lastIndex + 1, command) && part <= k.enc(l.log.lastIndex + 1, command)
    requires l'.disk == WithLast(l.disk, Written(Last(l.disk).file, part))
    requires l'.log == l.log.(failed := true, activeSize := l'.log.activeSize, dirty := l'.log.dirty)
    ensures LiveOk(k, l', Amend(h, Last(h.parts), part, command))
  {
    var e := Last(l.disk).(file := Written(Last(l.disk).file, part));
    assert l' == Live(l.disk[|l.disk| - 1 := e], l'.log);
    LiveIsShaped(k, l, h);
    PartWritten(k, Last(l.disk), Last(h.parts), command, part, h.inflight);
    RewriteLast(k, l.disk, h, e, Last(h.parts), part, command, l'.log);
  }

  /** The fields of the log after it has recorded the record at index. */
  function Recorded(log: Session, index: nat, size: nat, dirty: bool): Session
    requires log.segments != []
  {
    log.(lastIndex := index, segments := Init(log.segments) + [Last(log.segments).(last := index)],
         activeSize := log.activeSize + size, dirty := dirty)
  }

  lemma FullWriteKeeps(k: Codec, l: Live, h: History, command: Bytes, f: File, l': Live)
    requires LiveOk(k, l, h) && !l.log.failed && Storable(l.log.lastIndex + 1, command) && l.log.segments != []
    requires f == Written(Last(l.disk).file, k.enc(l.log.lastIndex + 1, command))
    requires var always := l.log.cfg.fsync == Always;
             && l'.disk == WithLast(l.disk, if always then Flushed(f) else f)
             && l'.log == Recorded(l.log, l.log.lastIndex + 1, |k.enc(l.log.lastIndex + 1, command)|, !always)
    ensures LiveOk(k, l', Amend(h, Last(h.parts) + [command], [], []))
  {
    hide EncodeAll, InnersOk, SegmentsFor;
    var e := Last(l.disk).(file := if l.log.cfg.fsync == Always then Flushed(f) else f);
    assert l' == Live(l.disk[|l.disk| - 1 := e], l'.log);
    LiveIsShaped(k, l, h);
    RecordWritten(k, Last(l.disk), Last(h.parts), command, h.inflight);
    FlushedOk(k, Last(l.disk).(file := f), Last(h.parts) + [command], []);
    RecordedSegments(l.log, l.disk, h.parts, e, command);
    RewriteLast(k, l.disk, h, e, Last(h.parts) + [command], [], [], l'.log);
  }

  lemma RecordedSegments(log: Session, d: Disk, parts: Parts, e: SegmentFile, command: Bytes)
    requires |d| == |parts| && d != [] && log.segments == SegmentsFor(d, parts) && e.first == Last(d).first
    requires log.lastIndex == e.first + |Last(parts)| - 1
    ensures Init(log.segments) + [Last(log.segments).(last := log.lastIndex + 1)]
         == SegmentsFor(Init(d), Init(parts)) + [SegmentFor(e, Last(parts) + [command])]
  {
  }

  /** The effect of writing record, in terms of the last file of the disk. */
  ghost predicate WriteEffect(l: Live, index: nat, record: Bytes, io: AppendIO, l': Live, result: AppendResult) {
    && l.disk != [] && l.log.segments != []
    && var f, always := Last(l.disk).file, l.log.cfg.fsync == Always;
       if io.write.Short? then
         && result == Failed
         && l'.disk == WithLast(l.disk, Written(f, record[..Least(io.write.written, |record|)]))
         && l'.log == l.log.(failed := true)
       else if always && !io.sync then
         && result == Failed
         && l'.disk == WithLast(l.disk, Written(f, record))
         && l'.log == l.log.(failed := true, activeSize := l'.log.activeSize, dirty := true)
       else
         && result == Acked(index)
         && l'.disk == WithLast(l.disk, if always then Flushed(Written(f, record)) else Written(f, record))
         && l'.log == Recorded(l.log, index, |record|, !always)
  }

  lemma WriteRecordHasEffect(l: Live, index: nat, record: Bytes, io: AppendIO)
    requires Shaped(l) && |l.log.segments| == |l.disk|
    ensures var r := WriteRecord(l, index, record, io); WriteEffect(l, index, record, io, r.0, r.1)
  {
    var n, segments := |l.disk| - 1, l.log.segments;
    assert segments[n := segments[n].(last := index)] == Init(segments) + [Last(segments).(last := index)];
  }

  /** If a record is incomplete, it is that of command at index. */
  ghost predicate Tears(l: Live, h: History, index: nat, command: Bytes) {
    h.torn != [] ==>
      && |l.disk| == |h.parts| && |l.log.segments| == |l.disk|
      && Following(l.disk, h.parts) == index && h.inflight == command
  }

  lemma WriteKeeps(
    k: Codec, l: Live, h: History, command: Bytes, io: AppendIO, l': Live, result: AppendResult, p: iset<Bytes>)
    returns (h': History)
    requires LiveOk(k, l, h) && !l.log.failed && Storable(l.log.lastIndex + 1, command)
    requires WriteEffect(l, l.log.lastIndex + 1, k.enc(l.log.lastIndex + 1, command), io, l', result)
    requires Within(h, p) && command in p
    ensures Within(h', p)
    ensures LiveOk(k, l', h')
    ensures Tears(l', h', l.log.lastIndex + 1, command)
  {
    var record := k.enc(l.log.lastIndex + 1, command);
    if io.write.Short? {
      var part := record[..Least(io.write.written, |record|)];
      h' := Amend(h, Last(h.parts), part, command);
      AmendWithin(h, Last(h.parts), part, command, p);
      ShortWriteKeeps(k, l, h, command, part, l');
    } else if l.log.cfg.fsync == Always && !io.sync {
      h' := Amend(h, Last(h.parts), record, command);
      AmendWithin(h, Last(h.parts), record, command, p);
      ShortWriteKeeps(k, l, h, command, record, l');
    } else {
      h' := Amend(h, Last(h.parts) + [command], [], []);
      SnocWithin(h, command, p);
      FullWriteKeeps(k, l, h, command, Written(Last(l.disk).file, record), l');
    }
  }

  // ---- Rotation ----

  lemma {:induction false} InnersAscend(k: Codec, d: Disk, parts: Parts)
    requires InnersOk(k, d, parts)
    ensures forall i :: 0 <= i < |d| ==> d[i].first < Following(d, parts) && d[i].linked
    decreases |d|
  {
    if d != [] {
      InnersAscend(k, Init(d), Init(parts));
      assert forall i :: 0 <= i < |d| - 1 ==> d[i] == Init(d)[i];
    }
  }

  lemma DirectoryFlushedIs(d: Disk, e: SegmentFile)
    requires forall i :: 0 <= i < |d| ==> d[i].linked
    ensures DirectoryFlushed(d + [e]) == d + [e.(linked := true)]
  {
    var r := DirectoryFlushed(d + [e]);
    assert forall i :: 0 <= i < |d| ==> r[i] == d[i];
  }

  /** A rotation creates a file with a name no segment has, after all the others. */
  lemma CreateAppends(k: Codec, d: Disk, parts: Parts, outcome: CreateOutcome)
    requires InnersOk(k, d, parts)
    ensures var next := Following(d, parts);
            && !Exists(d, next)
            && CreateSegment(d, next, outcome)
               == (match outcome
                   case NotCreated => (d, false)
                   case NotLinked => (d + [SegmentFile(next, EMPTY_FILE, false)], false)
                   case Created => (d + [SegmentFile(next, EMPTY_FILE, true)], true))
  {
    InnersAscend(k, d, parts);
    DirectoryFlushedIs(d, SegmentFile(Following(d, parts), EMPTY_FILE, false));
  }

  /** A clean log with something in its active segment can start another. */
  lemma ActiveIsInner(k: Codec, l: Live, h: History)
    requires LiveOk(k, l, h) && !l.log.failed && !l.log.dirty && l.log.activeSize > 0
    ensures InnersOk(k, l.disk, h.parts) && Following(l.disk, h.parts) == l.log.lastIndex + 1
    ensures InnerOk(k, Last(l.disk), Last(h.parts))
  {
    LiveIsShaped(k, l, h);
  }

  /** The log with a new segment, in its list or, if the directory could not be flushed, only on disk. */
  function WithSegment(l: Live, next: nat, linked: bool): Live {
    Live(l.disk + [SegmentFile(next, EMPTY_FILE, linked)],
         if linked then l.log.(segments := l.log.segments + [Segment(next, next - 1)], activeSize := 0)
         else l.log.(failed := true))
  }

  lemma WithSegmentOk(k: Codec, l: Live, h: History, next: nat, linked: bool)
    requires DiskOk(k, l.disk, h) && l.disk != [] && InnerOk(k, Last(l.disk), Last(h.parts))
    requires Agrees(k, l.log, l.disk, h.parts, []) && !l.log.failed && !l.log.dirty
    requires next == Following(l.disk, h.parts) == l.log.lastIndex + 1 < INDEX_LIMIT
    ensures LiveOk(k, WithSegment(l, next, linked), History(h.parts + [[]], [], []))
  {
    PushFile(k, l.disk, h, SegmentFile(next, EMPTY_FILE, linked));
  }

  lemma CreateIs(k: Codec, l: Live, h: History, create: CreateOutcome)
    requires LiveOk(k, l, h) && !l.log.failed && !l.log.dirty && l.log.activeSize > 0
    ensures var next := l.log.lastIndex + 1;
            CreateSegment(l.disk, next, create)
            == if create.NotCreated? then (l.disk, false)
               else (WithSegment(l, next, create.Created?).disk, create.Created?)
  {
    ActiveIsInner(k, l, h);
    CreateAppends(k, l.disk, h.parts, create);
  }

  lemma NewSegmentKeeps(k: Codec, l: Live, h: History, create: CreateOutcome, p: iset<Bytes>) returns (h': History)
    requires LiveOk(k, l, h) && !l.log.failed && !l.log.dirty && l.log.activeSize > 0
    requires l.log.lastIndex + 1 < INDEX_LIMIT
    requires Within(h, p)
    ensures Within(h', p)
    ensures if create.NotCreated? then LiveOk(k, Fail(l), h')
            else LiveOk(k, WithSegment(l, l.log.lastIndex + 1, create.Created?), h')
    ensures h'.torn == []
  {
    if create.NotCreated? {
      h' := h;
      FailKeeps(k, l, h);
    } else {
      ActiveIsInner(k, l, h);
      LiveIsShaped(k, l, h);
      h' := History(h.parts + [[]], [], []);
      PushWithin(h, p);
      WithSegmentOk(k, l, h, l.log.lastIndex + 1, create.Created?);
    }
  }

  /** The log after rotation's fsync, which it makes only if the log is dirty. */
  function BeforeRotation(l: Live, io: AppendIO): Live
    requires Shaped(l)
  {
    if l.log.dirty then Sync(l, io.flush) else l
  }

  lemma RotateIs(l: Live, next: nat, io: AppendIO, l1: Live)
    requires Shaped(l) && l1 == BeforeRotation(l, io)
    ensures Rotate(l, next, io)
         == if (l.log.dirty && !io.flush) || !io.close then (l1, false)
            else
              var (disk, ok) := CreateSegment(l1.disk, next, io.create);
              if ok then
                (Live(disk, l1.log.(segments := l1.log.segments + [Segment(next, next - 1)], activeSize := 0)), true)
              else (Live(disk, l1.log), false)
  {
  }

  lemma BeforeRotationKeeps(k: Codec, l: Live, h: History, io: AppendIO, l1: Live)
    requires LiveOk(k, l, h) && !l.log.failed && Shaped(l) && l1 == BeforeRotation(l, io)
    ensures LiveOk(k, l1, h)
    ensures (l.log.dirty ==> io.flush) ==> l1.log == l.log.(dirty := false)
  {
    if l.log.dirty {
      SyncKeeps(k, l, h, io.flush);
    }
  }

  /** What a rotation does: nothing more than its fsync, or a new file as well. */
  lemma RotateGives(k: Codec, l: Live, h: History, io: AppendIO, l1: Live)
    requires LiveOk(k, l, h) && !l.log.failed && l.log.activeSize > 0
    requires Shaped(l) && l1 == BeforeRotation(l, io)
    ensures LiveOk(k, l1, h)
    ensures var next := l.log.lastIndex + 1;
            var created := (l.log.dirty ==> io.flush) && io.close && !io.create.NotCreated?;
            && Rotate(l, next, io)
               == (if !created then (l1, false)
                   else if io.create.Created? then (WithSegment(l1, next, true), true)
                   else (Live(WithSegment(l1, next, false).disk, l1.log), false))
            && (created ==> l1.log == l.log.(dirty := false))
  {
    hide LiveOk, Rotate;
    LiveIsShaped(k, l, h);
    RotateIs(l, l.log.lastIndex + 1, io, l1);
    BeforeRotationKeeps(k, l, h, io, l1);
    if (l.log.dirty ==> io.flush) && io.close {
      CreateIs(k, l1, h, io.create);
    }
  }

  /** A rotation that succeeds leaves a log ready for its first record; one that does not leaves a failed log. */
  lemma RotatedKeeps(k: Codec, l: Live, h: History, io: AppendIO, p: iset<Bytes>) returns (h': History)
    requires LiveOk(k, l, h) && !l.log.failed && l.log.activeSize > 0 && l.log.lastIndex + 1 < INDEX_LIMIT
    requires Within(h, p)
    ensures Shaped(l) && Within(h', p)
    ensures var (l', ok) := Rotate(l, l.log.lastIndex + 1, io);
            && LiveOk(k, if ok then l' else Fail(l'), h')
            && (ok ==> l'.log == l.log.(segments := l'.log.segments, activeSize := 0, dirty := false))
    ensures h'.torn == []
  {
    hide LiveOk, Within, Rotate, BeforeRotation;
    LiveIsShaped(k, l, h);
    var next, l1 := l.log.lastIndex + 1, BeforeRotation(l, io);
    RotateGives(k, l, h, io, l1);
    if (l.log.dirty ==> io.flush) && io.close && !io.create.NotCreated? {
      h' := NewSegmentKeeps(k, l1, h, io.create, p);
      assert WithSegment(l1, next, false) == Fail(Live(WithSegment(l1, next, false).disk, l1.log));
    } else {
      h' := h;
      FailKeeps(k, l1, h);
    }
  }

  // ---- Every operation ----

  lemma WriteRecordKeeps(
    k: Codec, l: Live, h: History, command: Bytes, io: AppendIO, r: (Live, AppendResult), p: iset<Bytes>)
    returns (h': History)
    requires LiveOk(k, l, h) && !l.log.failed && Storable(l.log.lastIndex + 1, command) && Shaped(l)
    requires r == WriteRecord(l, l.log.lastIndex + 1, k.enc(l.log.lastIndex + 1, command), io)
    requires Within(h, p) && command in p
    ensures Within(h', p)
    ensures LiveOk(k, r.0, h')
    ensures Tears(r.0, h', l.log.lastIndex + 1, command)
  {
    LiveIsShaped(k, l, h);
    WriteRecordHasEffect(l, l.log.lastIndex + 1, k.enc(l.log.lastIndex + 1, command), io);
    h' := WriteKeeps(k, l, h, command, io, r.0, r.1, p);
  }

  lemma AppendKeeps(k: Codec, l: Live, h: History, command: Bytes, io: AppendIO, p: iset<Bytes>) returns (h': History)
    requires LiveOk(k, l, h) && l.log.lastIndex + 1 < INDEX_LIMIT
    requires Within(h, p) && command in p
    ensures Shaped(l) && Within(h', p) && LiveOk(k, Append(k, l, command, io).0, h')
    ensures !l.log.failed ==> Tears(Append(k, l, command, io).0, h', l.log.lastIndex + 1, command)
  {
    hide LiveOk, Within, Rotate, WriteRecord;
    LiveIsShaped(k, l, h);
    var r := Append(k, l, command, io);
    if |command| > MAX_COMMAND_SIZE || l.log.closed || l.log.failed {
      h' := h;
    } else if MustRotate(l, k.enc(l.log.lastIndex + 1, command)) {
      h' := RotatedKeeps(k, l, h, io, p);
      var (l1, ok) := Rotate(l, l.log.lastIndex + 1, io);
      if ok {
        h' := WriteRecordKeeps(k, l1, h', command, io, r, p);
      }
    } else {
      h' := WriteRecordKeeps(k, l, h, command, io, r, p);
    }
  }

  lemma TickKeeps(k: Codec, l: Live, h: History, ok: bool)
    requires LiveOk(k, l, h)
    ensures Shaped(l) && LiveOk(k, Tick(l, ok), h)
  {
    LiveIsShaped(k, l, h);
    if l.log.dirty && !l.log.failed && !l.log.closed {
      SyncKeeps(k, l, h, ok);
    }
  }

  /** The flags that only Close sets play no part in the invariant. */
  lemma FlagsAreFree(k: Codec, l: Live, h: History, closed: bool, released: bool)
    requires LiveOk(k, l, h)
    ensures LiveOk(k, l.(log := l.log.(closed := closed, released := released)), h)
  {
  }

  lemma FinishKeeps(k: Codec, l: Live, h: History, syncOk: bool, closeOk: bool)
    requires LiveOk(k, l, h)
    ensures Shaped(l) && LiveOk(k, CloseFinish(l, syncOk, closeOk).0, h)
  {
    LiveIsShaped(k, l, h);
    if !l.log.failed && l.log.dirty {
      SyncKeeps(k, l, h, syncOk);
      FlagsAreFree(k, Sync(l, syncOk), h, l.log.closed, true);
    } else {
      FlagsAreFree(k, l, h, l.log.closed, true);
    }
  }

  /** Every operation of an open log keeps the invariant, whatever its system calls do. */
  lemma PerformKeeps(k: Codec, l: Live, h: History, op: Operation, p: iset<Bytes>) returns (h': History)
    requires LiveOk(k, l, h)
    requires op.AppendCommand? ==> l.log.lastIndex + 1 < INDEX_LIMIT
    requires Within(h, p) && (op.AppendCommand? ==> op.command in p)
    ensures Within(h', p)
    ensures Shaped(l) && LiveOk(k, Perform(k, l, op), h')
  {
    LiveIsShaped(k, l, h);
    h' := h;
    match op
    case AppendCommand(command, io) => h' := AppendKeeps(k, l, h, command, io, p);
    case TickSyncer(ok) => TickKeeps(k, l, h, ok);
    case BeginClose => FlagsAreFree(k, l, h, true, l.log.released);
    case FinishClose(syncOk, closeOk) => FinishKeeps(k, l, h, syncOk, closeOk);
  }
}
