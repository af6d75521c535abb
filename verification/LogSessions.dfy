/** What holds within one opening of the log: failures, closing, and where a crash can interrupt an append. */
module LogSessions {
  import opened ByteStrings
  import opened Sequences
  import opened Codecs
  import opened Disks
  import opened LogSpec
  import opened LogInvariant
  import opened LogDurability

  /** The operations ops, by whichever goroutines, one after the other. */
  function PerformAll(k: Codec, l: Live, ops: seq<Operation>): (r: Live)
    requires Shaped(l)
    ensures Shaped(r)
    decreases |ops|
  {
    if ops == [] then l else PerformAll(k, Perform(k, l, ops[0]), ops[1..])
  }

  /** Every append of ops has an index that fits. */
  ghost predicate InRange(k: Codec, l: Live, ops: seq<Operation>)
    requires Shaped(l)
    decreases |ops|
  {
    ops != [] ==>
      && (ops[0].AppendCommand? ==> l.log.lastIndex + 1 < INDEX_LIMIT)
      && InRange(k, Perform(k, l, ops[0]), ops[1..])
  }

  ghost predicate AllSent(ops: seq<Operation>, p: iset<Bytes>) {
    forall op :: op in ops && op.AppendCommand? ==> op.command in p
  }

  /** Throughout a session the invariant holds, and the disk only ever grows. */
  lemma {:induction false} SessionKeeps(k: Codec, l: Live, h: History, ops: seq<Operation>, p: iset<Bytes>)
    returns (h': History)
    requires LiveOk(k, l, h) && Shaped(l) && InRange(k, l, ops) && Within(h, p) && AllSent(ops, p)
    ensures LiveOk(k, PerformAll(k, l, ops), h') && Within(h', p)
    ensures Extends(l.disk, PerformAll(k, l, ops).disk)
    decreases |ops|
  {
    hide LiveOk, Within, Extends, Perform;
    h' := h;
    ExtendsItself(k, l, h);
    if ops != [] {
      assert ops[0] in ops;
      PerformExtends(k, l, h, ops[0], p);
      h' := PerformKeeps(k, l, h, ops[0], p);
      h' := SessionKeeps(k, Perform(k, l, ops[0]), h', ops[1..], p);
      ExtendsTransitive(l.disk, Perform(k, l, ops[0]).disk, PerformAll(k, l, ops).disk);
    }
  }

  /** The commands that ops append and acknowledge, in order. */
  function AckedIn(k: Codec, l: Live, ops: seq<Operation>): seq<Bytes>
    requires Shaped(l)
    decreases |ops|
  {
    if ops == [] then [] else Acks(k, l, ops[0]) + AckedIn(k, Perform(k, l, ops[0]), ops[1..])
  }

  /** Whatever the fsync policy, a log counts what it counted before and every command acknowledged since. */
  lemma {:induction false} SessionCommands(k: Codec, l: Live, h: History, ops: seq<Operation>, p: iset<Bytes>)
    requires Lawful(k) && LiveOk(k, l, h) && Shaped(l) && InRange(k, l, ops) && Within(h, p) && AllSent(ops, p)
    ensures 0 <= l.log.lastIndex <= |Commands(k, l.disk)|
    ensures var l' := PerformAll(k, l, ops);
            && 0 <= l'.log.lastIndex <= |Commands(k, l'.disk)| <= l'.log.lastIndex + 1
            && Commands(k, l'.disk)[..l'.log.lastIndex]
            == Commands(k, l.disk)[..l.log.lastIndex] + AckedIn(k, l, ops)
    decreases |ops|
  {
    hide LiveOk, Within, Perform, Commands, Acks;
    if ops == [] {
      LastIndexIsNat(k, l, h);
      LastIndexCounts(k, l, h);
    } else {
      assert ops[0] in ops;
      PerformCounts(k, l, h, ops[0], p);
      var h' := PerformKeeps(k, l, h, ops[0], p);
      SessionCommands(k, Perform(k, l, ops[0]), h', ops[1..], p);
    }
  }

  // ---- Sticky failure ----

  /**
   * After a failure no operation changes any file, the segment list or the last
   * index, and none succeeds in appending.
   */
  lemma {:induction false} FailureIsSticky(k: Codec, l: Live, ops: seq<Operation>)
    requires Shaped(l) && l.log.failed
    ensures var l' := PerformAll(k, l, ops);
            && l'.disk == l.disk
            && l'.log == l.log.(closed := l'.log.closed, released := l'.log.released)
    ensures forall command, io :: !Append(k, PerformAll(k, l, ops), command, io).1.Acked?
    decreases |ops|
  {
    if ops != [] {
      FailureIsSticky(k, Perform(k, l, ops[0]), ops[1..]);
    }
  }

  // ---- Closing ----

  ghost predicate NoFinish(ops: seq<Operation>) {
    forall op :: op in ops ==> !op.FinishClose?
  }

  /** Between the two phases of Close, appenders, the syncer and other closers change nothing. */
  lemma {:induction false} ClosingIsQuiet(k: Codec, l: Live, ops: seq<Operation>)
    requires Shaped(l) && l.log.closed && NoFinish(ops)
    ensures PerformAll(k, l, ops) == l
    decreases |ops|
  {
    if ops != [] {
      assert ops[0] in ops;
      assert Perform(k, l, ops[0]) == l;
      ClosingIsQuiet(k, l, ops[1..]);
    }
  }

  /**
   * When the Close that does the work returns no error on a log that has not
   * failed, every record is durable, whatever the fsync policy and whatever
   * ran between its two phases; nothing was written after its first phase.
   */
  lemma CloseIsComplete(k: Codec, l: Live, h: History, ops: seq<Operation>, syncOk: bool, closeOk: bool)
    requires Lawful(k) && LiveOk(k, l, h) && Shaped(l) && !l.log.closed && !l.log.failed && NoFinish(ops)
    ensures CloseBegin(l).1 && Shaped(CloseBegin(l).0)
    ensures var (l', ok) := CloseFinish(PerformAll(k, CloseBegin(l).0, ops), syncOk, closeOk);
            ok ==>
              && AllDurable(l'.disk)
              && SafeCommands(k, l'.disk) == Commands(k, l'.disk) == Commands(k, l.disk)
              && |Commands(k, l'.disk)| == l.log.lastIndex
  {
    hide LiveOk, Commands, SafeCommands, AllDurable, Sync;
    var l1 := CloseBegin(l).0;
    ClosingIsQuiet(k, l1, ops);
    FlagsAreFree(k, l, h, true, l.log.released);
    var (l', ok) := CloseFinish(l1, syncOk, closeOk);
    if ok {
      FinishKeeps(k, l1, h, syncOk, closeOk);
      SyncSameCommands(k, l1, h, syncOk);
      CloseIsClean(l1, syncOk, closeOk);
      CleanIsDurable(k, l', h);
      DurableIsSafe(k, l'.disk);
      LastIndexCounts(k, l, h);
    }
  }

  lemma CloseIsClean(l: Live, syncOk: bool, closeOk: bool)
    requires Shaped(l) && !l.log.failed && CloseFinish(l, syncOk, closeOk).1
    ensures var log := CloseFinish(l, syncOk, closeOk).0.log; !log.failed && !log.dirty
  {
  }

  // ---- Where a crash can interrupt an append ----

  /** The points between the system calls of an append. */
  datatype Point =
    | AfterFlush            // rotating: the old segment is flushed
    | AfterCreate           // rotating: the new file exists, its directory entry is not flushed
    | AfterLink             // rotating: the entry is flushed
    | AfterBytes(n: nat)    // n bytes of the record are written
    | AfterSync             // all of it is written and flushed

  /** System calls that succeed up to that point and fail after it. */
  function StopAt(point: Point): AppendIO {
    match point
    case AfterFlush => AppendIO(true, false, NotCreated, Short(0), false)
    case AfterCreate => AppendIO(true, true, NotLinked, Short(0), false)
    case AfterLink => AppendIO(true, true, Created, Short(0), false)
    case AfterBytes(n) => AppendIO(true, true, Created, Short(n), false)
    case AfterSync => AppendIO(true, true, Created, Wrote, true)
  }

  /** The disk when the append of record at index next reaches a point, starting a new segment or not. */
  function DiskAt(d: Disk, dirty: bool, rotates: bool, next: nat, record: Bytes, point: Point): Disk
    requires d != []
  {
    var flushed := if dirty then WithLast(d, Flushed(Last(d).file)) else d;
    var before := if rotates then flushed + [SegmentFile(next, EMPTY_FILE, true)] else d;
    var f := Last(before).file;
    match point
    case AfterFlush => if rotates then flushed else d
    case AfterCreate => if rotates then flushed + [SegmentFile(next, EMPTY_FILE, false)] else d
    case AfterLink => before
    case AfterBytes(n) => WithLast(before, Written(f, record[..Least(n, |record|)]))
    case AfterSync => WithLast(before, Flushed(Written(f, record)))
  }

  /**
   * A machine that stops in the middle of an append stops on a disk that an
   * append which fails there leaves behind, so a run with a failed append and
   * then a crash stands for a crash at any point.
   */
  lemma EveryPointIsAnOutcome(k: Codec, l: Live, h: History, command: Bytes, point: Point)
    requires Lawful(k) && LiveOk(k, l, h) && Shaped(l) && !l.log.failed && !l.log.closed
    requires Storable(l.log.lastIndex + 1, command)
    requires var rotates := MustRotate(l, k.enc(l.log.lastIndex + 1, command));
             (!rotates ==> point.AfterBytes? || point.AfterSync?) && (point.AfterSync? ==> l.log.cfg.fsync == Always)
    ensures var record := k.enc(l.log.lastIndex + 1, command);
            Append(k, l, command, StopAt(point)).0.disk
            == DiskAt(l.disk, l.log.dirty, MustRotate(l, record), l.log.lastIndex + 1, record, point)
  {
    hide LiveOk, Rotate, WriteRecord, Sync;
    LiveIsShaped(k, l, h);
    var next, io := l.log.lastIndex + 1, StopAt(point);
    var record := k.enc(next, command);
    if MustRotate(l, record) {
      var l1 := BeforeRotation(l, io);
      SyncFlushes(l);
      RotateGives(k, l, h, io, l1);
      if !point.AfterFlush? && !point.AfterCreate? {
        var l2 := WithSegment(l1, next, true);
        BeforeRotationKeeps(k, l, h, io, l1);
        LiveIsShaped(k, l1, h);
        WriteRecordHasEffect(l2, next, record, io);
        WritesNothing(l2.disk, record);
      }
    } else {
      WriteRecordHasEffect(l, next, record, io);
    }
  }

  lemma WritesNothing(d: Disk, record: Bytes)
    requires d != []
    ensures WithLast(d, Written(Last(d).file, record[..0])) == d
  {
    var f := Last(d).file;
    assert f.data + record[..0] == f.data;
  }
}
