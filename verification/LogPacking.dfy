/** How full segments are, as long as nothing fails. */
module LogPacking {
  import opened ByteStrings
  import opened Sequences
  import opened Codecs
  import opened SegmentScan
  import opened Disks
  import opened LogSpec
  import opened LogInvariant
  import opened LogRecovery
  import opened LogDurability
  import opened LogSessions
  import opened LogRuns

  function Size(e: SegmentFile): nat {
    |e.file.data|
  }

  /** Every file fits the limit or holds one record, and no two neighbours would have fitted in one. */
  ghost predicate Packed(k: Codec, d: Disk, limit: nat)
    requires Lawful(k)
  {
    d != [] ==>
      && Packed(k, Init(d), limit)
      && (Size(Last(d)) <= limit || |Scan(k, Last(d).file.data, Last(d).first).commands| == 1)
      && (|d| > 1 ==> Size(d[|d| - 2]) + Size(Last(d)) > limit)
  }

  function Total(d: Disk): nat {
    if d == [] then 0 else Total(Init(d)) + Size(Last(d))
  }

  /** So at most twice as many segments as the bytes need, and one more. */
  lemma {:induction false} PackingBound(k: Codec, d: Disk, limit: nat)
    requires Lawful(k) && Packed(k, d, limit) && d != []
    ensures (|d| - 1) * limit + Size(Last(d)) <= 2 * Total(d)
    decreases |d|
  {
    if |d| > 1 {
      PackingBound(k, Init(d), limit);
      assert Last(Init(d)) == d[|d| - 2];
      assert (|d| - 1) * limit == (|Init(d)| - 1) * limit + limit;
    }
  }

  lemma PackedRewrite(k: Codec, d: Disk, e: SegmentFile, limit: nat)
    requires Lawful(k) && Packed(k, d, limit) && d != [] && Size(Last(d)) <= Size(e)
    requires Size(e) <= limit || |Scan(k, e.file.data, e.first).commands| == 1
    ensures Packed(k, d[|d| - 1 := e], limit)
  {
    LastUpdated(d, e);
    assert Init(d[|d| - 1 := e]) == Init(d);
  }

  lemma PackedPush(k: Codec, d: Disk, e: SegmentFile, limit: nat)
    requires Lawful(k) && Packed(k, d, limit) && d != [] && Size(Last(d)) + Size(e) > limit
    requires Size(e) <= limit || |Scan(k, e.file.data, e.first).commands| == 1
    ensures Packed(k, d + [e], limit)
  {
    assert Init(d + [e]) == d;
  }

  lemma SyncPacks(k: Codec, l: Live, h: History, ok: bool, limit: nat)
    requires Lawful(k) && LiveOk(k, l, h) && !l.log.failed && Packed(k, l.disk, limit)
    ensures Shaped(l) && Packed(k, Sync(l, ok).disk, limit)
  {
    hide Scan;
    LiveIsShaped(k, l, h);
    if ok {
      SyncFlushes(l);
      PackedRewrite(k, l.disk, Last(l.disk).(file := Flushed(Last(l.disk).file)), limit);
    }
  }

  /** The file that a successful write leaves. */
  lemma WrittenFile(k: Codec, l: Live, h: History, command: Bytes, io: AppendIO, l': Live, result: AppendResult)
    requires Lawful(k) && LiveOk(k, l, h) && !l.log.failed && Storable(l.log.lastIndex + 1, command)
    requires WriteEffect(l, l.log.lastIndex + 1, k.enc(l.log.lastIndex + 1, command), io, l', result) && result.Acked?
    ensures l.log.activeSize == Size(Last(l.disk))
    ensures l'.disk == l.disk[|l.disk| - 1 := Last(l'.disk)]
    ensures Size(Last(l'.disk)) == l.log.activeSize + RECORD_OVERHEAD + |command|
    ensures l.log.activeSize == 0 ==> |Scan(k, Last(l'.disk).file.data, Last(l'.disk).first).commands| == 1
  {
    hide InnersOk, SegmentsFor, Scan;
    LiveIsShaped(k, l, h);
    var e, commands := Last(l.disk), Last(h.parts);
    var e' := e.(file := Written(e.file, k.enc(e.first + |commands|, command)));
    RecordWritten(k, e, commands, command, h.inflight);
    LastHolds(k, e', commands + [command], [], []);
    if l.log.activeSize == 0 {
      EncodeAllLength(k, e.first, commands);
    }
  }

  lemma WritePacks(k: Codec, l: Live, h: History, command: Bytes, io: AppendIO)
    requires Lawful(k) && LiveOk(k, l, h) && Shaped(l) && !l.log.failed && Storable(l.log.lastIndex + 1, command)
    requires !MustRotate(l, k.enc(l.log.lastIndex + 1, command)) && Packed(k, l.disk, l.log.cfg.segmentBytes)
    ensures var (l', result) := WriteRecord(l, l.log.lastIndex + 1, k.enc(l.log.lastIndex + 1, command), io);
            result.Acked? ==> Packed(k, l'.disk, l.log.cfg.segmentBytes)
  {
    hide LiveOk, Scan, WriteRecord, Packed;
    LiveIsShaped(k, l, h);
    var index := l.log.lastIndex + 1;
    var record := k.enc(index, command);
    var (l', result) := WriteRecord(l, index, record, io);
    WriteRecordHasEffect(l, index, record, io);
    if result.Acked? {
      WrittenFile(k, l, h, command, io, l', result);
      PackedRewrite(k, l.disk, Last(l'.disk), l.log.cfg.segmentBytes);
    }
  }

  /** A rotation and the write after it add one file, which the old one would not have held. */
  lemma RotatePacks(k: Codec, l: Live, h: History, command: Bytes, io: AppendIO, p: iset<Bytes>)
    requires Lawful(k) && LiveOk(k, l, h) && Shaped(l) && !l.log.failed && Storable(l.log.lastIndex + 1, command)
    requires Within(h, p) && command in p
    requires MustRotate(l, k.enc(l.log.lastIndex + 1, command)) && Packed(k, l.disk, l.log.cfg.segmentBytes)
    ensures var (l', result) := Append(k, l, command, io);
            result.Acked? ==> Packed(k, l'.disk, l.log.cfg.segmentBytes)
  {
    hide LiveOk, Within, Scan, WriteRecord, Rotate, Packed, Sync;
    var index, limit := l.log.lastIndex + 1, l.log.cfg.segmentBytes;
    var record := k.enc(index, command);
    var (l', result) := Append(k, l, command, io);
    if result.Acked? {
      var l1 := BeforeRotation(l, io);
      RotateGives(k, l, h, io, l1);
      BeforeRotationKeeps(k, l, h, io, l1);
      if l.log.dirty {
        SyncPacks(k, l, h, io.flush, limit);
      }
      ActiveSizeIs(k, l1, h);
      var h2 := RotatedKeeps(k, l, h, io, p);
      var l2 := Rotate(l, index, io).0;
      LiveIsShaped(k, l2, h2);
      WriteRecordHasEffect(l2, index, record, io);
      WrittenFile(k, l2, h2, command, io, l', result);
      assert Init(l2.disk) == l1.disk;
      LastUpdated(l2.disk, Last(l'.disk));
      PackedPush(k, l1.disk, Last(l'.disk), limit);
    }
  }

  lemma ActiveSizeIs(k: Codec, l: Live, h: History)
    requires LiveOk(k, l, h) && !l.log.failed
    ensures l.disk != [] && l.log.activeSize == Size(Last(l.disk))
  {
    LiveIsShaped(k, l, h);
  }

  lemma OperationPacks(k: Codec, l: Live, h: History, op: Operation, p: iset<Bytes>)
    requires Lawful(k) && LiveOk(k, l, h) && Shaped(l) && Packed(k, l.disk, l.log.cfg.segmentBytes) && Within(h, p)
    requires op.AppendCommand? ==> l.log.lastIndex + 1 < INDEX_LIMIT && op.command in p
    ensures var l' := Perform(k, l, op);
            !l'.log.failed ==> !l.log.failed && l'.log.cfg == l.log.cfg && Packed(k, l'.disk, l.log.cfg.segmentBytes)
  {
    hide LiveOk, Within, Packed;
    match op
    case AppendCommand(command, io) =>
      if |command| <= MAX_COMMAND_SIZE && !l.log.closed && !l.log.failed {
        if MustRotate(l, k.enc(l.log.lastIndex + 1, command)) {
          RotatePacks(k, l, h, command, io, p);
        } else {
          WritePacks(k, l, h, command, io);
        }
      }
    case TickSyncer(ok) =>
      if !l.log.failed {
        SyncPacks(k, l, h, ok, l.log.cfg.segmentBytes);
      }
    case BeginClose =>
    case FinishClose(syncOk, closeOk) =>
      if !l.log.failed {
        SyncPacks(k, l, h, syncOk, l.log.cfg.segmentBytes);
      }
  }

  /** In a session without failures a packed log stays packed. */
  lemma {:induction false} SessionPacks(k: Codec, l: Live, h: History, ops: seq<Operation>, p: iset<Bytes>)
    requires Lawful(k) && LiveOk(k, l, h) && Shaped(l) && Packed(k, l.disk, l.log.cfg.segmentBytes)
    requires InRange(k, l, ops) && Within(h, p) && AllSent(ops, p)
    requires !PerformAll(k, l, ops).log.failed
    ensures Packed(k, PerformAll(k, l, ops).disk, l.log.cfg.segmentBytes)
    decreases |ops|
  {
    hide LiveOk, Within, Packed, Perform;
    if ops != [] {
      assert ops[0] in ops;
      var l1 := Perform(k, l, ops[0]);
      if l1.log.failed {
        FailureIsSticky(k, l1, ops[1..]);
      }
      OperationPacks(k, l, h, ops[0], p);
      var h1 := PerformKeeps(k, l, h, ops[0], p);
      SessionPacks(k, l1, h1, ops[1..], p);
    }
  }

  // ---- Runs ----

  /** Verification finds no damage in the last file. */
  ghost predicate Undamaged(k: Codec, d: Disk)
    requires Lawful(k)
  {
    d != [] ==> Scan(k, Last(d).file.data, Last(d).first).damage == NoDamage
  }

  lemma HealthyIsUndamaged(k: Codec, l: Live, h: History)
    requires Lawful(k) && LiveOk(k, l, h) && !l.log.failed
    ensures Undamaged(k, l.disk)
  {
    hide EncodeAll, Scan, InnersOk, SegmentsFor;
    LiveIsShaped(k, l, h);
    var e, commands := Last(l.disk), Last(h.parts);
    assert e.file.data == EncodeAll(k, e.first, commands) + [] == EncodeAll(k, e.first, commands);
    ScanWhole(k, e.first, commands);
  }

  lemma NothingIsPacked(k: Codec, limit: nat, linked: bool)
    requires Lawful(k)
    ensures var d := [SegmentFile(1, EMPTY_FILE, linked)]; Packed(k, d, limit) && Undamaged(k, d)
  {
    var d := [SegmentFile(1, EMPTY_FILE, linked)];
    assert Init(d) == [];
  }

  /** Opening such a disk leaves it as it is, or starts the first segment. */
  lemma OpenPacks(k: Codec, cfg: Config, d: Disk, io: OpenIO, limit: nat)
    requires Lawful(k) && Packed(k, d, limit) && Undamaged(k, d)
    ensures var d' := Open(k, cfg, d, io).0; Packed(k, d', limit) && Undamaged(k, d')
  {
    hide Scan, Acceptable, SegmentsOf, OpenScanned;
    if d == [] {
      CreateAppends(k, d, [], io.create);
      NothingIsPacked(k, limit, true);
      NothingIsPacked(k, limit, false);
      assert d + [SegmentFile(1, EMPTY_FILE, true)] == [SegmentFile(1, EMPTY_FILE, true)];
      assert d + [SegmentFile(1, EMPTY_FILE, false)] == [SegmentFile(1, EMPTY_FILE, false)];
    } else {
      AreSized(k, d);
      OpenScannedIs(k, cfg, d, ScanAll(k, d), io);
    }
  }

  /** No machine crash, no failed operation, and one segment size for all openings. */
  ghost predicate Smooth(k: Codec, s: State, events: seq<Event>, limit: nat)
    requires Lawful(k) && Sane(s)
    decreases |events|
  {
    events != [] ==>
      var s' := Next(k, s, events[0]);
      && !events[0].Crash? && (events[0].OpenLog? ==> events[0].cfg.segmentBytes == limit)
      && (s'.log.Some? ==> !s'.log.value.failed)
      && Smooth(k, s', events[1..], limit)
  }

  /** What every step of such a run keeps. */
  ghost predicate Tidy(k: Codec, s: State, limit: nat)
    requires Lawful(k)
  {
    && Packed(k, s.disk, limit) && Undamaged(k, s.disk)
    && (s.log.Some? ==> s.log.value.cfg.segmentBytes == limit)
  }

  lemma NextTidies(k: Codec, s: State, h: History, e: Event, p: iset<Bytes>, limit: nat)
    requires Lawful(k) && Sane(s) && StateOk(k, s, h) && Within(h, p) && Allowed(k, s, e) && All(SentBy(e), p)
    requires Tidy(k, s, limit) && !e.Crash? && (e.OpenLog? ==> e.cfg.segmentBytes == limit)
    requires var s' := Next(k, s, e); s'.log.Some? ==> !s'.log.value.failed
    ensures Tidy(k, Next(k, s, e), limit)
  {
    hide LiveOk, DiskOk, Within, Open, Perform, AllDurable, Packed, Undamaged;
    match e
    case Crash(_) =>
    case Exit =>
    case OpenLog(cfg, io) =>
      if s.log.None? {
        OpenPacks(k, cfg, s.disk, io, limit);
        OpenedWith(k, cfg, s.disk, io);
      }
    case Operate(op) =>
      if s.log.Some? {
        var l := Live(s.disk, s.log.value);
        assert op.AppendCommand? ==> op.command in Sends(op);
        OperationPacks(k, l, h, op, p);
        ConfigKept(k, l, op);
        var h' := PerformKeeps(k, l, h, op, p);
        HealthyIsUndamaged(k, Perform(k, l, op), h');
      }
  }

  lemma OpenedWith(k: Codec, cfg: Config, d: Disk, io: OpenIO)
    requires Lawful(k)
    ensures Open(k, cfg, d, io).1.Opened? ==> Open(k, cfg, d, io).1.log.cfg == cfg
  {
  }

  lemma {:induction false} RunTidies(k: Codec, s: State, events: seq<Event>, p: iset<Bytes>, limit: nat)
    requires Lawful(k) && Sane(s) && Sound(k, s, p) && Disciplined(k, s, events) && All(SentIn(events), p)
    requires Tidy(k, s, limit) && Smooth(k, s, events, limit)
    ensures Tidy(k, Run(k, s, events), limit)
    decreases |events|
  {
    hide StateOk, Within, Next, Allowed, Tidy;
    if events != [] {
      var h :| StateOk(k, s, h) && Within(h, p);
      NextTidies(k, s, h, events[0], p, limit);
      var h' := NextKeeps(k, s, h, events[0], p);
      assert Sound(k, Next(k, s, events[0]), p);
      RunTidies(k, Next(k, s, events[0]), events[1..], p, limit);
    }
  }

  /**
   * A new log, after any number of openings, sessions and closes without failure
   * or crash, has segments that fit the limit or hold one record, no two
   * neighbours that would have fitted in one, and at most 2 * bytes / limit + 1 of
   * them.
   */
  lemma RunIsPacked(k: Codec, events: seq<Event>, limit: nat)
    requires Lawful(k) && Disciplined(k, INITIAL, events) && Smooth(k, INITIAL, events, limit)
    ensures var d := Run(k, INITIAL, events).disk;
            Packed(k, d, limit) && (d != [] ==> (|d| - 1) * limit <= 2 * Total(d))
  {
    hide Run, Disciplined, Smooth;
    var p := Those(SentIn(events));
    InitialIsSound(k, p);
    RunTidies(k, INITIAL, events, p, limit);
    var d := Run(k, INITIAL, events).disk;
    if d != [] {
      PackingBound(k, d, limit);
    }
  }
}
