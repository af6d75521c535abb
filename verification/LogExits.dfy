/**
 * Which endings of a process make the next opening hazardous: told from the
 * fields of the log when it ends, or from the outcome of an opening that failed.
 */
module LogExits {
  import opened ByteStrings
  import opened Sequences
  import opened Codecs
  import opened SegmentScan
  import opened Disks
  import opened LogSpec
  import opened LogInvariant
  import opened LogRecovery
  import opened LogReopening
  import opened LogRuns
  import opened LogRefusals
  import opened LogKills

  // ---- What the fields say about the disk ----

  /**
   * dirty says that counted bytes of the active file are not durable; bytes beyond
   * activeSize come from a write that failed; a file beyond the segment list is
   * one whose directory entry could not be flushed.
   */
  ghost predicate FlagsOk(l: Live) {
    && Shaped(l) && Active(l).linked && (|l.disk| > |l.log.segments| ==> l.log.failed && !Last(l.disk).linked)
    && var f, size := Active(l).file, l.log.activeSize;
       && f.stale == [] && f.durable <= size <= |f.data| && (l.log.dirty <==> f.durable < size)
       && (!l.log.failed ==> size == |f.data|)
  }

  lemma SyncFlags(l: Live, ok: bool)
    requires FlagsOk(l) && !l.log.failed
    ensures FlagsOk(Sync(l, ok))
    ensures ok ==> !Sync(l, ok).log.dirty && !Sync(l, ok).log.failed
  {
  }

  lemma WriteFlags(l: Live, index: nat, record: Bytes, io: AppendIO)
    requires FlagsOk(l) && !l.log.failed && record != []
    ensures FlagsOk(WriteRecord(l, index, record, io).0)
  {
  }

  lemma RotateFlags(k: Codec, l: Live, h: History, io: AppendIO)
    requires LiveOk(k, l, h) && FlagsOk(l) && !l.log.failed && l.log.activeSize > 0
    ensures var (l', ok) := Rotate(l, l.log.lastIndex + 1, io);
            if ok then FlagsOk(l') && !l'.log.failed else FlagsOk(Fail(l'))
  {
    hide LiveOk, Rotate, Sync;
    var l1 := BeforeRotation(l, io);
    RotateGives(k, l, h, io, l1);
    if l.log.dirty {
      SyncFlags(l, io.flush);
    }
  }

  lemma AppendFlags(k: Codec, l: Live, h: History, command: Bytes, io: AppendIO)
    requires Lawful(k) && LiveOk(k, l, h) && FlagsOk(l)
    ensures FlagsOk(Append(k, l, command, io).0)
  {
    hide LiveOk, Rotate, WriteRecord, FlagsOk;
    assert Shaped(l) by { FlagsAreShaped(l); }
    if |command| <= MAX_COMMAND_SIZE && !l.log.closed && !l.log.failed {
      var index := l.log.lastIndex + 1;
      var record := k.enc(index, command);
      if MustRotate(l, record) {
        RotateFlags(k, l, h, io);
        if Rotate(l, index, io).1 {
          WriteFlags(Rotate(l, index, io).0, index, record, io);
        }
      } else {
        WriteFlags(l, index, record, io);
      }
    }
  }

  lemma FlagsAreShaped(l: Live)
    requires FlagsOk(l)
    ensures Shaped(l)
  {
  }

  lemma PerformFlags(k: Codec, l: Live, h: History, op: Operation)
    requires Lawful(k) && LiveOk(k, l, h) && FlagsOk(l)
    ensures FlagsOk(Perform(k, l, op))
  {
    hide LiveOk, Append;
    match op
    case AppendCommand(command, io) => AppendFlags(k, l, h, command, io);
    case TickSyncer(ok) =>
      if !l.log.failed {
        SyncFlags(l, ok);
      }
    case BeginClose =>
    case FinishClose(syncOk, closeOk) =>
      if !l.log.failed {
        SyncFlags(l, syncOk);
      }
  }

  lemma OpenedFlags(k: Codec, l: Live, h: History)
    requires LiveOk(k, l, h) && !l.log.failed && !l.log.dirty && AllDurable(l.disk)
    ensures FlagsOk(l)
  {
    LiveIsShaped(k, l, h);
  }

  lemma OpenedIsFresh(k: Codec, cfg: Config, d: Disk, io: OpenIO)
    requires Lawful(k) && Open(k, cfg, d, io).1.Opened?
    ensures !Open(k, cfg, d, io).1.log.failed && !Open(k, cfg, d, io).1.log.dirty
  {
  }

  lemma NextFlags(k: Codec, s: State, h: History, e: Event, p: iset<Bytes>)
    requires Lawful(k) && Sane(s) && StateOk(k, s, h) && Within(h, p) && Allowed(k, s, e)
    requires s.log.Some? ==> FlagsOk(Live(s.disk, s.log.value))
    ensures var s' := Next(k, s, e); s'.log.Some? ==> FlagsOk(Live(s'.disk, s'.log.value))
  {
    hide LiveOk, DiskOk, Within, Open, Perform, AllDurable, FlagsOk;
    match e
    case Crash(_) =>
    case Exit =>
    case OpenLog(cfg, io) =>
      if s.log.None? && Open(k, cfg, s.disk, io).1.Opened? {
        var (disk, result) := Open(k, cfg, s.disk, io);
        var h' := OpenKeeps(k, cfg, s.disk, h, io, p);
        OpenedIsFresh(k, cfg, s.disk, io);
        OpenedFlags(k, Live(disk, result.log), h');
      }
    case Operate(op) =>
      if s.log.Some? {
        PerformFlags(k, Live(s.disk, s.log.value), h, op);
      }
  }

  lemma {:induction false} RunFlags(k: Codec, s: State, events: seq<Event>, p: iset<Bytes>)
    requires Lawful(k) && Sane(s) && Sound(k, s, p) && Disciplined(k, s, events) && All(SentIn(events), p)
    requires s.log.Some? ==> FlagsOk(Live(s.disk, s.log.value))
    ensures var s' := Run(k, s, events); s'.log.Some? ==> FlagsOk(Live(s'.disk, s'.log.value))
    decreases |events|
  {
    hide StateOk, Within, Next, Allowed, FlagsOk;
    if events != [] {
      var h :| StateOk(k, s, h) && Within(h, p);
      NextFlags(k, s, h, events[0], p);
      var h' := NextKeeps(k, s, h, events[0], p);
      assert Sound(k, Next(k, s, events[0]), p);
      RunFlags(k, Next(k, s, events[0]), events[1..], p);
    }
  }

  // ---- Endings of a session ----

  /** The disk that a successful opening leaves. */
  lemma OpenedDisk(k: Codec, cfg: Config, d: Disk, io: OpenIO)
    requires Lawful(k) && d != [] && Open(k, cfg, d, io).1.Opened?
    ensures var size := |Last(d).file.data| - |Tail(k, d)|;
            && 0 <= size
            && Open(k, cfg, d, io).0
            == if Tail(k, d) == [] then d else WithLast(d, Flushed(Truncated(Last(d).file, size)))
  {
    hide Scan, Acceptable, SegmentsOf, OpenScanned, EncodeAll;
    ScanPrints(k, Last(d).file.data, Last(d).first);
    OpenScannedIs(k, cfg, d, ScanAll(k, d), io);
  }

  /**
   * The process ends with a segment file whose directory entry it could not flush,
   * or with whole records in the active file that it did not flush, because the
   * log was dirty or because a failed write put a whole record down, and the file
   * is so full that the first append may start a new one.
   */
  ghost predicate LeavesHazard(k: Codec, cfg: Config, l: Live)
    requires Lawful(k) && Shaped(l)
  {
    || |l.disk| > |l.log.segments|
    || (&& Tail(k, l.disk) == [] && CanRotate(cfg, |Active(l).file.data|)
        && (l.log.dirty || l.log.activeSize < |Active(l).file.data|))
  }

  lemma ExtraFileIsEmpty(k: Codec, l: Live, h: History)
    requires Lawful(k) && LiveOk(k, l, h) && Shaped(l) && |l.disk| > |l.log.segments|
    ensures Tail(k, l.disk) == []
  {
    hide InnersOk, SegmentsFor, Scan;
    AreSized(k, l.disk);
    assert EncodeAll(k, Last(l.disk).first, []) == [];
  }

  /** Whether the next opening is hazardous can be told when the process ends. */
  lemma ExitIsHazardousIff(k: Codec, cfg: Config, l: Live, h: History, io: OpenIO)
    requires Lawful(k) && LiveOk(k, l, h) && FlagsOk(l) && Open(k, cfg, l.disk, io).1.Opened?
    ensures Hazardous(cfg, Open(k, cfg, l.disk, io).0) <==> LeavesHazard(k, cfg, l)
  {
    hide LiveOk, Open, Tail;
    OpenedDisk(k, cfg, l.disk, io);
    if |l.disk| > |l.log.segments| {
      ExtraFileIsEmpty(k, l, h);
    } else if Tail(k, l.disk) != [] {
      WithLastIs(l.disk, Last(Open(k, cfg, l.disk, io).0).file);
    }
  }

  /**
   * After any run, let the process that has the log open end, and the next one
   * open the log with the always policy. Then some operations and some crash lose
   * an acknowledged command, or leave a log that refuses to open with no embedded
   * record to blame, if and only if the process left a hazard.
   */
  lemma ExitIsSafeIff(k: Codec, events: seq<Event>, cfg: Config, io: OpenIO)
    requires Lawful(k) && Disciplined(k, INITIAL, events) && Run(k, INITIAL, events).log.Some?
    requires cfg.fsync == Always && cfg.segmentBytes > 0
    requires var d := Run(k, INITIAL, events).disk; Open(k, cfg, d, io).1.Opened? && |Commands(k, d)| + 1 < INDEX_LIMIT
    ensures var s := Run(k, INITIAL, events);
            LeavesHazard(k, cfg, Live(s.disk, s.log.value))
            <==> exists ops, fates :: Harms(k, cfg, s.disk, io, ops, fates)
  {
    hide StateOk, LiveOk, DiskOk, Within, Open, Run, Disciplined, Hazardous, LeavesHazard, Harms, Commands, FlagsOk;
    var s, p := Run(k, INITIAL, events), Those(SentIn(events));
    var h := RunIsSound(k, events);
    StateParts(k, s, h);
    InitialIsSound(k, p);
    RunFlags(k, INITIAL, events, p);
    ExitIsHazardousIff(k, cfg, Live(s.disk, s.log.value), h, io);
    ReopeningIsSafeIff(k, cfg, s.disk, h, io);
  }

  // ---- Openings that fail ----

  lemma DurableIsHarmless(cfg: Config, d: Disk)
    requires AllDurable(d)
    ensures !Hazardous(cfg, d)
  {
  }

  /** Of a disk with nothing left to flush, a failed opening leaves a hazard in two cases. */
  predicate FailsHazardously(cfg: Config, d: Disk, io: OpenIO, size: nat, torn: bool) {
    io.readable && if d == [] then io.create.NotLinked? else torn && io.truncate.NotFlushed? && CanRotate(cfg, size)
  }

  /**
   * After an opening that failed on such a disk, the next one is hazardous if and
   * only if the first could not flush the directory of a new log, or cut a torn
   * tail and could not flush the cut.
   */
  lemma FailedOpeningIsHazardousIff(k: Codec, cfg: Config, cfg': Config, d: Disk, io: OpenIO)
    requires Lawful(k) && AllDurable(d) && !Open(k, cfg', d, io).1.Opened?
    requires Open(k, cfg, Open(k, cfg', d, io).0, ALL_WELL).1.Opened?
    ensures var torn := d != [] && Tail(k, d) != [];
            var size := if torn then |Last(d).file.data| - |Tail(k, d)| else 0;
            && 0 <= size
            && (Hazardous(cfg, Open(k, cfg, Open(k, cfg', d, io).0, ALL_WELL).0)
                <==> FailsHazardously(cfg, d, io, size, torn))
  {
    hide AllDurable, Hazardous, Tail, OpenScanned, ScanAll, Acceptable;
    if d == [] {
      FailedFirstOpening(k, cfg, cfg', io);
    } else {
      FailedReopening(k, cfg, cfg', d, io);
    }
  }

  lemma FailedFirstOpening(k: Codec, cfg: Config, cfg': Config, io: OpenIO)
    requires Lawful(k) && !Open(k, cfg', [], io).1.Opened?
    ensures var d' := Open(k, cfg', [], io).0;
            Hazardous(cfg, Open(k, cfg, d', ALL_WELL).0) <==> io.readable && io.create.NotLinked?
  {
    var l := FirstOpening(k, cfg);
    DurableIsHarmless(cfg, l.disk);
    var none: Disk := [];
    CreateAppends(k, none, [], io.create);
    var d' := none + [SegmentFile(1, EMPTY_FILE, false)];
    FirstSegmentOk(k, cfg, false);
    OpensClean(k, cfg, d', History([[]], [], []));
  }

  /** What a failed opening leaves: the disk as it was, or its last file cut and perhaps flushed. */
  lemma FailedLeaves(k: Codec, cfg: Config, d: Disk, io: OpenIO, r: Scanned)
    requires Lawful(k) && d != [] && !Open(k, cfg, d, io).1.Opened? && r == Scan(k, Last(d).file.data, Last(d).first)
    ensures r.size <= |Last(d).file.data| && |Tail(k, d)| == |Last(d).file.data| - r.size
    ensures var d', cut := Open(k, cfg, d, io).0, Truncated(Last(d).file, r.size);
            || (d' == d
                && (io.readable && Tail(k, d) != [] && io.truncate.NotFlushed? ==> !Acceptable(k, d, ScanAll(k, d))))
            || (io.readable && Tail(k, d) != [] && io.truncate.NotFlushed? && d' == WithLast(d, cut)
                && Judge(k, Last(d).file.data, Last(d).first, true) != Corrupt)
            || (io.truncate.CutAndFlushed? && d' == WithLast(d, Flushed(cut)))
  {
    hide Scan, SegmentsOf, OpenScanned, EncodeAll, HasLater;
    ScanPrints(k, Last(d).file.data, Last(d).first);
    OpenScannedIs(k, cfg, d, ScanAll(k, d), io);
  }

  lemma UnacceptableIsCorrupt(k: Codec, cfg: Config, d: Disk)
    requires Lawful(k) && d != [] && Open(k, cfg, d, ALL_WELL).1.Opened?
    ensures Last(ScanAll(k, d)).size <= |Last(d).file.data| && Acceptable(k, d, ScanAll(k, d))
  {
    AreSized(k, d);
  }

  lemma CutHasNoTail(k: Codec, d: Disk, e: SegmentFile, r: Scanned)
    requires Lawful(k) && r == Scan(k, e.file.data, e.first) && Judge(k, e.file.data, e.first, true) != Corrupt
    ensures r.size <= |e.file.data| && Tail(k, d + [e.(file := Truncated(e.file, r.size))]) == []
  {
    hide Scan;
    RepairIsIdempotent(k, e.file.data, e.first);
    var d' := d + [e.(file := Truncated(e.file, r.size))];
    assert Last(d') == e.(file := Truncated(e.file, r.size));
    AreSized(k, d');
  }

  lemma FailedReopening(k: Codec, cfg: Config, cfg': Config, d: Disk, io: OpenIO)
    requires Lawful(k) && d != [] && AllDurable(d) && !Open(k, cfg', d, io).1.Opened?
    requires Open(k, cfg, Open(k, cfg', d, io).0, ALL_WELL).1.Opened?
    ensures var torn := Tail(k, d) != [];
            var size := |Last(d).file.data| - |Tail(k, d)|;
            && 0 <= size
            && (Hazardous(cfg, Open(k, cfg, Open(k, cfg', d, io).0, ALL_WELL).0)
                <==> io.readable && torn && io.truncate.NotFlushed? && CanRotate(cfg, size))
  {
    hide Open, Scan, Tail, Acceptable, Judge;
    var e, d' := Last(d), Open(k, cfg', d, io).0;
    var r := Scan(k, e.file.data, e.first);
    FailedLeaves(k, cfg', d, io, r);
    if d' == d {
      UnacceptableIsCorrupt(k, cfg, d);
      OpenStaysDurable(k, cfg, d, ALL_WELL);
      DurableIsHarmless(cfg, Open(k, cfg, d, ALL_WELL).0);
    } else if io.truncate.NotFlushed? {
      WithLastIs(d, Truncated(e.file, r.size));
      CutHasNoTail(k, Init(d), e, r);
      OpenedDisk(k, cfg, d', ALL_WELL);
    } else {
      WithLastIs(d, Flushed(Truncated(e.file, r.size)));
      OpenStaysDurable(k, cfg, d', ALL_WELL);
      DurableIsHarmless(cfg, Open(k, cfg, d', ALL_WELL).0);
    }
  }
}
