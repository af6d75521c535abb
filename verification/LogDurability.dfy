/** What is on disk stays there: how each step changes the commands a disk holds. */
module LogDurability {
  import opened ByteStrings
  import opened Sequences
  import opened Codecs
  import opened SegmentScan
  import opened Disks
  import opened LogSpec
  import opened LogInvariant
  import opened LogRecovery

  /**
   * An open log only ever adds: every file but the last is untouched, the last
   * one grows and so does what is certain of it, and new files come after it.
   */
  ghost predicate Extends(d: Disk, d': Disk) {
    && d != [] && |d| <= |d'|
    && d'[..|d| - 1] == Init(d)
    && var e, e' := Last(d), d'[|d| - 1];
       e'.first == e.first && e.file.data <= e'.file.data && SafeBytes(e) <= SafeBytes(e')
  }

  lemma ExtendsRewrite(d: Disk, e: SegmentFile)
    requires d != [] && e.first == Last(d).first
    requires Last(d).file.data <= e.file.data && SafeBytes(Last(d)) <= SafeBytes(e)
    ensures Extends(d, d[|d| - 1 := e])
  {
  }

  lemma ExtendsPush(d: Disk, d': Disk, e: SegmentFile)
    requires Extends(d, d')
    ensures Extends(d, d' + [e])
  {
    assert (d' + [e])[..|d| - 1] == d'[..|d| - 1];
  }

  lemma ExtendsTransitive(a: Disk, b: Disk, c: Disk)
    requires Extends(a, b) && Extends(b, c)
    ensures Extends(a, c)
  {
    assert c[..|a| - 1] == c[..|b| - 1][..|a| - 1] == Init(b)[..|a| - 1] == b[..|a| - 1];
    if |a| < |b| {
      assert c[|a| - 1] == c[..|b| - 1][|a| - 1] == Init(b)[|a| - 1] == b[|a| - 1];
    }
  }

  // ---- Safe commands ----

  lemma {:induction false} PrefixCommands(k: Codec, d: Disk, n: nat)
    requires Lawful(k) && n <= |d|
    ensures SafeCommands(k, d[..n]) <= SafeCommands(k, d)
    ensures Commands(k, d[..n]) <= Commands(k, d)
    decreases |d|
  {
    if n == |d| {
      assert d[..n] == d;
    } else {
      assert Init(d)[..n] == d[..n];
      PrefixCommands(k, Init(d), n);
    }
  }

  lemma ConcatPrefix(a: seq<Bytes>, b: seq<Bytes>, c: seq<Bytes>)
    requires b <= c
    ensures a + b <= a + c
  {
  }

  /** More bytes mean more commands, and never different ones. */
  lemma ExtendsCommands(k: Codec, d: Disk, d': Disk)
    requires Lawful(k) && Extends(d, d')
    ensures SafeCommands(k, d) <= SafeCommands(k, d')
    ensures Commands(k, d) <= Commands(k, d')
  {
    var p := d'[..|d|];
    assert Init(p) == d'[..|d| - 1] == Init(d) && Last(p) == d'[|d| - 1];
    ScanMonotone(k, SafeBytes(Last(d)), SafeBytes(Last(p)), Last(d).first);
    ScanMonotone(k, Last(d).file.data, Last(p).file.data, Last(d).first);
    ConcatPrefix(SafeCommands(k, Init(d)), Scan(k, SafeBytes(Last(d)), Last(d).first).commands,
                 Scan(k, SafeBytes(Last(p)), Last(d).first).commands);
    ConcatPrefix(Commands(k, Init(d)), Scan(k, Last(d).file.data, Last(d).first).commands,
                 Scan(k, Last(p).file.data, Last(d).first).commands);
    PrefixCommands(k, d', |d|);
  }

  // ---- Operations extend the disk ----

  lemma ExtendsItself(k: Codec, l: Live, h: History)
    requires LiveOk(k, l, h)
    ensures Extends(l.disk, l.disk)
  {
  }

  lemma SyncExtends(k: Codec, l: Live, h: History, ok: bool)
    requires LiveOk(k, l, h) && !l.log.failed
    ensures Shaped(l) && Extends(l.disk, Sync(l, ok).disk)
  {
    LiveIsShaped(k, l, h);
    if ok {
      SyncFlushes(l);
      ExtendsRewrite(l.disk, Last(l.disk).(file := Flushed(Last(l.disk).file)));
    }
  }

  lemma EffectExtends(l: Live, index: nat, record: Bytes, io: AppendIO, l': Live, result: AppendResult)
    requires WriteEffect(l, index, record, io, l', result) && Last(l.disk).file.durable <= |Last(l.disk).file.data|
    ensures Extends(l.disk, l'.disk)
  {
    ExtendsRewrite(l.disk, Last(l'.disk));
  }

  lemma WriteExtends(k: Codec, l: Live, h: History, index: nat, record: Bytes, io: AppendIO)
    requires LiveOk(k, l, h) && !l.log.failed
    ensures Shaped(l) && Extends(l.disk, WriteRecord(l, index, record, io).0.disk)
  {
    LiveIsShaped(k, l, h);
    WriteRecordHasEffect(l, index, record, io);
    var (l', result) := WriteRecord(l, index, record, io);
    EffectExtends(l, index, record, io, l', result);
  }

  lemma RotateExtends(k: Codec, l: Live, h: History, io: AppendIO)
    requires LiveOk(k, l, h) && !l.log.failed && l.log.activeSize > 0
    ensures Shaped(l) && Extends(l.disk, Rotate(l, l.log.lastIndex + 1, io).0.disk)
  {
    LiveIsShaped(k, l, h);
    var next, l1 := l.log.lastIndex + 1, BeforeRotation(l, io);
    RotateGives(k, l, h, io, l1);
    if l.log.dirty {
      SyncExtends(k, l, h, io.flush);
    }
    ExtendsPush(l.disk, l1.disk, SegmentFile(next, EMPTY_FILE, io.create.Created?));
  }

  lemma RotatingAppendExtends(k: Codec, l: Live, h: History, record: Bytes, io: AppendIO, p: iset<Bytes>)
    requires LiveOk(k, l, h) && !l.log.failed && l.log.activeSize > 0 && l.log.lastIndex + 1 < INDEX_LIMIT
    requires Within(h, p)
    ensures Shaped(l)
    ensures var (l1, ok) := Rotate(l, l.log.lastIndex + 1, io);
            Extends(l.disk, if ok then WriteRecord(l1, l.log.lastIndex + 1, record, io).0.disk else l1.disk)
  {
    hide LiveOk, Within, Extends, Rotate, WriteRecord;
    LiveIsShaped(k, l, h);
    RotateExtends(k, l, h, io);
    var (l1, ok) := Rotate(l, l.log.lastIndex + 1, io);
    if ok {
      var h' := RotatedKeeps(k, l, h, io, p);
      WriteExtends(k, l1, h', l.log.lastIndex + 1, record, io);
      ExtendsTransitive(l.disk, l1.disk, WriteRecord(l1, l.log.lastIndex + 1, record, io).0.disk);
    }
  }

  lemma AppendExtends(k: Codec, l: Live, h: History, command: Bytes, io: AppendIO, p: iset<Bytes>)
    requires LiveOk(k, l, h) && l.log.lastIndex + 1 < INDEX_LIMIT && Within(h, p)
    ensures Shaped(l) && Extends(l.disk, Append(k, l, command, io).0.disk)
  {
    hide LiveOk, Within, Extends, Rotate, WriteRecord;
    LiveIsShaped(k, l, h);
    if |command| > MAX_COMMAND_SIZE || l.log.closed || l.log.failed {
      ExtendsItself(k, l, h);
    } else if MustRotate(l, k.enc(l.log.lastIndex + 1, command)) {
      RotatingAppendExtends(k, l, h, k.enc(l.log.lastIndex + 1, command), io, p);
    } else {
      WriteExtends(k, l, h, l.log.lastIndex + 1, k.enc(l.log.lastIndex + 1, command), io);
    }
  }

  /** Every operation of an open log only adds to the disk. */
  lemma PerformExtends(k: Codec, l: Live, h: History, op: Operation, p: iset<Bytes>)
    requires LiveOk(k, l, h) && Within(h, p)
    requires op.AppendCommand? ==> l.log.lastIndex + 1 < INDEX_LIMIT
    ensures Shaped(l) && Extends(l.disk, Perform(k, l, op).disk)
  {
    hide LiveOk, Within, Extends, Append, Sync;
    LiveIsShaped(k, l, h);
    ExtendsItself(k, l, h);
    match op
    case AppendCommand(command, io) => AppendExtends(k, l, h, command, io, p);
    case TickSyncer(ok) =>
      if !l.log.failed {
        SyncExtends(k, l, h, ok);
      }
    case BeginClose =>
    case FinishClose(syncOk, closeOk) =>
      if !l.log.failed {
        SyncExtends(k, l, h, syncOk);
      }
  }

  // ---- Crashes ----

  lemma {:induction false} DurableIsSafe(k: Codec, d: Disk)
    requires Lawful(k) && AllDurable(d)
    ensures SafeCommands(k, d) == Commands(k, d)
    decreases |d|
  {
    if d != [] {
      DurableIsSafe(k, Init(d));
      var f := Last(d).file;
      assert f.data[..f.durable] == f.data;
    }
  }

  lemma CommandsSnoc(k: Codec, d: Disk, e: SegmentFile)
    requires Lawful(k)
    ensures Commands(k, d + [e]) == Commands(k, d) + Scan(k, e.file.data, e.first).commands
    ensures SafeCommands(k, d + [e]) == SafeCommands(k, d) + Scan(k, SafeBytes(e), e.first).commands
  {
    assert Init(d + [e]) == d;
  }

  /** What a crash can leave of the last file lies between what was certain and what was written. */
  lemma KeptBetween(k: Codec, e: SegmentFile, commands: seq<Bytes>, torn: Bytes, inflight: Bytes, q: Bytes)
    requires Lawful(k) && LastOk(k, e, commands, torn, inflight) && FateAllowed(e, Kept(q))
    requires q <= EncodeAll(k, e.first, commands) + torn
    ensures SafeBytes(e) <= q
    ensures Scan(k, q, e.first).commands <= Scan(k, e.file.data, e.first).commands
  {
    hide EncodeAll, Scan;
    var records := EncodeAll(k, e.first, commands);
    if e.file.stale == [] {
      ScanMonotone(k, q, e.file.data, e.first);
    } else {
      var longer := Survived(e.first, records + torn);
      LongSurvivor(k, e.first, commands, torn, inflight, records + torn);
      assert (records + torn)[|records|..] == torn;
      LastReads(k, longer, commands, torn, inflight);
      ScanWhole(k, e.first, commands);
      ScanMonotone(k, q, records + torn, e.first);
    }
  }

  lemma NothingScanned(k: Codec, first: nat)
    requires Lawful(k)
    ensures Scan(k, [], first).commands == []
  {
  }

  lemma CrashHasFates(d: Disk, fates: seq<Fate>)
    requires CrashAllowed(d, fates)
    ensures |fates| == |d|
  {
  }

  /** A crash loses nothing that a completed fsync covered, and invents nothing. */
  lemma CrashCommands(k: Codec, d: Disk, h: History, fates: seq<Fate>)
    requires Lawful(k) && DiskOk(k, d, h) && CrashAllowed(d, fates)
    ensures var d' := AfterCrash(d, fates);
            && SafeCommands(k, d') == Commands(k, d')
            && SafeCommands(k, d) <= Commands(k, d') <= Commands(k, d)
  {
    hide LastOk, InnersOk, EncodeAll, Scan, CrashAllowed;
    assert |fates| == |d| by { CrashHasFates(d, fates); }
    SurvivorsAreDurable(d, fates);
    DurableIsSafe(k, AfterCrash(d, fates));
    if d != [] {
      CrashIs(k, d, h, fates);
      InnersAreDurable(k, Init(d), Init(h.parts));
      DurableIsSafe(k, Init(d));
      var e := Last(d);
      if Last(fates).Lost? {
        NothingScanned(k, e.first);
        assert AfterCrash(d, fates) == Init(d);
      } else {
        var q := Last(fates).data;
        assert AfterCrash(d, fates) == Init(d) + [Survived(e.first, q)];
        CommandsSnoc(k, Init(d), Survived(e.first, q));
        KeptBetween(k, e, Last(h.parts), h.torn, h.inflight, q);
        ScanMonotone(k, SafeBytes(e), q, e.first);
        ConcatPrefix(Commands(k, Init(d)), Scan(k, SafeBytes(e), e.first).commands, Scan(k, q, e.first).commands);
        ConcatPrefix(Commands(k, Init(d)), Scan(k, q, e.first).commands, Scan(k, e.file.data, e.first).commands);
      }
    }
  }

  // ---- Opening ----

  lemma SameLastCommands(k: Codec, d: Disk, e: SegmentFile)
    requires Lawful(k) && d != [] && e.first == Last(d).first
    requires Scan(k, e.file.data, e.first).commands == Scan(k, Last(d).file.data, e.first).commands
    ensures Commands(k, d[|d| - 1 := e]) == Commands(k, d)
  {
    LastUpdated(d, e);
    CommandsSnoc(k, Init(d), e);
  }

  lemma FirstOpenChangesNoCommand(k: Codec, cfg: Config, io: OpenIO)
    requires Lawful(k)
    ensures var d' := Open(k, cfg, [], io).0; Commands(k, d') == [] == SafeCommands(k, []) <= SafeCommands(k, d')
  {
    CreateAppends(k, [], [], io.create);
    CommandsSnoc(k, [], SegmentFile(1, EMPTY_FILE, true));
    CommandsSnoc(k, [], SegmentFile(1, EMPTY_FILE, false));
  }

  /** Cutting a torn tail takes away nothing that was certain. */
  lemma CutIsSafe(k: Codec, d: Disk, e: SegmentFile, r: Scanned, f: File)
    requires Lawful(k) && d != [] && e == Last(d) && r == Scan(k, e.file.data, e.first) && r.size <= |e.file.data|
    requires Scan(k, e.file.data[..r.size], e.first).commands == r.commands
    requires f == Truncated(e.file, r.size) || f == Flushed(Truncated(e.file, r.size))
    ensures SafeCommands(k, d) <= SafeCommands(k, d[|d| - 1 := e.(file := f)])
  {
    hide Scan;
    var before, after := SafeBytes(e), SafeBytes(e.(file := f));
    ScanMonotone(k, before, e.file.data, e.first);
    if e.file.durable <= r.size {
      assert e.linked ==> before == e.file.data[..r.size][..e.file.durable];
      ScanMonotone(k, before, after, e.first);
    } else {
      assert e.linked ==> after == e.file.data[..r.size];
    }
    LastUpdated(d, e.(file := f));
    CommandsSnoc(k, Init(d), e.(file := f));
    ConcatPrefix(SafeCommands(k, Init(d)), Scan(k, before, e.first).commands, Scan(k, after, e.first).commands);
  }

  /** Opening, however it ends and whatever it finds, takes away no command and adds none, and undoes no fsync. */
  lemma OpenChangesNoCommand(k: Codec, cfg: Config, d: Disk, io: OpenIO)
    requires Lawful(k)
    ensures var d' := Open(k, cfg, d, io).0;
            && Commands(k, d') == Commands(k, d)
            && SafeCommands(k, d) <= SafeCommands(k, d')
  {
    hide Scan, EncodeAll, SegmentsOf, Verified, OpenScanned, HasLater, SafeCommands;
    if d == [] {
      FirstOpenChangesNoCommand(k, cfg, io);
    } else {
      var e := Last(d);
      var r := Scan(k, e.file.data, e.first);
      ScanPrints(k, e.file.data, e.first);
      OpenScannedIs(k, cfg, d, ScanAll(k, d), io);
      if Acceptable(k, d, ScanAll(k, d)) && r.damage != NoDamage {
        RepairIsIdempotent(k, e.file.data, e.first);
        var cut := Truncated(e.file, r.size);
        SameLastCommands(k, d, e.(file := cut));
        SameLastCommands(k, d, e.(file := Flushed(cut)));
        CutIsSafe(k, d, e, r, cut);
        CutIsSafe(k, d, e, r, Flushed(cut));
      }
    }
  }

  // ---- How many commands an open log holds ----

  lemma {:induction false} InnersHold(k: Codec, d: Disk, parts: Parts)
    requires Lawful(k) && InnersOk(k, d, parts)
    ensures Commands(k, d) == Flatten(parts) == SafeCommands(k, d)
    ensures |Flatten(parts)| == Following(d, parts) - 1
    decreases |d|
  {
    InnersAreDurable(k, d, parts);
    DurableIsSafe(k, d);
    if d != [] {
      InnersHold(k, Init(d), Init(parts));
      ScanWhole(k, Last(d).first, Last(parts));
    }
  }

  /** The last file holds its whole records, and one more if the incomplete one is not incomplete after all. */
  lemma LastHolds(k: Codec, e: SegmentFile, commands: seq<Bytes>, torn: Bytes, inflight: Bytes)
    requires Lawful(k) && LastOk(k, e, commands, torn, inflight) && e.file.stale == []
    ensures Scan(k, e.file.data, e.first).commands
         == if torn == k.enc(e.first + |commands|, inflight) then commands + [inflight] else commands
    ensures e.linked && e.file.durable >= |EncodeAll(k, e.first, commands)| ==>
              commands <= Scan(k, SafeBytes(e), e.first).commands
  {
    var records := EncodeAll(k, e.first, commands);
    ScanWhole(k, e.first, commands);
    if torn == k.enc(e.first + |commands|, inflight) {
      CompleteTorn(k, e, commands, torn, inflight);
      var all := EncodeAll(k, e.first, commands + [inflight]);
      assert e.file.data == all + [] == all;
      ScanWhole(k, e.first, commands + [inflight]);
    } else if torn == [] {
      assert e.file.data == records + [] == records;
    } else {
      LastReads(k, e, commands, torn, inflight);
    }
    if e.linked && e.file.durable >= |records| {
      assert records <= SafeBytes(e);
      ScanMonotone(k, records, SafeBytes(e), e.first);
    }
  }

  /**
   * An open log's last index counts the commands on its disk: all of them, or
   * all but a record that was written and not acknowledged. With the always
   * policy a completed fsync covers every one it counts.
   */
  lemma LastIndexCounts(k: Codec, l: Live, h: History)
    requires Lawful(k) && LiveOk(k, l, h)
    ensures l.log.lastIndex <= |Commands(k, l.disk)| <= l.log.lastIndex + 1
    ensures !l.log.failed ==> |Commands(k, l.disk)| == l.log.lastIndex
    ensures l.log.cfg.fsync == Always ==> l.log.lastIndex <= |SafeCommands(k, l.disk)|
  {
    var init, parts := Init(l.disk), Init(h.parts);
    var e, commands := Last(l.disk), Last(h.parts);
    InnersHold(k, init, parts);
    LastHolds(k, e, commands, h.torn, h.inflight);
  }

  // ---- What an acknowledged append adds ----

  /** A log with nothing failed and nothing dirty has everything on disk. */
  lemma CleanIsDurable(k: Codec, l: Live, h: History)
    requires LiveOk(k, l, h) && !l.log.failed && !l.log.dirty
    ensures AllDurable(l.disk)
  {
    LiveIsShaped(k, l, h);
    InnersAreDurable(k, Init(l.disk), Init(h.parts));
  }

  /** A write changes only the last file, and adds n bytes of the record to it, all of them if it is acknowledged. */
  lemma EffectWrites(l: Live, index: nat, record: Bytes, io: AppendIO, l': Live, result: AppendResult) returns (n: nat)
    requires WriteEffect(l, index, record, io, l', result)
    ensures n <= |record| && (result.Acked? ==> n == |record|)
    ensures |l'.disk| == |l.disk| && Init(l'.disk) == Init(l.disk) && Last(l'.disk).first == Last(l.disk).first
    ensures Last(l'.disk).file.data == Last(l.disk).file.data + record[..n]
  {
    n := if io.write.Short? then Least(io.write.written, |record|) else |record|;
    assert record[..|record|] == record;
  }

  /** The last file after n bytes of the next record were written to it. */
  lemma WrittenHolds(k: Codec, e: SegmentFile, commands: seq<Bytes>, command: Bytes, n: nat, was: Bytes)
    requires Lawful(k) && LastOk(k, e, commands, [], was) && e.linked && e.file.stale == []
    requires Storable(e.first + |commands|, command) && n <= RECORD_OVERHEAD + |command|
    ensures Scan(k, e.file.data, e.first).commands == commands
    ensures Scan(k, e.file.data + k.enc(e.first + |commands|, command)[..n], e.first).commands
         == if n == RECORD_OVERHEAD + |command| then commands + [command] else commands
  {
    hide EncodeAll, Scan;
    var part := k.enc(e.first + |commands|, command)[..n];
    PartWritten(k, e, commands, command, part, was);
    LastHolds(k, e, commands, [], was);
    LastHolds(k, e.(file := Written(e.file, part)), commands, part, command);
  }

  /** A write adds its command or, if it fails, perhaps nothing. */
  lemma WriteAppends(k: Codec, l: Live, h: History, command: Bytes, io: AppendIO, l': Live, result: AppendResult)
    requires Lawful(k) && LiveOk(k, l, h) && !l.log.failed && Storable(l.log.lastIndex + 1, command)
    requires WriteEffect(l, l.log.lastIndex + 1, k.enc(l.log.lastIndex + 1, command), io, l', result)
    ensures Commands(k, l'.disk) == Commands(k, l.disk) + [command]
            || (!result.Acked? && Commands(k, l'.disk) == Commands(k, l.disk))
  {
    hide EncodeAll, InnersOk, LastOk, SegmentsFor, Scan, WriteEffect;
    LiveIsShaped(k, l, h);
    var e, commands := Last(l.disk), Last(h.parts);
    var n := EffectWrites(l, l.log.lastIndex + 1, k.enc(l.log.lastIndex + 1, command), io, l', result);
    WrittenHolds(k, e, commands, command, n, h.inflight);
  }

  lemma SyncSameCommands(k: Codec, l: Live, h: History, ok: bool)
    requires Lawful(k) && LiveOk(k, l, h) && !l.log.failed
    ensures Shaped(l) && Commands(k, Sync(l, ok).disk) == Commands(k, l.disk)
  {
    LiveIsShaped(k, l, h);
    if ok {
      SyncFlushes(l);
      SameLastCommands(k, l.disk, Last(l.disk).(file := Flushed(Last(l.disk).file)));
    }
  }

  lemma RotateSameCommands(k: Codec, l: Live, h: History, io: AppendIO)
    requires Lawful(k) && LiveOk(k, l, h) && !l.log.failed && l.log.activeSize > 0
    ensures Shaped(l) && Commands(k, Rotate(l, l.log.lastIndex + 1, io).0.disk) == Commands(k, l.disk)
  {
    hide LiveOk, Rotate, Commands, Sync;
    LiveIsShaped(k, l, h);
    var l1 := BeforeRotation(l, io);
    RotateGives(k, l, h, io, l1);
    if l.log.dirty {
      SyncSameCommands(k, l, h, io.flush);
    }
    CommandsSnoc(k, l1.disk, SegmentFile(l.log.lastIndex + 1, EMPTY_FILE, io.create.Created?));
  }

  lemma WriteRecordAppends(k: Codec, l: Live, h: History, command: Bytes, io: AppendIO)
    requires Lawful(k) && LiveOk(k, l, h) && !l.log.failed && Storable(l.log.lastIndex + 1, command)
    ensures Shaped(l)
    ensures var (l', result) := WriteRecord(l, l.log.lastIndex + 1, k.enc(l.log.lastIndex + 1, command), io);
            && result != TooLarge && result != Refused
            && (result.Acked? ==>
                  && result.index == l.log.lastIndex + 1 == l'.log.lastIndex
                  && !l'.log.failed && (l.log.cfg.fsync == Always ==> !l'.log.dirty)
                  && Commands(k, l'.disk) == Commands(k, l.disk) + [command])
  {
    hide LiveOk, Commands;
    LiveIsShaped(k, l, h);
    var index := l.log.lastIndex + 1;
    var (l', result) := WriteRecord(l, index, k.enc(index, command), io);
    WriteRecordHasEffect(l, index, k.enc(index, command), io);
    if result.Acked? {
      WriteAppends(k, l, h, command, io, l', result);
    }
  }

  /** An acknowledged append adds its command, at its index, to what the disk holds: nothing more, nothing else. */
  lemma AckedAppends(k: Codec, l: Live, h: History, command: Bytes, io: AppendIO, p: iset<Bytes>)
    requires Lawful(k) && LiveOk(k, l, h) && l.log.lastIndex + 1 < INDEX_LIMIT && Within(h, p) && command in p
    ensures Shaped(l)
    ensures var (l', result) := Append(k, l, command, io);
            result.Acked? ==>
              && result.index == l.log.lastIndex + 1 == |Commands(k, l'.disk)|
              && Commands(k, l'.disk) == Commands(k, l.disk) + [command]
              && (l.log.cfg.fsync == Always ==> SafeCommands(k, l'.disk) == Commands(k, l'.disk))
  {
    hide LiveOk, Within, Commands, SafeCommands, Rotate, WriteRecord, AllDurable;
    LiveIsShaped(k, l, h);
    var index := l.log.lastIndex + 1;
    var (l', result) := Append(k, l, command, io);
    if result.Acked? {
      var l1, h1 := l, h;
      if MustRotate(l, k.enc(index, command)) {
        RotateSameCommands(k, l, h, io);
        h1 := RotatedKeeps(k, l, h, io, p);
        l1 := Rotate(l, index, io).0;
      }
      WriteRecordAppends(k, l1, h1, command, io);
      LastIndexCounts(k, l, h);
      var h2 := WriteRecordKeeps(k, l1, h1, command, io, (l', result), p);
      if l.log.cfg.fsync == Always {
        CleanIsDurable(k, l', h2);
        DurableIsSafe(k, l'.disk);
      }
    }
  }

  // ---- What each operation adds ----

  /** The command that op appends and acknowledges, if it does. */
  function Acks(k: Codec, l: Live, op: Operation): seq<Bytes>
    requires Shaped(l)
  {
    if op.AppendCommand? && Append(k, l, op.command, op.io).1.Acked? then [op.command] else []
  }

  /** The command that op sends, if it does. */
  function Sends(op: Operation): seq<Bytes> {
    if op.AppendCommand? then [op.command] else []
  }

  lemma AppendCommands(k: Codec, l: Live, h: History, command: Bytes, io: AppendIO, p: iset<Bytes>)
    requires Lawful(k) && LiveOk(k, l, h) && l.log.lastIndex + 1 < INDEX_LIMIT && Within(h, p)
    ensures Shaped(l)
    ensures var (l', result) := Append(k, l, command, io);
            && (Commands(k, l'.disk) == Commands(k, l.disk) || Commands(k, l'.disk) == Commands(k, l.disk) + [command])
            && (!result.Acked? ==> l'.log.lastIndex == l.log.lastIndex)
  {
    hide LiveOk, Within, Commands, Rotate, WriteRecord;
    LiveIsShaped(k, l, h);
    var index := l.log.lastIndex + 1;
    var record := k.enc(index, command);
    if |command| <= MAX_COMMAND_SIZE && !l.log.closed && !l.log.failed {
      var l1, h1, ok := l, h, true;
      if MustRotate(l, record) {
        RotateSameCommands(k, l, h, io);
        RotateCounts(l, index, io);
        h1 := RotatedKeeps(k, l, h, io, p);
        l1, ok := Rotate(l, index, io).0, Rotate(l, index, io).1;
      }
      if ok {
        LiveIsShaped(k, l1, h1);
        WriteRecordHasEffect(l1, index, record, io);
        var (l', result) := WriteRecord(l1, index, record, io);
        WriteAppends(k, l1, h1, command, io, l', result);
      }
    }
  }

  lemma RotateCounts(l: Live, next: nat, io: AppendIO)
    requires Shaped(l)
    ensures Rotate(l, next, io).0.log.lastIndex == l.log.lastIndex
  {
  }

  /** No operation adds anything but the command it sends, and that it may add without acknowledging it. */
  lemma PerformCommands(k: Codec, l: Live, h: History, op: Operation, p: iset<Bytes>)
    requires Lawful(k) && LiveOk(k, l, h) && Within(h, p)
    requires op.AppendCommand? ==> l.log.lastIndex + 1 < INDEX_LIMIT
    ensures Shaped(l)
    ensures var l' := Perform(k, l, op);
            && (Commands(k, l'.disk) == Commands(k, l.disk) || Commands(k, l'.disk) == Commands(k, l.disk) + Sends(op))
            && (Acks(k, l, op) == [] ==> l'.log.lastIndex == l.log.lastIndex)
  {
    hide LiveOk, Within, Commands, Append;
    LiveIsShaped(k, l, h);
    match op
    case AppendCommand(command, io) => AppendCommands(k, l, h, command, io, p);
    case TickSyncer(ok) =>
      if !l.log.failed {
        SyncSameCommands(k, l, h, ok);
      }
    case BeginClose =>
    case FinishClose(syncOk, closeOk) =>
      if !l.log.failed {
        SyncSameCommands(k, l, h, syncOk);
      }
  }

  /** The commands that the last index counts are, after any operation, those it counted and the one acknowledged. */
  lemma PerformCounts(k: Codec, l: Live, h: History, op: Operation, p: iset<Bytes>)
    requires Lawful(k) && LiveOk(k, l, h) && Within(h, p)
    requires op.AppendCommand? ==> l.log.lastIndex + 1 < INDEX_LIMIT && op.command in p
    ensures Shaped(l) && 0 <= l.log.lastIndex <= |Commands(k, l.disk)|
    ensures var l' := Perform(k, l, op);
            && 0 <= l'.log.lastIndex <= |Commands(k, l'.disk)|
            && Commands(k, l'.disk)[..l'.log.lastIndex] == Commands(k, l.disk)[..l.log.lastIndex] + Acks(k, l, op)
  {
    hide LiveOk, Within, Commands, Append, Extends, Perform;
    LastIndexIsNat(k, l, h);
    LastIndexCounts(k, l, h);
    var l' := Perform(k, l, op);
    var h' := PerformKeeps(k, l, h, op, p);
    LastIndexIsNat(k, l', h');
    LastIndexCounts(k, l', h');
    PerformCommands(k, l, h, op, p);
    PerformExtends(k, l, h, op, p);
    ExtendsCommands(k, l.disk, l'.disk);
    if Acks(k, l, op) != [] {
      AppendIsPerformed(k, l, op);
      AckedAppends(k, l, h, op.command, op.io, p);
      AckedIsHealthy(k, l, op);
      assert Commands(k, l.disk)[..l.log.lastIndex] == Commands(k, l.disk);
      assert Commands(k, l'.disk)[..l'.log.lastIndex] == Commands(k, l'.disk);
    }
  }

  lemma AppendIsPerformed(k: Codec, l: Live, op: Operation)
    requires Shaped(l) && op.AppendCommand?
    ensures Perform(k, l, op) == Append(k, l, op.command, op.io).0
  {
  }

  lemma LastIndexIsNat(k: Codec, l: Live, h: History)
    requires LiveOk(k, l, h)
    ensures l.log.lastIndex >= 0 && Shaped(l)
  {
    hide EncodeAll;
    LiveIsShaped(k, l, h);
  }

  /** Only a log that has not failed acknowledges, and it has not failed afterwards. */
  lemma AckedIsHealthy(k: Codec, l: Live, op: Operation)
    requires Shaped(l) && op.AppendCommand? && Acks(k, l, op) != []
    ensures !l.log.failed && !Perform(k, l, op).log.failed
  {
  }

  lemma ConfigKept(k: Codec, l: Live, op: Operation)
    requires Shaped(l)
    ensures Perform(k, l, op).log.cfg == l.log.cfg
  {
    hide Rotate, WriteRecord;
    if op.AppendCommand? {
      var index := l.log.lastIndex + 1;
      var record := k.enc(index, op.command);
      RotateKeepsConfig(l, index, op.io);
      WriteKeepsConfig(l, index, record, op.io);
      WriteKeepsConfig(Rotate(l, index, op.io).0, index, record, op.io);
    }
  }

  lemma RotateKeepsConfig(l: Live, next: nat, io: AppendIO)
    requires Shaped(l)
    ensures Rotate(l, next, io).0.log.cfg == l.log.cfg
  {
  }

  lemma WriteKeepsConfig(l: Live, index: nat, record: Bytes, io: AppendIO)
    requires Shaped(l)
    ensures WriteRecord(l, index, record, io).0.log.cfg == l.log.cfg
  {
  }

  // ---- Flushing ----

  /** A tick of the syncer makes every record durable. */
  lemma TickFlushes(k: Codec, l: Live, h: History)
    requires Lawful(k) && LiveOk(k, l, h) && !l.log.failed && !l.log.closed
    ensures Shaped(l)
    ensures var l' := Tick(l, true);
            && AllDurable(l'.disk) && !l'.log.failed && !l'.log.dirty
            && SafeCommands(k, l'.disk) == Commands(k, l'.disk) == Commands(k, l.disk)
  {
    hide LiveOk, Commands, SafeCommands, AllDurable;
    TickKeeps(k, l, h, true);
    SyncSameCommands(k, l, h, true);
    CleanIsDurable(k, Tick(l, true), h);
    DurableIsSafe(k, Tick(l, true).disk);
  }

  /** It fails the log if its fsync fails, which it makes only if there is something to flush. */
  lemma TickLeaves(l: Live, ok: bool)
    requires Shaped(l)
    ensures !l.log.dirty || l.log.failed || l.log.closed ==> Tick(l, ok) == l
    ensures l.log.dirty && !l.log.failed && !l.log.closed && !ok ==> Tick(l, ok) == Fail(l)
  {
  }

  /** The second phase of Close makes every record durable, if its fsync succeeds. */
  lemma CloseFlushes(k: Codec, l: Live, h: History, closeOk: bool)
    requires Lawful(k) && LiveOk(k, l, h) && !l.log.failed
    ensures Shaped(l)
    ensures var (l', ok) := CloseFinish(l, true, closeOk);
            && AllDurable(l'.disk) && ok == closeOk && l'.log.released
            && SafeCommands(k, l'.disk) == Commands(k, l'.disk) == Commands(k, l.disk)
  {
    hide LiveOk, Commands, SafeCommands, AllDurable;
    FinishKeeps(k, l, h, true, closeOk);
    SyncSameCommands(k, l, h, true);
    CleanIsDurable(k, CloseFinish(l, true, closeOk).0, h);
    DurableIsSafe(k, CloseFinish(l, true, closeOk).0.disk);
  }

  /** What Close returns: which call does the work, and whether it ends without an error. */
  lemma CloseReturns(l: Live, syncOk: bool, closeOk: bool)
    requires Shaped(l)
    ensures CloseBegin(l).1 <==> !l.log.closed
    ensures l.log.closed ==> CloseBegin(l).0 == l
    ensures CloseFinish(l, syncOk, closeOk).1 <==> closeOk && (syncOk || l.log.failed || !l.log.dirty)
    ensures !l.log.failed && l.log.dirty && !syncOk ==> CloseFinish(l, syncOk, closeOk).0.log.failed
  {
  }

  // ---- What an append returns ----

  /** The system calls of the append of record all succeed, as far as they are made. */
  predicate AllSucceed(l: Live, record: Bytes, io: AppendIO) {
    && (MustRotate(l, record) ==> (l.log.dirty ==> io.flush) && io.close && io.create.Created?)
    && io.write.Wrote? && (l.log.cfg.fsync == Always ==> io.sync)
  }

  /** Which append is refused, which is acknowledged and which fails the log, under every policy. */
  lemma AppendReturns(k: Codec, l: Live, h: History, command: Bytes, io: AppendIO)
    requires LiveOk(k, l, h)
    ensures Shaped(l)
    ensures var (l', result) := Append(k, l, command, io);
            var index := l.log.lastIndex + 1;
            if |command| > MAX_COMMAND_SIZE then result == TooLarge && l' == l
            else if l.log.closed || l.log.failed then result == Refused && l' == l
            else if AllSucceed(l, k.enc(index, command), io) then result == Acked(index) && !l'.log.failed
            else result == Failed && l'.log.failed
  {
    hide LiveOk, Rotate, WriteRecord;
    LiveIsShaped(k, l, h);
    var index := l.log.lastIndex + 1;
    var record := k.enc(index, command);
    if |command| <= MAX_COMMAND_SIZE && !l.log.closed && !l.log.failed {
      var l1 := l;
      if MustRotate(l, record) {
        RotateGives(k, l, h, io, BeforeRotation(l, io));
        l1 := Rotate(l, index, io).0;
      }
      WriteReturns(l1, index, record, io);
    }
  }

  lemma WriteReturns(l: Live, index: nat, record: Bytes, io: AppendIO)
    requires Shaped(l)
    ensures var (l', result) := WriteRecord(l, index, record, io);
            if io.write.Wrote? && (l.log.cfg.fsync == Always ==> io.sync)
            then result == Acked(index) && l'.log.failed == l.log.failed
            else result == Failed && l'.log.failed
  {
  }
}
