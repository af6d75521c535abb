/**
 * What a run must not do: open a log that has something left to flush, as after
 * a process died and the machine kept running. Opening takes the flag dirty for
 * false without a flush of the file or the directory, so neither the first
 * append nor the first rotation flushes what was left. Which openings do harm
 * is decided exactly.
 */
module LogKills {
  import opened ByteStrings
  import opened Sequences
  import opened Codecs
  import opened SegmentScan
  import opened Disks
  import opened LogSpec
  import opened LogInvariant
  import opened LogRecovery
  import opened LogDurability
  import opened LogReopening
  import opened LogSessions
  import opened LogRuns
  import opened LogRefusals

  /** Every system call of an append succeeds. */
  const ALL_DONE: AppendIO := AppendIO(true, true, Created, Wrote, true)

  // ---- Harm ----

  /** The disk still holds the commands acked, from index n + 1 on. */
  ghost predicate Retains(k: Codec, d: Disk, n: int, acked: seq<Bytes>)
    requires Lawful(k)
  {
    acked == [] || (0 <= n && n + |acked| <= |Commands(k, d)| && Commands(k, d)[n..n + |acked|] == acked)
  }

  /**
   * A crash that leaves c loses one of the commands acked, or a log that is
   * refused although its tail embeds no record.
   */
  ghost predicate Spoilt(k: Codec, cfg: Config, c: Disk, n: int, acked: seq<Bytes>)
    requires Lawful(k)
  {
    !Retains(k, c, n, acked) || (Open(k, cfg, c, ALL_WELL).1 == Corrupted && !EmbeddedTail(k, c))
  }

  /** Opening d, performing ops and then crashing does such harm. */
  ghost predicate Harms(k: Codec, cfg: Config, d: Disk, io: OpenIO, ops: seq<Operation>, fates: seq<Fate>)
    requires Lawful(k)
  {
    var (disk, result) := Open(k, cfg, d, io);
    && result.Opened?
    && var l := Live(disk, result.log);
       && InRange(k, l, ops) && CrashAllowed(PerformAll(k, l, ops).disk, fates)
       && Spoilt(k, cfg, AfterCrash(PerformAll(k, l, ops).disk, fates), l.log.lastIndex, AckedIn(k, l, ops))
  }

  /** The largest command makes an active segment of that size rotate. */
  predicate CanRotate(cfg: Config, size: nat) {
    size > 0 && size + RECORD_OVERHEAD + MAX_COMMAND_SIZE > cfg.segmentBytes
  }

  /** The last file's directory entry is not flushed, or the file is not and the first append can start a new one. */
  predicate Hazardous(cfg: Config, d: Disk) {
    d != [] && (!Last(d).linked || (!Settled(Last(d).file) && CanRotate(cfg, |Last(d).file.data|)))
  }

  // ---- What opening finds ----

  /** The last file reads as whole records. */
  ghost predicate Whole(k: Codec, d: Disk, h: History) {
    && DiskOk(k, d, h) && d != []
    && Last(d).file.data == EncodeAll(k, Last(d).first, Last(h.parts))
    && (Last(d).file.stale == [] ==> h.torn == [])
  }

  /** The log as opening finds it. */
  ghost function Reopened(cfg: Config, d: Disk, h: History): Live
    requires d != [] && |d| == |h.parts|
  {
    Live(d, NewSession(cfg, SegmentsFor(d, h.parts), |Last(d).file.data|, Following(d, h.parts) - 1))
  }

  lemma CleanIsWhole(k: Codec, d: Disk, h: History)
    requires DiskOk(k, d, h) && d != [] && Last(d).file.stale == [] && h.torn == []
    ensures Whole(k, d, h)
  {
    assert EncodeAll(k, Last(d).first, Last(h.parts)) + [] == EncodeAll(k, Last(d).first, Last(h.parts));
  }

  lemma OpensClean(k: Codec, cfg: Config, d: Disk, h: History)
    requires Lawful(k) && DiskOk(k, d, h) && d != [] && Last(d).file.stale == [] && h.torn == []
    ensures Open(k, cfg, d, ALL_WELL) == (d, Opened(Reopened(cfg, d, h).log)) && Whole(k, d, h)
  {
    hide InnersOk, EncodeAll, Scan, ScanAll, Acceptable;
    CleanIsWhole(k, d, h);
    AcceptableIff(k, d, h);
    OpenScannedIs(k, cfg, d, ScanAll(k, d), ALL_WELL);
  }

  lemma OpensTorn(k: Codec, cfg: Config, d: Disk, h: History) returns (h': History)
    requires Lawful(k) && DiskOk(k, d, h) && Incomplete(k, d, h) && d != [] && Last(d).file.stale == [] && h.torn != []
    requires Open(k, cfg, d, ALL_WELL).1.Opened?
    ensures var (disk, result) := Open(k, cfg, d, ALL_WELL);
            Whole(k, disk, h') && Live(disk, result.log) == Reopened(cfg, disk, h')
  {
    hide InnersOk, EncodeAll, Scan, ScanAll, Acceptable, SegmentsFor, SegmentsOf, LastOk, OpenScanned;
    var commands := Last(h.parts);
    AcceptableIff(k, d, h);
    RepairKeeps(k, cfg, d, h);
    OpenScannedIs(k, cfg, d, ScanAll(k, d), ALL_WELL);
    h' := Amend(h, commands, [], []);
    var disk := Open(k, cfg, d, ALL_WELL).0;
    LastUpdated(d, Last(disk));
    SameSegments(d, disk, h.parts, h'.parts);
    CleanIsWhole(k, disk, h');
  }

  lemma OpenedAs(k: Codec, cfg: Config, d: Disk, h: History) returns (h': History)
    requires Lawful(k) && DiskOk(k, d, h) && Open(k, cfg, d, ALL_WELL).1.Opened?
    ensures var (disk, result) := Open(k, cfg, d, ALL_WELL);
            Whole(k, disk, h') && Live(disk, result.log) == Reopened(cfg, disk, h')
  {
    hide DiskOk, Open, Incomplete;
    if d == [] {
      var l := FirstOpening(k, cfg);
      FirstSegmentOk(k, cfg, true);
      h' := History([[]], [], []);
      OpensClean(k, cfg, l.disk, h');
      OpenIsIdempotent(k, cfg, d);
    } else if Last(d).file.stale != [] {
      h' := h;
      StaleOpens(k, cfg, d, h, ALL_WELL);
      StaleIsWhole(k, d, h);
    } else {
      WithinEverything(h.parts);
      h' := Settle(k, d, h, Everything());
      if h'.torn == [] {
        OpensClean(k, cfg, d, h');
      } else {
        h' := OpensTorn(k, cfg, d, h');
      }
    }
  }

  lemma StaleIsWhole(k: Codec, d: Disk, h: History)
    requires DiskOk(k, d, h) && d != [] && Last(d).file.stale != []
    ensures Whole(k, d, h)
  {
  }

  // ---- Hazardous openings do harm ----

  /** The largest command. */
  const BIG: Bytes := seq(MAX_COMMAND_SIZE, i => 0)

  /** Sends it, with every system call succeeding. */
  const ONE_APPEND: seq<Operation> := [AppendCommand(BIG, ALL_DONE)]

  lemma OneAppend(k: Codec, l: Live)
    requires Shaped(l) && l.log.lastIndex + 1 < INDEX_LIMIT && Append(k, l, BIG, ALL_DONE).1.Acked?
    ensures InRange(k, l, ONE_APPEND) && AckedIn(k, l, ONE_APPEND) == [BIG]
    ensures PerformAll(k, l, ONE_APPEND) == Append(k, l, BIG, ALL_DONE).0
  {
    hide Append;
    var l' := Perform(k, l, ONE_APPEND[0]);
    assert ONE_APPEND[1..] == [];
    assert AckedIn(k, l', []) == [] && InRange(k, l', []) && PerformAll(k, l', []) == l';
    assert Acks(k, l, ONE_APPEND[0]) + [] == [BIG];
  }

  lemma InnersKept(k: Codec, d: Disk, h: History)
    requires Lawful(k) && DiskOk(k, d, h) && d != []
    ensures CrashAllowed(Init(d), KeepAll(Init(d))) && AfterCrash(Init(d), KeepAll(Init(d))) == Init(d)
    ensures |Commands(k, Init(d))| + 1 == Last(d).first
  {
    hide EncodeAll, CrashAllowed;
    var init, parts := Init(d), Init(h.parts);
    InnersAreOk(k, init, parts);
    MayKeepAll(k, init, History(parts, [], []));
    InnersAreDurable(k, init, parts);
    DurableSurvives(init, KeepAll(init));
    InnersHold(k, init, parts);
  }

  lemma {:induction false} CrashOfOne(d: Disk, e: SegmentFile, fates: seq<Fate>, fate: Fate)
    requires CrashAllowed(d, fates) && FateAllowed(e, fate)
    ensures CrashAllowed(d + [e], fates + [fate])
    ensures AfterCrash(d + [e], fates + [fate]) == AfterCrash(d, fates) + Survivor(e, fate)
  {
    hide FateAllowed, Survivor;
    assert Init(d + [e]) == d && Init(fates + [fate]) == fates;
  }

  /** The first append to an empty file flushes the file and not its entry. */
  lemma AppendsUnlinked(k: Codec, cfg: Config, d: Disk, h: History, command: Bytes) returns (e: SegmentFile)
    requires Lawful(k) && Whole(k, d, h) && !Last(d).linked && cfg.fsync == Always
    requires Following(d, h.parts) < INDEX_LIMIT && |command| <= MAX_COMMAND_SIZE
    ensures var l := Reopened(cfg, d, h);
            && Shaped(l) && l.log.lastIndex + 1 == Last(d).first
            && Append(k, l, command, ALL_DONE).1 == Acked(Last(d).first)
            && Append(k, l, command, ALL_DONE).0.disk == Init(d) + [e] && !e.linked
  {
    hide InnersOk, EncodeAll, SegmentsFor, WriteRecord;
    var l, next := Reopened(cfg, d, h), Following(d, h.parts);
    EncodeAllLength(k, Last(d).first, Last(h.parts));
    WriteRecordHasEffect(l, next, k.enc(next, command), ALL_DONE);
    e := Last(Append(k, l, command, ALL_DONE).0.disk);
    LastUpdated(d, e);
  }

  /** So a crash can take the acknowledged command away. */
  lemma UnlinkedIsLost(k: Codec, cfg: Config, d: Disk, h: History, command: Bytes)
    requires Lawful(k) && Whole(k, d, h) && !Last(d).linked && cfg.fsync == Always
    requires Following(d, h.parts) < INDEX_LIMIT && |command| <= MAX_COMMAND_SIZE
    ensures var l := Reopened(cfg, d, h);
            && Shaped(l) && Append(k, l, command, ALL_DONE).1 == Acked(l.log.lastIndex + 1)
            && var d' := Append(k, l, command, ALL_DONE).0.disk;
               && CrashAllowed(d', KeepAll(Init(d)) + [Lost])
               && |Commands(k, AfterCrash(d', KeepAll(Init(d)) + [Lost]))| == l.log.lastIndex
  {
    hide DiskOk, Append, Commands, AfterCrash, CrashAllowed, EncodeAll, Following;
    var e := AppendsUnlinked(k, cfg, d, h, command);
    InnersKept(k, d, h);
    CrashOfOne(Init(d), e, KeepAll(Init(d)), Lost);
    assert Init(d) + [] == Init(d);
  }

  lemma CreatesUnflushed(k: Codec, d: Disk, h: History)
    requires Whole(k, d, h) && Last(d).linked && Last(d).file.data != []
    ensures CreateSegment(d, Following(d, h.parts), Created)
         == (d + [SegmentFile(Following(d, h.parts), EMPTY_FILE, true)], true)
  {
    var next := Following(d, h.parts);
    InnersAscend(k, Init(d), Init(h.parts));
    assert Last(h.parts) != [];
    assert forall i :: 0 <= i < |d| ==> d[i] == (if i < |d| - 1 then Init(d)[i] else Last(d));
    DirectoryFlushedIs(d, SegmentFile(next, EMPTY_FILE, false));
  }

  /** The file of one record, all of it on disk. */
  function RecordFile(k: Codec, index: nat, command: Bytes): SegmentFile {
    Survived(index, k.enc(index, command))
  }

  /** The first append, if it starts a new segment, leaves the old one as it is. */
  lemma RotatesUnflushed(k: Codec, cfg: Config, d: Disk, h: History, command: Bytes)
    requires Lawful(k) && Whole(k, d, h) && Last(d).linked && cfg.fsync == Always && |command| <= MAX_COMMAND_SIZE
    requires MustRotate(Reopened(cfg, d, h), k.enc(Following(d, h.parts), command))
    ensures Shaped(Reopened(cfg, d, h))
    ensures var next := Following(d, h.parts);
            var (l, result) := Append(k, Reopened(cfg, d, h), command, ALL_DONE);
            result == Acked(next) && l.disk == d + [RecordFile(k, next, command)]
  {
    hide LastOk, InnersOk, EncodeAll, SegmentsFor, WriteRecord, CreateSegment, Following;
    var l, next := Reopened(cfg, d, h), Following(d, h.parts);
    var record := k.enc(next, command);
    CreatesUnflushed(k, d, h);
    RotateIs(l, next, ALL_DONE, l);
    var l1 := Rotate(l, next, ALL_DONE).0;
    WriteRecordHasEffect(l1, next, record, ALL_DONE);
    var e := SegmentFile(next, EMPTY_FILE, true);
    assert [] + record == record;
    assert WithLast(d + [e], Flushed(Written(EMPTY_FILE, record))) == d + [RecordFile(k, next, command)];
  }

  /** Losing any byte of a file of whole records loses a record. */
  lemma ShorterHoldsFewer(k: Codec, first: nat, commands: seq<Bytes>, q: Bytes)
    requires Lawful(k) && AllStorable(first, commands) && q < EncodeAll(k, first, commands)
    ensures |Scan(k, q, first).commands| < |commands|
  {
    hide Scan, EncodeAll;
    ScanMonotone(k, q, EncodeAll(k, first, commands), first);
    ScanWhole(k, first, commands);
    ScanPrints(k, q, first);
    var r := Scan(k, q, first);
    assert |r.commands| == |commands| ==> r.commands == commands;
  }

  /** What a crash can make of the last file of d that no longer ends where the next file starts, or ends in damage. */
  lemma SpoiltLast(k: Codec, d: Disk, h: History) returns (q: Bytes)
    requires Lawful(k) && Whole(k, d, h) && Last(d).linked && Last(d).file.data != [] && !Settled(Last(d).file)
    ensures FateAllowed(Last(d), Kept(q))
    ensures var r := Scan(k, q, Last(d).first);
            r.damage != NoDamage || Last(d).first + |r.commands| != Following(d, h.parts)
  {
    hide InnersOk, Scan, EncodeAll;
    var e, commands := Last(d), Last(h.parts);
    if e.file.stale == [] {
      q := SafeBytes(e);
      ShorterHoldsFewer(k, e.first, commands, q);
    } else {
      q := e.file.stale;
      LongSurvivor(k, e.first, commands, h.torn, h.inflight, q);
      assert q[|EncodeAll(k, e.first, commands)|..] == h.torn;
      LastReads(k, Survived(e.first, q), commands, h.torn, h.inflight);
    }
  }

  /** Such a file before another makes the log unopenable. */
  lemma GapIsRefused(k: Codec, cfg: Config, d: Disk, e: SegmentFile, next: SegmentFile)
    requires Lawful(k)
    requires var r := Scan(k, e.file.data, e.first); r.damage != NoDamage || e.first + |r.commands| != next.first
    ensures Open(k, cfg, d + [e] + [next], ALL_WELL).1 == Corrupted
  {
    hide Scan, Classify;
    OpenIs(k, cfg, d + [e], next, Scan(k, next.file.data, next.first));
    ScanAllSnoc(k, d, e);
    assert Init(d + [e]) == d;
  }

  /** A last file that is one whole record has no tail. */
  lemma WholeTail(k: Codec, d: Disk, index: nat, command: Bytes)
    requires Lawful(k) && Storable(index, command)
    ensures !EmbeddedTail(k, d + [RecordFile(k, index, command)])
  {
    hide Scan, HasLater;
    var e := RecordFile(k, index, command);
    assert Last(d + [e]) == e;
    assert EncodeAll(k, index, [command]) == e.file.data + [] == e.file.data;
    ScanWhole(k, index, [command]);
    NothingLater(k, index + 1);
  }

  lemma RotatedIsRefused(k: Codec, cfg: Config, d: Disk, h: History, command: Bytes) returns (fates: seq<Fate>)
    requires Lawful(k) && Whole(k, d, h) && Last(d).linked && Last(d).file.data != [] && !Settled(Last(d).file)
    requires Storable(Following(d, h.parts), command)
    ensures var d' := d + [RecordFile(k, Following(d, h.parts), command)];
            && CrashAllowed(d', fates)
            && Open(k, cfg, AfterCrash(d', fates), ALL_WELL).1 == Corrupted && !EmbeddedTail(k, AfterCrash(d', fates))
  {
    hide InnersOk, LastOk, Scan, EncodeAll, Open, EmbeddedTail, CrashAllowed, AfterCrash, FateAllowed, KeepAll;
    var init, e, next := Init(d), Last(d), RecordFile(k, Following(d, h.parts), command);
    var q := SpoiltLast(k, d, h);
    var kept := Survived(e.first, q);
    InnersKept(k, d, h);
    WholeMayStay(next);
    CrashOfOne(init, e, KeepAll(init), Kept(q));
    CrashOfOne(init + [e], next, KeepAll(init) + [Kept(q)], Kept(next.file.data));
    fates := KeepAll(init) + [Kept(q)] + [Kept(next.file.data)];
    assert init + [e] == d;
    GapIsRefused(k, cfg, init, kept, next);
    WholeTail(k, init + [kept], next.first, command);
  }

  lemma WholeMayStay(e: SegmentFile)
    requires e.linked && Settled(e.file)
    ensures FateAllowed(e, Kept(e.file.data)) && Survivor(e, Kept(e.file.data)) == [e]
  {
  }

  /** A log that opens hazardously can be harmed. */
  lemma HazardHarms(k: Codec, cfg: Config, d: Disk, io: OpenIO, l: Live, h: History) returns (fates: seq<Fate>)
    requires Lawful(k) && Whole(k, l.disk, h) && l == Reopened(cfg, l.disk, h) && cfg.fsync == Always
    requires Open(k, cfg, d, io) == (l.disk, Opened(l.log)) && Hazardous(cfg, l.disk)
    requires Following(l.disk, h.parts) < INDEX_LIMIT
    ensures Harms(k, cfg, d, io, ONE_APPEND, fates)
  {
    hide Open, Whole, Append, EmbeddedTail, AfterCrash, CrashAllowed, Following, PerformAll, InRange, AckedIn, Commands;
    if !Last(l.disk).linked {
      UnlinkedIsLost(k, cfg, l.disk, h, BIG);
      fates := KeepAll(Init(l.disk)) + [Lost];
    } else {
      RotatesUnflushed(k, cfg, l.disk, h, BIG);
      fates := RotatedIsRefused(k, cfg, l.disk, h, BIG);
    }
    OneAppend(k, l);
  }

  // ---- Other openings do none ----

  lemma {:induction false} ConfigStays(k: Codec, l: Live, ops: seq<Operation>)
    requires Shaped(l)
    ensures PerformAll(k, l, ops).log.cfg == l.log.cfg
    decreases |ops|
  {
    if ops != [] {
      ConfigKept(k, l, ops[0]);
      hide Perform;
      ConfigStays(k, Perform(k, l, ops[0]), ops[1..]);
    }
  }

  /** A sound log is never spoilt by a crash, whatever it did before. */
  lemma SessionIsSafe(k: Codec, cfg: Config, l: Live, h: History, ops: seq<Operation>, fates: seq<Fate>)
    requires Lawful(k) && LiveOk(k, l, h) && Shaped(l) && InRange(k, l, ops) && l.log.cfg.fsync == Always
    requires CrashAllowed(PerformAll(k, l, ops).disk, fates)
    ensures !Spoilt(k, cfg, AfterCrash(PerformAll(k, l, ops).disk, fates), l.log.lastIndex, AckedIn(k, l, ops))
  {
    hide LiveOk, DiskOk, Within, Commands, SafeCommands, AllDurable, AckedIn, PerformAll, InRange, Open, EmbeddedTail;
    var p, l' := Everything(), PerformAll(k, l, ops);
    WithinEverything(h.parts);
    assert Within(h, p) by { WithinAll(h); }
    ConfigStays(k, l, ops);
    SessionCommands(k, l, h, ops, p);
    var h' := SessionKeeps(k, l, h, ops, p);
    LiveHasDisk(k, l', h');
    LastIndexCounts(k, l', h');
    CrashCommands(k, l'.disk, h', fates);
    var h2 := CrashKeeps(k, l'.disk, h', fates, p);
    var c := AfterCrash(l'.disk, fates);
    var command := DurableRefusedIff(k, cfg, c, h2, ALL_WELL, p);
    var base := Commands(k, l.disk)[..l.log.lastIndex];
    Retained(Commands(k, c), Commands(k, l'.disk), l'.log.lastIndex, base, AckedIn(k, l, ops));
  }

  lemma Retained(kept: seq<Bytes>, all: seq<Bytes>, last: nat, base: seq<Bytes>, acked: seq<Bytes>)
    requires kept <= all && last <= |kept| && all[..last] == base + acked
    ensures |base| + |acked| <= |kept| && kept[|base|..|base| + |acked|] == acked
  {
    assert kept[..last] == all[..last];
    assert kept[|base|..last] == all[..last][|base|..];
  }

  // ---- Openings with something left to flush that the first acknowledgment flushes ----

  /**
   * l0 is l with the last file of d flushed before the session; as long as they
   * differ, nothing was acknowledged and no new segment can start.
   */
  ghost predicate Apart(l: Live, l0: Live, d: Disk) {
    && d != [] && Last(d).linked && Last(d).file.durable <= |Last(d).file.data|
    && l.log == l0.log && |l.disk| == |l0.disk| == |d| == |l.log.segments| && Shaped(l)
    && Init(l.disk) == Init(l0.disk) == Init(d)
    && var f, f0 := Last(l.disk).file, Last(l0.disk).file;
       && Last(l.disk) == Last(d).(file := f) && Last(l0.disk) == Last(d).(file := f0)
       && f.data == f0.data && Last(d).file.data <= f.data
       && f == Last(d).file.(data := f.data) && f0 == Flushed(Last(d).file).(data := f.data)
       && (!l.log.failed ==>
             && f.data == Last(d).file.data && l.log.activeSize == |f.data| && !l.log.dirty
             && !CanRotate(l.log.cfg, |f.data|))
  }

  lemma WithLastIs(d: Disk, f: File)
    requires d != []
    ensures WithLast(d, f) == Init(d) + [Last(d).(file := f)]
    ensures Init(WithLast(d, f)) == Init(d) && Last(WithLast(d, f)) == Last(d).(file := f)
  {
  }

  /** An acknowledged write flushes the file, and then they no longer differ. */
  lemma ApartWrite(l: Live, l0: Live, d: Disk, index: nat, record: Bytes, io: AppendIO)
    requires Apart(l, l0, d) && Shaped(l0) && l.log.cfg.fsync == Always && !l.log.failed
    ensures var r, r0 := WriteRecord(l, index, record, io), WriteRecord(l0, index, record, io);
            r.1 == r0.1 && (r.0 == r0.0 || (Apart(r.0, r0.0, d) && !r.1.Acked?))
  {
    hide WriteRecord;
    WriteRecordHasEffect(l, index, record, io);
    WriteRecordHasEffect(l0, index, record, io);
    var f, f0 := Last(l.disk).file, Last(l0.disk).file;
    var n := if io.write.Short? then Least(io.write.written, |record|) else |record|;
    assert record[..|record|] == record;
    var w, w0 := Written(f, record[..n]), Written(f0, record[..n]);
    WithLastIs(l.disk, w);
    WithLastIs(l0.disk, w0);
    WithLastIs(l.disk, Flushed(w));
    WithLastIs(l0.disk, Flushed(w0));
    if !WriteRecord(l, index, record, io).1.Acked? {
      FailedAlike(l, index, record, io);
      FailedAlike(l0, index, record, io);
    }
  }

  lemma FailedAlike(l: Live, index: nat, record: Bytes, io: AppendIO)
    requires Shaped(l) && l.log.cfg.fsync == Always && !WriteRecord(l, index, record, io).1.Acked?
    ensures WriteRecord(l, index, record, io).0.log
         == if io.write.Short? then l.log.(failed := true)
            else l.log.(failed := true, activeSize := l.log.activeSize + |record|, dirty := true)
  {
  }

  lemma ApartStep(k: Codec, l: Live, l0: Live, d: Disk, op: Operation)
    requires Lawful(k) && Apart(l, l0, d) && Shaped(l0) && l.log.cfg.fsync == Always
    ensures Acks(k, l, op) == Acks(k, l0, op)
    ensures var l', l0' := Perform(k, l, op), Perform(k, l0, op);
            l' == l0' || (Apart(l', l0', d) && Acks(k, l, op) == [])
  {
    hide WriteRecord;
    if op.AppendCommand? && !l.log.failed {
      ApartWrite(l, l0, d, l.log.lastIndex + 1, k.enc(l.log.lastIndex + 1, op.command), op.io);
    }
  }

  lemma {:induction false} ApartSession(k: Codec, l: Live, l0: Live, d: Disk, ops: seq<Operation>)
    requires Lawful(k) && Apart(l, l0, d) && Shaped(l0) && l.log.cfg.fsync == Always && InRange(k, l, ops)
    ensures InRange(k, l0, ops) && AckedIn(k, l, ops) == AckedIn(k, l0, ops)
    ensures var l', l0' := PerformAll(k, l, ops), PerformAll(k, l0, ops);
            l' == l0' || (Apart(l', l0', d) && AckedIn(k, l, ops) == [])
    decreases |ops|
  {
    hide Perform, Acks;
    if ops != [] {
      var l1, l2 := Perform(k, l, ops[0]), Perform(k, l0, ops[0]);
      ApartStep(k, l, l0, d, ops[0]);
      ConfigStays(k, l, [ops[0]]);
      assert PerformAll(k, l, [ops[0]]) == l1;
      if l1 != l2 {
        ApartSession(k, l1, l2, d, ops[1..]);
      }
    }
  }

  /** The disk with its last file flushed. */
  function Settling(d: Disk): Disk
    requires d != []
  {
    WithLast(d, Flushed(Last(d).file))
  }

  lemma SettlingIsLive(k: Codec, cfg: Config, d: Disk, h: History) returns (h0: History)
    requires Lawful(k) && Whole(k, d, h) && Last(d).linked && !CanRotate(cfg, |Last(d).file.data|)
    ensures var l := Reopened(cfg, d, h);
            && Shaped(l) && Shaped(l.(disk := Settling(d)))
            && LiveOk(k, l.(disk := Settling(d)), h0) && Apart(l, l.(disk := Settling(d)), d)
  {
    hide InnersOk, EncodeAll, SegmentsFor;
    var e, d0, commands := Last(d), Settling(d), Last(h.parts);
    h0 := Amend(h, commands, [], []);
    assert EncodeAll(k, e.first, commands) + [] == EncodeAll(k, e.first, commands);
    ReplaceLast(k, d, h, e.(file := Flushed(e.file)), commands, [], []);
    InnersAreDurable(k, Init(d), Init(h.parts));
    WithLastIs(d, Flushed(e.file));
    OpenCleanKeeps(k, cfg, d0, h0);
    SameSegments(d, d0, h.parts, h0.parts);
  }

  /**
   * A log whose first append cannot start a new segment is not spoilt: after a
   * crash it is as it was before the session, or as if it had been flushed then.
   */
  lemma FlushedInTime(k: Codec, cfg: Config, d: Disk, h: History, ops: seq<Operation>, fates: seq<Fate>)
    requires Lawful(k) && Whole(k, d, h) && Last(d).linked && cfg.fsync == Always
    requires !CanRotate(cfg, |Last(d).file.data|)
    requires Shaped(Reopened(cfg, d, h)) && InRange(k, Reopened(cfg, d, h), ops)
    requires CrashAllowed(PerformAll(k, Reopened(cfg, d, h), ops).disk, fates)
    ensures var l := Reopened(cfg, d, h);
            !Spoilt(k, cfg, AfterCrash(PerformAll(k, l, ops).disk, fates), l.log.lastIndex, AckedIn(k, l, ops))
  {
    hide LiveOk, InnersOk, LastOk, EncodeAll, AckedIn, PerformAll, InRange, Open, EmbeddedTail, Commands, SegmentsFor;
    var l := Reopened(cfg, d, h);
    var l0 := l.(disk := Settling(d));
    var h0 := SettlingIsLive(k, cfg, d, h);
    ApartSession(k, l, l0, d, ops);
    var l', l0' := PerformAll(k, l, ops), PerformAll(k, l0, ops);
    if l' == l0' {
      SessionIsSafe(k, cfg, l0, h0, ops, fates);
    } else {
      CrashApart(l', l0', d, fates);
      if CrashAllowed(l0'.disk, fates) && AfterCrash(l0'.disk, fates) == AfterCrash(l'.disk, fates) {
        SessionIsSafe(k, cfg, l0, h0, ops, fates);
      } else {
        WithinAll(h);
        var h1 := CrashKeeps(k, d, h, fates, Everything());
        var c := DurableRefusedIff(k, cfg, AfterCrash(d, fates), h1, ALL_WELL, Everything());
      }
    }
  }

  /** A crash of l is one of l0, or one that undoes the session. */
  lemma CrashApart(l: Live, l0: Live, d: Disk, fates: seq<Fate>)
    requires Apart(l, l0, d) && CrashAllowed(l.disk, fates)
    ensures || (CrashAllowed(l0.disk, fates) && AfterCrash(l0.disk, fates) == AfterCrash(l.disk, fates))
            || (CrashAllowed(d, fates) && AfterCrash(d, fates) == AfterCrash(l.disk, fates))
  {
  }

  // ---- Which openings do harm ----

  /** Every system call of an opening that succeeds has succeeded, as far as it was made. */
  lemma OpenedIsAllWell(k: Codec, cfg: Config, d: Disk, io: OpenIO)
    requires Lawful(k) && Open(k, cfg, d, io).1.Opened?
    ensures Open(k, cfg, d, io) == Open(k, cfg, d, ALL_WELL)
  {
  }

  lemma WholeCounts(k: Codec, d: Disk, h: History)
    requires Lawful(k) && Whole(k, d, h)
    ensures |Commands(k, d)| + 1 == Following(d, h.parts)
  {
    hide EncodeAll, Scan;
    InnersHold(k, Init(d), Init(h.parts));
    ScanWhole(k, Last(d).first, Last(h.parts));
  }

  lemma HarmlessOpening(
    k: Codec, cfg: Config, d: Disk, h: History, io: OpenIO, ops: seq<Operation>, fates: seq<Fate>)
    requires Lawful(k) && DiskOk(k, d, h) && cfg.fsync == Always && Open(k, cfg, d, io).1.Opened?
    requires !Hazardous(cfg, Open(k, cfg, d, io).0)
    ensures !Harms(k, cfg, d, io, ops, fates)
  {
    hide DiskOk, LiveOk, AllDurable, AckedIn, PerformAll, InRange, Open, Spoilt, CrashAllowed, AfterCrash, EncodeAll;
    OpenedIsAllWell(k, cfg, d, io);
    var (disk, result) := Open(k, cfg, d, io);
    var h' := OpenedAs(k, cfg, d, h);
    if Harms(k, cfg, d, io, ops, fates) {
      if CanRotate(cfg, |Last(disk).file.data|) {
        SettledIsDurable(k, disk, h');
        WithinAll(h);
        var h1 := OpenKeeps(k, cfg, d, h, io, Everything());
        SessionIsSafe(k, cfg, Live(disk, result.log), h1, ops, fates);
      } else {
        FlushedInTime(k, cfg, disk, h', ops, fates);
      }
    }
  }

  lemma SettledIsDurable(k: Codec, d: Disk, h: History)
    requires DiskOk(k, d, h) && d != [] && Last(d).linked && Settled(Last(d).file)
    ensures AllDurable(d)
  {
    InnersAreDurable(k, Init(d), Init(h.parts));
  }

  /**
   * Open any disk that the log can have written, with the always policy and any
   * segment size. Then some operations and some crash lose an acknowledged
   * command, or leave a log that refuses to open with no embedded record to
   * blame, if and only if the opened log's last file is not linked, or is not
   * flushed and so full that the first append may start a new segment.
   */
  lemma ReopeningIsSafeIff(k: Codec, cfg: Config, d: Disk, h: History, io: OpenIO)
    requires Lawful(k) && DiskOk(k, d, h) && |Commands(k, d)| + 1 < INDEX_LIMIT
    requires cfg.fsync == Always && cfg.segmentBytes > 0 && Open(k, cfg, d, io).1.Opened?
    ensures Hazardous(cfg, Open(k, cfg, d, io).0) <==> exists ops, fates :: Harms(k, cfg, d, io, ops, fates)
  {
    hide DiskOk, Whole, AllDurable, Hazardous, Harms, Open, Commands, Following;
    OpenedIsAllWell(k, cfg, d, io);
    var (disk, result) := Open(k, cfg, d, io);
    var h' := OpenedAs(k, cfg, d, h);
    OpenChangesNoCommand(k, cfg, d, io);
    WholeCounts(k, disk, h');
    if Hazardous(cfg, disk) {
      var fates := HazardHarms(k, cfg, d, io, Live(disk, result.log), h');
    } else {
      forall ops, fates ensures !Harms(k, cfg, d, io, ops, fates) {
        HarmlessOpening(k, cfg, d, h, io, ops, fates);
      }
    }
  }

  // ---- Three ways to get there ----

  /** Opening with a directory flush that fails. */
  const UNLINKED: OpenIO := OpenIO(true, NotLinked, CutAndFlushed, true)

  /**
   * A new log whose first opening could not flush the directory, opened again:
   * the first command is acknowledged, and a crash leaves an empty directory.
   */
  lemma UnlinkedRun(k: Codec, cfg: Config, command: Bytes)
    requires Lawful(k) && cfg.fsync == Always && |command| <= MAX_COMMAND_SIZE
    ensures var s := Run(k, INITIAL, [OpenLog(cfg, UNLINKED), OpenLog(cfg, ALL_WELL)]);
            && s.log.Some?
            && var (l, result) := Append(k, Live(s.disk, s.log.value), command, ALL_DONE);
               result == Acked(1) && CrashAllowed(l.disk, [Lost]) && AfterCrash(l.disk, [Lost]) == []
  {
    hide Append, Open, DiskOk, Run;
    var d := UnlinkedOpening(k, cfg);
    var h := History([[]], [], []);
    FirstSegmentOk(k, cfg, false);
    OpensClean(k, cfg, d, h);
    RunOfTwo(k, INITIAL, OpenLog(cfg, UNLINKED), OpenLog(cfg, ALL_WELL));
    var e := AppendsUnlinked(k, cfg, d, h, command);
    CrashOfOne([], e, [], Lost);
    assert Init(d) == [] && [] + [e] == [e] && [] + [Lost] == [Lost];
  }

  lemma UnlinkedOpening(k: Codec, cfg: Config) returns (d: Disk)
    requires Lawful(k)
    ensures d == [SegmentFile(1, EMPTY_FILE, false)] && Open(k, cfg, [], UNLINKED) == (d, IoError)
  {
    var none: Disk := [];
    CreateAppends(k, none, [], NotLinked);
    d := none + [SegmentFile(1, EMPTY_FILE, false)];
  }

  /** Opening with a flush that fails after the torn tail was cut. */
  const UNFLUSHED: OpenIO := OpenIO(true, Created, NotFlushed, true)

  lemma CutsUnflushed(k: Codec, cfg: Config, d: Disk, h: History)
    requires Lawful(k) && DiskOk(k, d, h) && Incomplete(k, d, h) && d != [] && Last(d).file.stale == []
    requires h.torn != [] && !EmbeddedTail(k, d)
    ensures var size := |EncodeAll(k, Last(d).first, Last(h.parts))|;
            && size <= |Last(d).file.data|
            && Open(k, cfg, d, UNFLUSHED) == (WithLast(d, Truncated(Last(d).file, size)), IoError)
  {
    hide DiskOk, EncodeAll, Scan, ScanAll, Acceptable, SegmentsFor, SegmentsOf, OpenScanned, EmbeddedTail, HasLater;
    AcceptableIff(k, d, h);
    DiskHolds(k, d, h);
    OpenScannedIs(k, cfg, d, ScanAll(k, d), UNFLUSHED);
  }

  /** A torn tail, cut off by an opening that could not flush the cut. */
  lemma CutUnflushed(k: Codec, cfg: Config, d: Disk, h: History)
    requires Lawful(k) && DiskOk(k, d, h) && Incomplete(k, d, h) && d != [] && Last(d).file.stale == []
    requires h.torn != [] && !EmbeddedTail(k, d)
    ensures var (d', result) := Open(k, cfg, d, UNFLUSHED);
            && result == IoError && DiskOk(k, d', h) && d' != [] && Last(d').file.stale != []
            && Last(d').linked && |Last(d').file.data| == |EncodeAll(k, Last(d).first, Last(h.parts))|
            && Following(d', h.parts) == Following(d, h.parts)
  {
    hide InnersOk, EncodeAll, SegmentsFor, LastOk, LiveOk, EmbeddedTail, Open;
    CutsUnflushed(k, cfg, d, h);
    RepairKeeps(k, cfg, d, h);
    CutOk(k, Last(d), Last(h.parts), h.torn, h.inflight);
    WithLastIs(d, Truncated(Last(d).file, |EncodeAll(k, Last(d).first, Last(h.parts))|));
  }

  /**
   * A repair interrupted between the cut and its flush, without a crash. If the
   * log is then opened so that the next command can start a new segment, that
   * command is acknowledged, and a crash that brings the cut tail back makes the
   * log refuse to open.
   */
  lemma InterruptedRepair(k: Codec, cfg: Config, d: Disk, h: History)
    requires Lawful(k) && DiskOk(k, d, h) && Incomplete(k, d, h) && d != [] && Last(d).file.stale == []
    requires h.torn != [] && !EmbeddedTail(k, d) && Following(d, h.parts) < INDEX_LIMIT
    requires cfg.fsync == Always && CanRotate(cfg, |EncodeAll(k, Last(d).first, Last(h.parts))|)
    ensures var (d', result) := Open(k, cfg, d, UNFLUSHED);
            && result == IoError && DiskOk(k, d', h)
            && exists fates :: Harms(k, cfg, d', ALL_WELL, ONE_APPEND, fates)
  {
    hide DiskOk, Open, Harms, EmbeddedTail, Following, EncodeAll;
    CutUnflushed(k, cfg, d, h);
    var d' := Open(k, cfg, d, UNFLUSHED).0;
    StaleOpens(k, cfg, d', h, ALL_WELL);
    StaleIsWhole(k, d', h);
    var fates := HazardHarms(k, cfg, d', ALL_WELL, Live(d', Open(k, cfg, d', ALL_WELL).1.log), h);
  }

  lemma WrittenUnflushed(k: Codec, l: Live, h: History, command: Bytes, io: AppendIO) returns (h': History)
    requires Lawful(k) && LiveOk(k, l, h) && Shaped(l) && !l.log.failed && !l.log.closed && l.log.cfg.fsync == Always
    requires Storable(l.log.lastIndex + 1, command) && io.write == Wrote && !io.sync
    requires !MustRotate(l, k.enc(l.log.lastIndex + 1, command))
    ensures var d := Append(k, l, command, io).0.disk;
            && DiskOk(k, d, h') && h'.torn == [] && d != []
            && Last(d).linked && Last(d).file.stale == [] && !Settled(Last(d).file)
            && |Last(d).file.data| == l.log.activeSize + RECORD_OVERHEAD + |command|
            && Following(d, h'.parts) == l.log.lastIndex + 2
  {
    hide InnersOk, SegmentsFor, EncodeAll;
    LiveIsShaped(k, l, h);
    var index := l.log.lastIndex + 1;
    var record, e := k.enc(index, command), Last(l.disk);
    var e' := e.(file := Written(e.file, record));
    WriteRecordHasEffect(l, index, record, io);
    RecordWritten(k, e, Last(h.parts), command, h.inflight);
    ReplaceLast(k, l.disk, h, e', Last(h.parts) + [command], [], []);
    h' := Amend(h, Last(h.parts) + [command], [], []);
  }

  /**
   * A process killed between the write and the fsync of an append: the record is
   * whole to its readers, and not durable. If the log is then opened so that the
   * next command can start a new segment, that command is acknowledged, and a
   * crash that loses the record makes the log refuse to open.
   */
  lemma KilledBeforeFsync(k: Codec, cfg: Config, l: Live, h: History, command: Bytes, io: AppendIO)
    requires Lawful(k) && LiveOk(k, l, h) && Shaped(l) && !l.log.failed && !l.log.closed && l.log.cfg.fsync == Always
    requires Storable(l.log.lastIndex + 2, command) && io.write == Wrote && !io.sync
    requires !MustRotate(l, k.enc(l.log.lastIndex + 1, command))
    requires cfg.fsync == Always && CanRotate(cfg, l.log.activeSize + RECORD_OVERHEAD + |command|)
    ensures exists fates :: Harms(k, cfg, Append(k, l, command, io).0.disk, ALL_WELL, ONE_APPEND, fates)
  {
    hide LiveOk, DiskOk, Open, Append, Harms, Following;
    var d := Append(k, l, command, io).0.disk;
    var h' := WrittenUnflushed(k, l, h, command, io);
    OpensClean(k, cfg, d, h');
    var fates := HazardHarms(k, cfg, d, ALL_WELL, Live(d, Open(k, cfg, d, ALL_WELL).1.log), h');
  }
}
