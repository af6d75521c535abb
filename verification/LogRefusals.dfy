/** When recovery refuses a log that only a crash has touched. */
module LogRefusals {
  import opened ByteStrings
  import opened Sequences
  import opened Codecs
  import opened Record
  import opened SegmentScan
  import opened Disks
  import opened LogSpec
  import opened LogInvariant
  import opened LogRecovery
  import opened LogDurability
  import opened LogRuns
  import LogReopening

  /** The record of command at index, cut short by one byte, contains an intact record with a later index. */
  ghost predicate Embeds(k: Codec, index: nat, command: Bytes) {
    var e := k.enc(index, command);
    e != [] && HasLater(k, Init(e), index)
  }

  /** That one cut stands for all of them. */
  lemma EmbedsIff(k: Codec, index: nat, command: Bytes)
    requires Lawful(k)
    ensures Embeds(k, index, command) <==> exists cut :: cut < k.enc(index, command) && HasLater(k, cut, index)
  {
    var e := k.enc(index, command);
    if Embeds(k, index, command) {
      assert Init(e) < e;
    }
    forall cut | cut < e && HasLater(k, cut, index)
      ensures Embeds(k, index, command)
    {
      assert cut <= Init(e);
      HasLaterMonotone(k, cut, Init(e), index);
    }
  }

  // ---- Refusals after a crash ----

  /** What follows the records that verification accepts in the last file. */
  ghost function Tail(k: Codec, d: Disk): Bytes
    requires Lawful(k) && d != []
  {
    AreSized(k, d);
    Last(d).file.data[Scan(k, Last(d).file.data, Last(d).first).size..]
  }

  /** The tail of the last file contains an intact record with a later index. */
  ghost predicate EmbeddedTail(k: Codec, d: Disk)
    requires Lawful(k)
  {
    d != [] && HasLater(k, Tail(k, d), Last(d).first + |Scan(k, Last(d).file.data, Last(d).first).commands|)
  }

  /** What a disk holds, when its last record is incomplete. */
  lemma DiskHolds(k: Codec, d: Disk, h: History)
    requires Lawful(k) && DiskOk(k, d, h) && Incomplete(k, d, h) && d != [] && Last(d).file.stale == []
    ensures Tail(k, d) == h.torn && |Commands(k, d)| + 1 == Following(d, h.parts)
    ensures EmbeddedTail(k, d) <==> HasLater(k, h.torn, Following(d, h.parts))
  {
    hide EncodeAll, Scan, HasLater;
    InnersHold(k, Init(d), Init(h.parts));
    LastReads(k, Last(d), Last(h.parts), h.torn, h.inflight);
  }

  lemma NothingLater(k: Codec, damaged: nat)
    requires Lawful(k)
    ensures !HasLater(k, [], damaged)
  {
  }

  lemma IncompleteRefusedIff(k: Codec, cfg: Config, d: Disk, h: History, io: OpenIO)
    requires Lawful(k) && DiskOk(k, d, h) && Incomplete(k, d, h) && d != [] && Last(d).file.stale == []
    ensures Open(k, cfg, d, io).1 == Corrupted <==> io.readable && EmbeddedTail(k, d)
  {
    hide InnersOk, EncodeAll, Scan, ScanAll, Acceptable, Reading, HasLater;
    AcceptableIff(k, d, h);
    DiskHolds(k, d, h);
    NothingLater(k, Following(d, h.parts));
    OpenScannedIs(k, cfg, d, ScanAll(k, d), io);
  }

  /**
   * Of a disk the log wrote, with nothing left to flush: the tail is the beginning
   * of a record sent, and it alone decides.
   */
  lemma DurableRefusedIff(k: Codec, cfg: Config, d: Disk, h: History, io: OpenIO, p: iset<Bytes>) returns (c: Bytes)
    requires Lawful(k) && DiskOk(k, d, h) && AllDurable(d) && Within(h, p)
    ensures Open(k, cfg, d, io).1 == Corrupted <==> io.readable && EmbeddedTail(k, d)
    ensures d != [] && Tail(k, d) != [] ==> c in p && Tail(k, d) < k.enc(|Commands(k, d)| + 1, c)
    ensures EmbeddedTail(k, d) ==> c in p && Embeds(k, |Commands(k, d)| + 1, c)
  {
    hide LastOk, InnersOk, Commands, Embeds, HasLater;
    var h' := Settle(k, d, h, p);
    c := h'.inflight;
    if d != [] {
      IncompleteRefusedIff(k, cfg, d, h', io);
      DiskHolds(k, d, h');
      NothingLater(k, Following(d, h'.parts));
      EmbedsIff(k, Following(d, h'.parts), c);
    }
  }

  /**
   * After any run and any crash, opening refuses the log if and only if the tail
   * of its last file contains an intact record with a later index. That tail is
   * the beginning of the record of a command sent, at the very next index.
   */
  lemma CrashRefusedIff(k: Codec, events: seq<Event>, fates: seq<Fate>, cfg: Config, io: OpenIO)
    requires Lawful(k) && Disciplined(k, INITIAL, events)
    requires CrashAllowed(Run(k, INITIAL, events).disk, fates)
    ensures var d := AfterCrash(Run(k, INITIAL, events).disk, fates);
            && (Open(k, cfg, d, io).1 == Corrupted <==> io.readable && EmbeddedTail(k, d))
            && (d != [] && Tail(k, d) != [] ==>
                  exists c :: c in SentIn(events) && Tail(k, d) < k.enc(|Commands(k, d)| + 1, c))
  {
    hide StateOk, DiskOk, LiveOk, Within, Open, AllDurable, AfterCrash, EmbeddedTail, Commands, Disciplined, Run;
    var h := RunIsSound(k, events);
    var s, p := Run(k, INITIAL, events), Those(SentIn(events));
    StateParts(k, s, h);
    var h' := CrashKeeps(k, s.disk, h, fates, p);
    var c := DurableRefusedIff(k, cfg, AfterCrash(s.disk, fates), h', io, p);
  }

  /**
   * So no crash is taken for corruption, unless the command at the very next
   * index, whose record the crash cut short, embeds a later record.
   */
  lemma CrashIsNeverCorruption(k: Codec, events: seq<Event>, fates: seq<Fate>, cfg: Config, io: OpenIO)
    requires Lawful(k) && Disciplined(k, INITIAL, events)
    requires CrashAllowed(Run(k, INITIAL, events).disk, fates)
    ensures var d := AfterCrash(Run(k, INITIAL, events).disk, fates);
            Open(k, cfg, d, io).1 == Corrupted ==> exists c :: c in SentIn(events) && Embeds(k, |Commands(k, d)| + 1, c)
  {
    hide StateOk, DiskOk, LiveOk, Within, Open, AllDurable, AfterCrash, EmbeddedTail, Commands, Disciplined, Run,
         Embeds;
    var h := RunIsSound(k, events);
    var s, p := Run(k, INITIAL, events), Those(SentIn(events));
    StateParts(k, s, h);
    var h' := CrashKeeps(k, s.disk, h, fates, p);
    var c := DurableRefusedIff(k, cfg, AfterCrash(s.disk, fates), h', io, p);
  }

  // ---- The exception is real ----

  lemma WholeSurvivor(k: Codec, e: SegmentFile, commands: seq<Bytes>, torn: Bytes, inflight: Bytes)
    requires LastOk(k, e, commands, torn, inflight) && e.file.stale == []
    ensures LastOk(k, Survived(e.first, e.file.data), commands, torn, inflight)
  {
    assert e.file.data[|EncodeAll(k, e.first, commands)|..] == torn;
    LongSurvivor(k, e.first, commands, torn, inflight, e.file.data);
  }

  /** A crash that takes away none of the last file. */
  ghost predicate KeepsLast(d: Disk, fates: seq<Fate>) {
    CrashAllowed(d, fates) && d != [] && Last(fates) == Kept(Last(d).file.data)
  }

  lemma WholeDiskSurvives(k: Codec, d: Disk, h: History, fates: seq<Fate>)
    requires Lawful(k) && DiskOk(k, d, h) && KeepsLast(d, fates) && Last(d).file.stale == []
    ensures var d' := AfterCrash(d, fates);
            && DiskOk(k, d', h) && |d'| == |d| && d' != [] && Last(d').file.stale == []
            && Following(d', h.parts) == Following(d, h.parts)
  {
    hide InnersOk, EncodeAll, Scan, LastOk;
    var e := Last(d);
    CrashIs(k, d, h, fates);
    WholeSurvivor(k, e, Last(h.parts), h.torn, h.inflight);
    ReplaceLast(k, d, h, Survived(e.first, e.file.data), Last(h.parts), h.torn, h.inflight);
    LastUpdated(d, Survived(e.first, e.file.data));
    assert Amend(h, Last(h.parts), h.torn, h.inflight) == h;
  }

  lemma TornDiskRefusedIff(k: Codec, cfg: Config, d: Disk, h: History, fates: seq<Fate>)
    requires Lawful(k) && DiskOk(k, d, h) && KeepsLast(d, fates) && Last(d).file.stale == [] && Incomplete(k, d, h)
    ensures Open(k, cfg, AfterCrash(d, fates), LogReopening.ALL_WELL).1 == Corrupted
            <==> HasLater(k, h.torn, Following(d, h.parts))
  {
    hide InnersOk, EncodeAll, Scan, ScanAll, Acceptable, Reading, LastOk;
    var d' := AfterCrash(d, fates);
    WholeDiskSurvives(k, d, h, fates);
    AcceptableIff(k, d', h);
    OpenScannedIs(k, cfg, d', ScanAll(k, d'), LogReopening.ALL_WELL);
  }

  lemma ShortWriteRefusedIff(
    k: Codec, cfg: Config, l: Live, h: History, command: Bytes, io: AppendIO, n: nat, fates: seq<Fate>)
    requires Lawful(k) && LiveOk(k, l, h) && Shaped(l) && !l.log.failed && Storable(l.log.lastIndex + 1, command)
    requires io.write == Short(n) && n < |k.enc(l.log.lastIndex + 1, command)|
    requires KeepsLast(WriteRecord(l, l.log.lastIndex + 1, k.enc(l.log.lastIndex + 1, command), io).0.disk, fates)
    ensures var record := k.enc(l.log.lastIndex + 1, command);
            var d := WriteRecord(l, l.log.lastIndex + 1, record, io).0.disk;
            Open(k, cfg, AfterCrash(d, fates), LogReopening.ALL_WELL).1 == Corrupted
            <==> HasLater(k, record[..n], l.log.lastIndex + 1)
  {
    hide KeepsLast, CrashAllowed, AfterCrash, Open, InnersOk, EncodeAll, WriteRecord;
    LiveIsShaped(k, l, h);
    var index := l.log.lastIndex + 1;
    var record := k.enc(index, command);
    var l' := WriteRecord(l, index, record, io).0;
    WriteRecordHasEffect(l, index, record, io);
    ShortWriteKeeps(k, l, h, command, record[..n], l');
    TornDiskRefusedIff(k, cfg, l'.disk, Amend(h, Last(h.parts), record[..n], command), fates);
  }

  /**
   * Of a healthy log, let a write put down only the first n bytes of a record, in
   * a new segment or not, and let the machine stop with all of them on disk. The
   * log then refuses to open exactly when those bytes contain an intact record
   * with a later index.
   */
  lemma TornWriteRefusedIff(
    k: Codec, cfg: Config, l: Live, h: History, command: Bytes, io: AppendIO, n: nat, fates: seq<Fate>)
    requires Lawful(k) && LiveOk(k, l, h) && Shaped(l) && !l.log.failed && !l.log.closed
    requires Storable(l.log.lastIndex + 1, command)
    requires io.write == Short(n) && n < |k.enc(l.log.lastIndex + 1, command)|
    requires MustRotate(l, k.enc(l.log.lastIndex + 1, command)) ==> io.flush && io.close && io.create.Created?
    requires KeepsLast(Append(k, l, command, io).0.disk, fates)
    ensures Open(k, cfg, AfterCrash(Append(k, l, command, io).0.disk, fates), LogReopening.ALL_WELL).1 == Corrupted
            <==> HasLater(k, k.enc(l.log.lastIndex + 1, command)[..n], l.log.lastIndex + 1)
  {
    hide KeepsLast, CrashAllowed, AfterCrash, Open, LiveOk, Rotate, WriteRecord, HasLater;
    var l1, h1 := l, h;
    if MustRotate(l, k.enc(l.log.lastIndex + 1, command)) {
      WithinEverything(h.parts);
      LiveIsShaped(k, l, h);
      RotateGives(k, l, h, io, BeforeRotation(l, io));
      h1 := RotatedKeeps(k, l, h, io, Everything());
      l1 := Rotate(l, l.log.lastIndex + 1, io).0;
    }
    ShortWriteRefusedIff(k, cfg, l1, h1, command, io, n, fates);
  }

  /** A command that holds the encoding of the next record embeds it, whatever the checksum. */
  lemma NextRecordEmbeds(crc: Crc, index: nat)
    requires index + 1 < INDEX_LIMIT
    ensures Embeds(RecordCodec(crc), index, Encode(crc, index + 1, []) + [0])
  {
    var inner := Encode(crc, index + 1, []);
    var command := inner + [0];
    var e := Encode(crc, index, command);
    assert e[16..] == command;
    var tail := Init(e);
    assert tail[16..] == inner;
    DecodeEncode(crc, index + 1, [], inner);
    assert LaterAt(RecordCodec(crc), tail, index, 16);
  }

  /** The crash that takes nothing away. */
  function KeepAll(d: Disk): (fates: seq<Fate>)
    ensures |fates| == |d|
  {
    if d == [] then [] else KeepAll(Init(d)) + [Kept(Last(d).file.data)]
  }

  lemma {:induction false} KeepAllAllowed(d: Disk)
    requires forall i :: 0 <= i < |d| ==> d[i].file.durable <= |d[i].file.data|
    ensures CrashAllowed(d, KeepAll(d))
    ensures d != [] ==> KeepsLast(d, KeepAll(d))
    decreases |d|
  {
    if d != [] {
      assert forall i :: 0 <= i < |d| - 1 ==> Init(d)[i] == d[i];
      KeepAllAllowed(Init(d));
      assert Init(KeepAll(d)) == KeepAll(Init(d));
    }
  }

  lemma {:induction false} InnersFit(k: Codec, d: Disk, parts: Parts)
    requires InnersOk(k, d, parts)
    ensures forall i :: 0 <= i < |d| ==> d[i].file.durable <= |d[i].file.data|
    decreases |d|
  {
    if d != [] {
      InnersFit(k, Init(d), Init(parts));
      assert forall i :: 0 <= i < |d| - 1 ==> d[i] == Init(d)[i];
    }
  }

  /** Of a disk the log wrote, a crash may always keep everything. */
  lemma MayKeepAll(k: Codec, d: Disk, h: History)
    requires DiskOk(k, d, h)
    ensures CrashAllowed(d, KeepAll(d)) && (d != [] ==> KeepsLast(d, KeepAll(d)))
  {
    hide EncodeAll, CrashAllowed, KeepsLast;
    if d != [] {
      InnersFit(k, Init(d), Init(h.parts));
      assert forall i :: 0 <= i < |d| - 1 ==> d[i] == Init(d)[i];
    }
    KeepAllAllowed(d);
  }

  /** The command that holds the record after its own, and one more byte. */
  function Embedding(crc: Crc, index: nat): Bytes {
    Encode(crc, index + 1, []) + [0]
  }

  /** A write that puts down n bytes. */
  function ShortBy(n: nat): AppendIO {
    AppendIO(true, true, Created, Short(n), true)
  }

  /** A command that embeds a record, a write one byte short and a crash that keeps it all make the log unopenable. */
  lemma EmbeddingIsRefused(k: Codec, cfg: Config, l: Live, h: History, command: Bytes)
    requires Lawful(k) && LiveOk(k, l, h) && Shaped(l) && !l.log.failed && !l.log.closed
    requires Storable(l.log.lastIndex + 1, command) && Embeds(k, l.log.lastIndex + 1, command)
    ensures var io := ShortBy(RECORD_OVERHEAD + |command| - 1);
            var d := Append(k, l, command, io).0.disk;
            CrashAllowed(d, KeepAll(d)) && Open(k, cfg, AfterCrash(d, KeepAll(d)), LogReopening.ALL_WELL).1 == Corrupted
  {
    hide LiveOk, DiskOk, KeepsLast, CrashAllowed, AfterCrash, Open, Append, HasLater, KeepAll;
    var index := l.log.lastIndex + 1;
    var record := k.enc(index, command);
    var io := ShortBy(|record| - 1);
    WithinEverything(h.parts);
    var h' := AppendKeeps(k, l, h, command, io, Everything());
    var d := Append(k, l, command, io).0.disk;
    LiveHasDisk(k, Append(k, l, command, io).0, h');
    MayKeepAll(k, d, h');
    TornWriteRefusedIff(k, cfg, l, h, command, io, |record| - 1, KeepAll(d));
    assert record[..|record| - 1] == Init(record);
  }

  lemma LiveHasDisk(k: Codec, l: Live, h: History)
    requires LiveOk(k, l, h)
    ensures DiskOk(k, l.disk, h) && l.disk != []
  {
  }

  /** So every healthy log can be made unopenable. */
  lemma EmbeddedRecordIsRefused(crc: Crc, cfg: Config, l: Live, h: History)
    requires LiveOk(RecordCodec(crc), l, h) && Shaped(l) && !l.log.failed && !l.log.closed
    requires l.log.lastIndex + 2 < INDEX_LIMIT
    ensures Lawful(RecordCodec(crc))
    ensures var k, command := RecordCodec(crc), Embedding(crc, l.log.lastIndex + 1);
            var d := Append(k, l, command, ShortBy(RECORD_OVERHEAD + |command| - 1)).0.disk;
            CrashAllowed(d, KeepAll(d)) && Open(k, cfg, AfterCrash(d, KeepAll(d)), LogReopening.ALL_WELL).1 == Corrupted
  {
    hide LiveOk, CrashAllowed, AfterCrash, Open, Append, KeepAll, Decode;
    RecordCodecIsLawful(crc);
    NextRecordEmbeds(crc, l.log.lastIndex + 1);
    EmbeddingIsRefused(RecordCodec(crc), cfg, l, h, Embedding(crc, l.log.lastIndex + 1));
  }

  /** For one, a new log. */
  lemma RefusedRun(crc: Crc, cfg: Config)
    ensures Lawful(RecordCodec(crc))
    ensures var k, command := RecordCodec(crc), Embedding(crc, 1);
            var io := ShortBy(RECORD_OVERHEAD + |command| - 1);
            var events := [OpenLog(cfg, LogReopening.ALL_WELL), Operate(AppendCommand(command, io))];
            && Disciplined(k, INITIAL, events)
            && var d := Run(k, INITIAL, events).disk;
               && CrashAllowed(d, KeepAll(d))
               && Open(k, cfg, AfterCrash(d, KeepAll(d)), LogReopening.ALL_WELL).1 == Corrupted
  {
    hide LiveOk, CrashAllowed, AfterCrash, Append, Encode, Decode, AllDurable, Open, Run, Disciplined, KeepAll;
    var k, command := RecordCodec(crc), Embedding(crc, 1);
    RecordCodecIsLawful(crc);
    var io := ShortBy(RECORD_OVERHEAD + |command| - 1);
    var l := FirstOpening(k, cfg);
    FirstSegmentOk(k, cfg, true);
    EmbeddedRecordIsRefused(crc, cfg, l, History([[]], [], []));
    RunOfTwo(k, INITIAL, OpenLog(cfg, LogReopening.ALL_WELL), Operate(AppendCommand(command, io)));
  }

  /** What the first opening of a log makes. */
  lemma FirstOpening(k: Codec, cfg: Config) returns (l: Live)
    requires Lawful(k)
    ensures l == Live([SegmentFile(1, EMPTY_FILE, true)], NewSession(cfg, [Segment(1, 0)], 0, 0))
    ensures Open(k, cfg, [], LogReopening.ALL_WELL) == (l.disk, Opened(l.log)) && AllDurable(l.disk) && Shaped(l)
  {
    var none: Disk := [];
    CreateAppends(k, none, [], Created);
    l := Live(none + [SegmentFile(1, EMPTY_FILE, true)], NewSession(cfg, [Segment(1, 0)], 0, 0));
    assert Init(l.disk) == [];
  }

  // ---- Which appends a crash can turn into a refusal ----

  /** With the always policy a crash can shorten only a record that was not acknowledged. */
  lemma AlwaysCrash(k: Codec, l: Live, h: History, fates: seq<Fate>) returns (h': History)
    requires Lawful(k) && LiveOk(k, l, h) && l.log.cfg.fsync == Always && CrashAllowed(l.disk, fates)
    ensures var c := AfterCrash(l.disk, fates);
            && DiskOk(k, c, h') && h'.torn <= h.torn
            && (h'.torn != [] ==>
                  && |l.disk| == |h.parts| && h'.inflight == h.inflight
                  && Following(c, h'.parts) == Following(l.disk, h.parts))
  {
    hide InnersOk, SegmentsFor;
    var d, e, commands := l.disk, Last(l.disk), Last(h.parts);
    CrashIs(k, d, h, fates);
    if Last(fates).Lost? {
      h' := History(Init(h.parts), [], []);
      InnersAreOk(k, Init(d), Init(h.parts));
      assert AfterCrash(d, fates) == Init(d);
    } else {
      var q, size := Last(fates).data, |EncodeAll(k, e.first, commands)|;
      LongSurvivor(k, e.first, commands, h.torn, h.inflight, q);
      h' := Amend(h, commands, q[size..], h.inflight);
      LastUpdated(d, Survived(e.first, q));
      ReplaceLast(k, d, h, Survived(e.first, q), commands, q[size..], h.inflight);
    }
  }

  lemma AppendRefused(k: Codec, cfg: Config, l: Live, h: History, command: Bytes, io: AppendIO, fates: seq<Fate>)
    requires Lawful(k) && LiveOk(k, l, h) && Shaped(l) && !l.log.failed && l.log.cfg.fsync == Always
    requires Storable(l.log.lastIndex + 1, command) && CrashAllowed(Append(k, l, command, io).0.disk, fates)
    requires Open(k, cfg, AfterCrash(Append(k, l, command, io).0.disk, fates), LogReopening.ALL_WELL).1 == Corrupted
    ensures Embeds(k, l.log.lastIndex + 1, command)
  {
    hide LiveOk, DiskOk, Append, AfterCrash, HasLater, EmbeddedTail, AllDurable, Embeds;
    WithinEverything(h.parts);
    var l' := Append(k, l, command, io).0;
    var h1 := AppendKeeps(k, l, h, command, io, Everything());
    ConfigKept(k, l, AppendCommand(command, io));
    AppendIsPerformed(k, l, AppendCommand(command, io));
    var h2 := AlwaysCrash(k, l', h1, fates);
    var c := AfterCrash(l'.disk, fates);
    SurvivorsAreDurable(l'.disk, fates);
    RefusedTail(k, cfg, c, h2);
    EmbedsIff(k, l.log.lastIndex + 1, command);
  }

  /** Of a disk that is refused, the incomplete record contains a later one. */
  lemma RefusedTail(k: Codec, cfg: Config, c: Disk, h: History)
    requires Lawful(k) && DiskOk(k, c, h) && AllDurable(c) && Open(k, cfg, c, LogReopening.ALL_WELL).1 == Corrupted
    ensures h.torn != [] && |c| == |h.parts| && h.torn < k.enc(Following(c, h.parts), h.inflight)
    ensures HasLater(k, h.torn, Following(c, h.parts))
  {
    hide InnersOk, LastOk, HasLater, EmbeddedTail;
    WithinAll(h);
    var h' := Settle(k, c, h, Everything());
    if c != [] {
      IncompleteRefusedIff(k, cfg, c, h', LogReopening.ALL_WELL);
      DiskHolds(k, c, h');
      NothingLater(k, Following(c, h'.parts));
    }
  }

  /**
   * Of a healthy log with the always policy, some outcome of the next append and
   * some crash lead to a log that refuses to open if and only if its command
   * embeds a later record at the index it would get.
   */
  lemma AppendRefusedIff(k: Codec, cfg: Config, l: Live, h: History, command: Bytes)
    requires Lawful(k) && LiveOk(k, l, h) && Shaped(l) && !l.log.failed && !l.log.closed && l.log.cfg.fsync == Always
    requires Storable(l.log.lastIndex + 1, command)
    ensures Embeds(k, l.log.lastIndex + 1, command) <==>
            exists io, fates ::
              && CrashAllowed(Append(k, l, command, io).0.disk, fates)
              && Open(k, cfg, AfterCrash(Append(k, l, command, io).0.disk, fates), LogReopening.ALL_WELL).1 == Corrupted
  {
    hide LiveOk, Append, AfterCrash, Open, Embeds, KeepAll;
    if Embeds(k, l.log.lastIndex + 1, command) {
      EmbeddingIsRefused(k, cfg, l, h, command);
    }
    forall io, fates |
      && CrashAllowed(Append(k, l, command, io).0.disk, fates)
      && Open(k, cfg, AfterCrash(Append(k, l, command, io).0.disk, fates), LogReopening.ALL_WELL).1 == Corrupted
      ensures Embeds(k, l.log.lastIndex + 1, command)
    {
      AppendRefused(k, cfg, l, h, command, io, fates);
    }
  }
}
