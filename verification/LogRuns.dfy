/**
 * Whole runs: any interleaving of appends, ticks, rotations, closes, failed
 * system calls, machine crashes and reopenings.
 */
module LogRuns {
  import opened ByteStrings
  import opened Options
  import opened Sequences
  import opened Codecs
  import opened SegmentScan
  import opened Disks
  import opened LogSpec
  import opened LogInvariant
  import opened LogRecovery
  import opened LogDurability

  /**
   * What a run must respect: a log that opens has nothing left to flush, as it
   * has after a machine crash, a clean close or a repair, and indexes stay below
   * 2^64. Attempts to open that fail may happen at any time. Module LogKills
   * shows what goes wrong otherwise.
   */
  ghost predicate Allowed(k: Codec, s: State, e: Event)
    requires Lawful(k)
  {
    match e
    case OpenLog(cfg, io) =>
      s.log.None? && Open(k, cfg, s.disk, io).1.Opened? ==> AllDurable(Open(k, cfg, s.disk, io).0)
    case Operate(op) => op.AppendCommand? && s.log.Some? ==> s.log.value.lastIndex + 1 < INDEX_LIMIT
    case _ => true
  }

  ghost predicate Disciplined(k: Codec, s: State, events: seq<Event>)
    requires Lawful(k) && Sane(s)
    decreases |events|
  {
    events != [] ==> Allowed(k, s, events[0]) && Disciplined(k, Next(k, s, events[0]), events[1..])
  }

  /** The commands sent to the log, whatever became of them, in order. */
  function SentIn(events: seq<Event>): seq<Bytes>
    decreases |events|
  {
    if events == [] then [] else SentBy(events[0]) + SentIn(events[1..])
  }

  function SentBy(e: Event): seq<Bytes> {
    if e.Operate? then Sends(e.op) else []
  }

  /** They are all in p. */
  ghost predicate All(commands: seq<Bytes>, p: iset<Bytes>) {
    forall c :: c in commands ==> c in p
  }

  ghost function Those(commands: seq<Bytes>): iset<Bytes> {
    iset c | c in commands
  }

  /** The invariant, for a disk that holds only commands of p. */
  ghost predicate Sound(k: Codec, s: State, p: iset<Bytes>) {
    exists h :: StateOk(k, s, h) && Within(h, p)
  }

  lemma InitialIsSound(k: Codec, p: iset<Bytes>)
    ensures Sound(k, INITIAL, p)
  {
    var h := History([], [], []);
    assert StateOk(k, INITIAL, h) && Within(h, p);
  }

  // ---- One event ----

  lemma LiveIsState(k: Codec, l: Live, h: History)
    requires LiveOk(k, l, h)
    ensures StateOk(k, State(l.disk, Some(l.log)), h)
  {
  }

  lemma StateParts(k: Codec, s: State, h: History)
    requires StateOk(k, s, h)
    ensures DiskOk(k, s.disk, h)
    ensures s.log.Some? ==> LiveOk(k, Live(s.disk, s.log.value), h)
  {
  }

  /** Every event keeps the invariant: each file is the records of its segment, each segment continues the last. */
  lemma NextKeeps(k: Codec, s: State, h: History, e: Event, p: iset<Bytes>) returns (h': History)
    requires Lawful(k) && Sane(s) && StateOk(k, s, h) && Within(h, p) && Allowed(k, s, e) && All(SentBy(e), p)
    ensures StateOk(k, Next(k, s, e), h') && Within(h', p)
  {
    hide LiveOk, DiskOk, Within, Open, Perform, AfterCrash, AllDurable;
    h' := h;
    match e
    case Crash(fates) =>
      if CrashAllowed(s.disk, fates) {
        h' := CrashKeeps(k, s.disk, h, fates, p);
      }
    case Exit =>
    case OpenLog(cfg, io) =>
      if s.log.None? {
        h' := OpenKeeps(k, cfg, s.disk, h, io, p);
      }
    case Operate(op) =>
      if s.log.Some? {
        assert op.AppendCommand? ==> op.command in Sends(op);
        h' := PerformKeeps(k, Live(s.disk, s.log.value), h, op, p);
        LiveIsState(k, Perform(k, Live(s.disk, s.log.value), op), h');
      }
  }

  /** No event takes away a command that a completed fsync covers, and none adds a command but the one it sends. */
  lemma NextSafe(k: Codec, s: State, h: History, e: Event, p: iset<Bytes>)
    requires Lawful(k) && Sane(s) && StateOk(k, s, h) && Within(h, p) && Allowed(k, s, e)
    ensures var d := Next(k, s, e).disk;
            && SafeCommands(k, s.disk) <= SafeCommands(k, d)
            && (Commands(k, d) <= Commands(k, s.disk) || Commands(k, d) == Commands(k, s.disk) + SentBy(e))
  {
    hide LiveOk, DiskOk, Within, Open, Perform, AfterCrash, CrashAllowed, AllDurable, SafeCommands, Commands, Extends;
    match e
    case Crash(fates) =>
      if CrashAllowed(s.disk, fates) {
        CrashCommands(k, s.disk, h, fates);
      }
    case Exit =>
    case OpenLog(cfg, io) =>
      if s.log.None? {
        OpenChangesNoCommand(k, cfg, s.disk, io);
      }
    case Operate(op) =>
      if s.log.Some? {
        var l := Live(s.disk, s.log.value);
        PerformExtends(k, l, h, op, p);
        ExtendsCommands(k, l.disk, Perform(k, l, op).disk);
        PerformCommands(k, l, h, op, p);
      }
  }

  // ---- Runs ----

  lemma {:induction false} RunKeeps(k: Codec, s: State, events: seq<Event>, p: iset<Bytes>)
    requires Lawful(k) && Sane(s) && Sound(k, s, p) && Disciplined(k, s, events) && All(SentIn(events), p)
    ensures Sound(k, Run(k, s, events), p)
    ensures SafeCommands(k, s.disk) <= SafeCommands(k, Run(k, s, events).disk)
    decreases |events|
  {
    hide StateOk, Within, Next, Allowed, SafeCommands, SentBy;
    if events != [] {
      var h :| StateOk(k, s, h) && Within(h, p);
      NextSafe(k, s, h, events[0], p);
      var h' := NextKeeps(k, s, h, events[0], p);
      assert Sound(k, Next(k, s, events[0]), p);
      RunKeeps(k, Next(k, s, events[0]), events[1..], p);
    }
  }

  lemma RunOfTwo(k: Codec, s: State, a: Event, b: Event)
    requires Lawful(k) && Sane(s)
    ensures Run(k, s, [a, b]) == Next(k, Next(k, s, a), b)
    ensures Disciplined(k, s, [a, b]) <==> Allowed(k, s, a) && Allowed(k, Next(k, s, a), b)
  {
    hide Next, Allowed;
    var s1 := Next(k, s, a);
    assert [a, b][1..] == [b] && [b][1..] == [];
    var s2 := Next(k, s1, b);
    assert Run(k, s2, []) == s2 && Disciplined(k, s2, []);
    assert Run(k, s1, [b]) == s2;
    assert Disciplined(k, s1, [b]) <==> Allowed(k, s1, b);
  }

  /** The invariant at the end of a run of a new log. */
  lemma RunIsSound(k: Codec, events: seq<Event>) returns (h: History)
    requires Lawful(k) && Disciplined(k, INITIAL, events)
    ensures StateOk(k, Run(k, INITIAL, events), h) && Within(h, Those(SentIn(events)))
  {
    hide StateOk, Within;
    var p := Those(SentIn(events));
    InitialIsSound(k, p);
    RunKeeps(k, INITIAL, events, p);
    h :| StateOk(k, Run(k, INITIAL, events), h) && Within(h, p);
  }

  /** Whatever happens, a command covered by a completed fsync is never lost, changed or reordered. */
  lemma SyncedIsForever(k: Codec, before: seq<Event>, after: seq<Event>)
    requires Lawful(k) && Disciplined(k, INITIAL, before)
    requires Disciplined(k, Run(k, INITIAL, before), after)
    ensures var s := Run(k, INITIAL, before);
            SafeCommands(k, s.disk) <= SafeCommands(k, Run(k, s, after).disk)
  {
    hide SafeCommands, Disciplined;
    var p := Everything();
    InitialIsSound(k, p);
    RunKeeps(k, INITIAL, before, p);
    RunKeeps(k, Run(k, INITIAL, before), after, p);
  }

  /** With the always policy, an acknowledged command is at its index in every later state of every run. */
  lemma AcknowledgedIsForever(k: Codec, before: seq<Event>, command: Bytes, io: AppendIO, after: seq<Event>)
    requires Lawful(k) && Disciplined(k, INITIAL, before)
    requires var s := Run(k, INITIAL, before);
             && s.log.Some? && s.log.value.cfg.fsync == Always
             && Append(k, Live(s.disk, s.log.value), command, io).1.Acked?
             && Disciplined(k, s, [Operate(AppendCommand(command, io))] + after)
    ensures var s := Run(k, INITIAL, before);
            var index := Append(k, Live(s.disk, s.log.value), command, io).1.index;
            var safe := SafeCommands(k, Run(k, s, [Operate(AppendCommand(command, io))] + after).disk);
            1 <= index <= |safe| && safe[index - 1] == command
  {
    hide StateOk, LiveOk, Within, SafeCommands, Commands, Append;
    var p := Everything();
    var s := Run(k, INITIAL, before);
    var e := Operate(AppendCommand(command, io));
    InitialIsSound(k, p);
    RunKeeps(k, INITIAL, before, p);
    var h :| StateOk(k, s, h) && Within(h, p);
    StateParts(k, s, h);
    assert ([e] + after)[0] == e && ([e] + after)[1..] == after;
    AckedAppends(k, Live(s.disk, s.log.value), h, command, io, p);
    var h' := NextKeeps(k, s, h, e, p);
    assert Sound(k, Next(k, s, e), p);
    RunKeeps(k, Next(k, s, e), after, p);
  }

  // ---- What was sent, and what was acknowledged ----

  /** a is what is left of b after some elements were dropped. */
  ghost predicate Subsequence(a: seq<Bytes>, b: seq<Bytes>)
    decreases |b|
  {
    a == [] || (b != [] && ((Last(a) == Last(b) && Subsequence(Init(a), Init(b))) || Subsequence(a, Init(b))))
  }

  lemma {:induction false} SubsequencePrefix(a': seq<Bytes>, a: seq<Bytes>, b: seq<Bytes>)
    requires a' <= a && Subsequence(a, b)
    ensures Subsequence(a', b)
    decreases |b|
  {
    if a' != [] && a' != a {
      if Last(a) == Last(b) && Subsequence(Init(a), Init(b)) {
        SubsequencePrefix(a', Init(a), Init(b));
      } else {
        SubsequencePrefix(a', a, Init(b));
      }
    }
  }

  /** One more was sent, and stored or not. */
  lemma SubsequenceGrows(a: seq<Bytes>, b: seq<Bytes>, sent: seq<Bytes>)
    requires Subsequence(a, b) && |sent| <= 1
    ensures Subsequence(a, b + sent) && Subsequence(a + sent, b + sent)
  {
    if sent == [] {
      assert a + sent == a && b + sent == b;
    } else {
      assert Init(b + sent) == b && Init(a + sent) == a;
    }
  }

  /** What is on disk was sent, in that order, each command as often as it was sent at most. */
  lemma {:induction false} StoredWasSent(k: Codec, s: State, events: seq<Event>, sent: seq<Bytes>, p: iset<Bytes>)
    requires Lawful(k) && Sane(s) && Sound(k, s, p) && Disciplined(k, s, events) && All(SentIn(events), p)
    requires Subsequence(Commands(k, s.disk), sent)
    ensures Subsequence(Commands(k, Run(k, s, events).disk), sent + SentIn(events))
    decreases |events|
  {
    hide StateOk, Within, Next, Allowed, Commands, SafeCommands, Subsequence;
    if events == [] {
      assert sent + SentIn(events) == sent;
    } else {
      var e, s' := events[0], Next(k, s, events[0]);
      var h :| StateOk(k, s, h) && Within(h, p);
      NextSafe(k, s, h, e, p);
      var h' := NextKeeps(k, s, h, e, p);
      assert Sound(k, s', p);
      SubsequenceGrows(Commands(k, s.disk), sent, SentBy(e));
      if Commands(k, s'.disk) <= Commands(k, s.disk) {
        SubsequencePrefix(Commands(k, s'.disk), Commands(k, s.disk), sent + SentBy(e));
      }
      StoredWasSent(k, s', events[1..], sent + SentBy(e), p);
      assert sent + SentBy(e) + SentIn(events[1..]) == sent + SentIn(events);
    }
  }

  /**
   * What the open log stands for after one more event: what its opening found, and
   * every command acknowledged since.
   */
  ghost function Recount(k: Codec, s: State, e: Event, ledger: seq<Bytes>): seq<Bytes>
    requires Lawful(k) && Sane(s)
  {
    match e
    case OpenLog(cfg, io) => if s.log.Some? then ledger else Commands(k, s.disk)
    case Operate(op) => if s.log.Some? then ledger + Acks(k, Live(s.disk, s.log.value), op) else ledger
    case _ => ledger
  }

  ghost function Ledger(k: Codec, s: State, events: seq<Event>, ledger: seq<Bytes>): seq<Bytes>
    requires Lawful(k) && Sane(s)
    decreases |events|
  {
    if events == [] then ledger
    else Ledger(k, Next(k, s, events[0]), events[1..], Recount(k, s, events[0], ledger))
  }

  /** The ledger is what the last index counts. */
  ghost predicate Counts(k: Codec, s: State, ledger: seq<Bytes>)
    requires Lawful(k)
  {
    s.log.Some? ==>
      var commands, last := Commands(k, s.disk), s.log.value.lastIndex;
      0 <= last <= |commands| <= last + 1 && commands[..last] == ledger
  }

  lemma LiveCounts(k: Codec, l: Live, h: History)
    requires Lawful(k) && LiveOk(k, l, h)
    ensures 0 <= l.log.lastIndex <= |Commands(k, l.disk)| <= l.log.lastIndex + 1
  {
    hide LiveOk, Commands;
    LastIndexIsNat(k, l, h);
    LastIndexCounts(k, l, h);
  }

  lemma NextCounts(k: Codec, s: State, h: History, e: Event, ledger: seq<Bytes>, p: iset<Bytes>)
    requires Lawful(k) && Sane(s) && StateOk(k, s, h) && Within(h, p) && Allowed(k, s, e) && All(SentBy(e), p)
    requires Counts(k, s, ledger)
    ensures Counts(k, Next(k, s, e), Recount(k, s, e, ledger))
  {
    hide LiveOk, DiskOk, Within, Open, Perform, Commands, AllDurable, Acks;
    match e
    case Crash(_) =>
    case Exit =>
    case OpenLog(cfg, io) =>
      if s.log.None? {
        var (disk, result) := Open(k, cfg, s.disk, io);
        OpenChangesNoCommand(k, cfg, s.disk, io);
        var h' := OpenKeeps(k, cfg, s.disk, h, io, p);
        if result.Opened? {
          OpenedCounts(k, cfg, s.disk, h, io, p);
        }
      }
    case Operate(op) =>
      if s.log.Some? {
        var l := Live(s.disk, s.log.value);
        assert op.AppendCommand? ==> op.command in Sends(op);
        PerformCounts(k, l, h, op, p);
        var h' := PerformKeeps(k, l, h, op, p);
        LiveCounts(k, Perform(k, l, op), h');
      }
  }

  /** A log that opens with nothing left to flush counts exactly the commands on its disk. */
  lemma OpenedCounts(k: Codec, cfg: Config, d: Disk, h: History, io: OpenIO, p: iset<Bytes>)
    requires Lawful(k) && DiskOk(k, d, h) && Within(h, p)
    requires Open(k, cfg, d, io).1.Opened? && AllDurable(Open(k, cfg, d, io).0)
    ensures Open(k, cfg, d, io).1.log.lastIndex == |Commands(k, Open(k, cfg, d, io).0)|
  {
    hide LiveOk, DiskOk, Within, Commands, AllDurable;
    var (disk, result) := Open(k, cfg, d, io);
    var h' := OpenKeeps(k, cfg, d, h, io, p);
    OpenedIsHealthy(k, cfg, d, io);
    LastIndexCounts(k, Live(disk, result.log), h');
  }

  lemma OpenedIsHealthy(k: Codec, cfg: Config, d: Disk, io: OpenIO)
    requires Lawful(k) && Open(k, cfg, d, io).1.Opened?
    ensures !Open(k, cfg, d, io).1.log.failed
  {
  }

  lemma {:induction false} RunCounts(k: Codec, s: State, events: seq<Event>, ledger: seq<Bytes>, p: iset<Bytes>)
    requires Lawful(k) && Sane(s) && Sound(k, s, p) && Disciplined(k, s, events) && All(SentIn(events), p)
    requires Counts(k, s, ledger)
    ensures Counts(k, Run(k, s, events), Ledger(k, s, events, ledger))
    decreases |events|
  {
    hide StateOk, Within, Next, Allowed, Counts, Recount;
    if events != [] {
      var h :| StateOk(k, s, h) && Within(h, p);
      NextCounts(k, s, h, events[0], ledger, p);
      var h' := NextKeeps(k, s, h, events[0], p);
      assert Sound(k, Next(k, s, events[0]), p);
      RunCounts(k, Next(k, s, events[0]), events[1..], Recount(k, s, events[0], ledger), p);
    }
  }

  /** What the ledger held before an event that flushed everything is never lost. */
  lemma FlushedIsForever(k: Codec, before: seq<Event>, e: Event, after: seq<Event>)
    requires Lawful(k) && Disciplined(k, INITIAL, before) && Run(k, INITIAL, before).log.Some?
    requires var s := Run(k, INITIAL, before);
             && Allowed(k, s, e) && Disciplined(k, Next(k, s, e), after)
             && SafeCommands(k, Next(k, s, e).disk) == Commands(k, s.disk)
    ensures var s := Run(k, INITIAL, before);
            Ledger(k, INITIAL, before, []) <= SafeCommands(k, Run(k, Next(k, s, e), after).disk)
  {
    hide StateOk, Within, Next, Allowed, SafeCommands, Commands, Run, Ledger, Disciplined;
    var s, p := Run(k, INITIAL, before), Everything();
    InitialIsSound(k, p);
    NothingAtFirst(k);
    RunKeeps(k, INITIAL, before, p);
    RunCounts(k, INITIAL, before, [], p);
    var h :| StateOk(k, s, h) && Within(h, p);
    var h' := NextKeeps(k, s, h, e, p);
    assert Sound(k, Next(k, s, e), p);
    RunKeeps(k, Next(k, s, e), after, p);
  }

  /** Whatever the policy, what a log has acknowledged before a successful tick is never lost. */
  lemma TickedIsForever(k: Codec, before: seq<Event>, after: seq<Event>)
    requires Lawful(k) && Disciplined(k, INITIAL, before)
    requires var s := Run(k, INITIAL, before);
             && s.log.Some? && !s.log.value.failed && !s.log.value.closed
             && Disciplined(k, Next(k, s, Operate(TickSyncer(true))), after)
    ensures var s := Run(k, INITIAL, before);
            Ledger(k, INITIAL, before, []) <= SafeCommands(k, Run(k, Next(k, s, Operate(TickSyncer(true))), after).disk)
  {
    hide StateOk, LiveOk, SafeCommands, Commands, Run, Ledger, Disciplined, Tick;
    var s := Run(k, INITIAL, before);
    var h := RunIsSound(k, before);
    StateParts(k, s, h);
    TickFlushes(k, Live(s.disk, s.log.value), h);
    FlushedIsForever(k, before, Operate(TickSyncer(true)), after);
  }

  /** Nor is what it has acknowledged before a close whose fsync succeeds. */
  lemma ClosedIsForever(k: Codec, before: seq<Event>, closeOk: bool, after: seq<Event>)
    requires Lawful(k) && Disciplined(k, INITIAL, before)
    requires var s := Run(k, INITIAL, before);
             && s.log.Some? && !s.log.value.failed && s.log.value.closed && !s.log.value.released
             && Disciplined(k, Next(k, s, Operate(FinishClose(true, closeOk))), after)
    ensures var s := Run(k, INITIAL, before);
            Ledger(k, INITIAL, before, [])
            <= SafeCommands(k, Run(k, Next(k, s, Operate(FinishClose(true, closeOk))), after).disk)
  {
    hide StateOk, LiveOk, SafeCommands, Commands, Run, Ledger, Disciplined, CloseFinish;
    var s := Run(k, INITIAL, before);
    var h := RunIsSound(k, before);
    StateParts(k, s, h);
    CloseFlushes(k, Live(s.disk, s.log.value), h, closeOk);
    FlushedIsForever(k, before, Operate(FinishClose(true, closeOk)), after);
  }

  // ---- Crash safety ----

  /**
   * Crash safety. After any run, a crash and an attempt to open the log, however
   * it ends, the commands on disk are a prefix of those written, include every
   * one that a completed fsync covers, and are in order among those sent. The
   * ledger, which is what the log's last opening found and every command it
   * acknowledged since, was on disk up to at most one command that was written
   * and not acknowledged; with the always policy it still is.
   */
  lemma CrashRecovers(k: Codec, events: seq<Event>, fates: seq<Fate>, cfg: Config, io: OpenIO)
    requires Lawful(k) && Disciplined(k, INITIAL, events)
    requires CrashAllowed(Run(k, INITIAL, events).disk, fates)
    ensures var s := Run(k, INITIAL, events);
            var ledger := Ledger(k, INITIAL, events, []);
            var (disk, result) := Open(k, cfg, AfterCrash(s.disk, fates), io);
            && SafeCommands(k, s.disk) <= Commands(k, disk) <= Commands(k, s.disk)
            && Subsequence(Commands(k, disk), SentIn(events))
            && (s.log.Some? ==> ledger <= Commands(k, s.disk) && |Commands(k, s.disk)| <= |ledger| + 1)
            && (s.log.Some? && s.log.value.cfg.fsync == Always ==> ledger <= Commands(k, disk))
            && (result.Opened? ==> result.log.lastIndex == |Commands(k, disk)|)
  {
    hide StateOk, LiveOk, DiskOk, Within, SafeCommands, Commands, Open, Run, Ledger, Disciplined, AllDurable;
    var s, p := Run(k, INITIAL, events), Those(SentIn(events));
    var h := RunIsSound(k, events);
    StateParts(k, s, h);
    CrashCommands(k, s.disk, h, fates);
    OpenChangesNoCommand(k, cfg, AfterCrash(s.disk, fates), io);
    NothingAtFirst(k);
    InitialIsSound(k, p);
    StoredWasSent(k, INITIAL, events, [], p);
    assert [] + SentIn(events) == SentIn(events);
    SubsequencePrefix(Commands(k, AfterCrash(s.disk, fates)), Commands(k, s.disk), SentIn(events));
    RunCounts(k, INITIAL, events, [], p);
    if s.log.Some? {
      LastIndexCounts(k, Live(s.disk, s.log.value), h);
    }
    var h' := CrashKeeps(k, s.disk, h, fates, p);
    if Open(k, cfg, AfterCrash(s.disk, fates), io).1.Opened? {
      OpenStaysDurable(k, cfg, AfterCrash(s.disk, fates), io);
      OpenedCounts(k, cfg, AfterCrash(s.disk, fates), h', io, p);
    }
  }

  lemma NothingAtFirst(k: Codec)
    requires Lawful(k)
    ensures Commands(k, INITIAL.disk) == [] && Subsequence([], []) && Counts(k, INITIAL, [])
  {
  }

  /** Opening a disk with nothing left to flush leaves nothing to flush. */
  lemma OpenStaysDurable(k: Codec, cfg: Config, d: Disk, io: OpenIO)
    requires Lawful(k) && AllDurable(d) && Open(k, cfg, d, io).1.Opened?
    ensures AllDurable(Open(k, cfg, d, io).0)
  {
    hide Scan, ScanAll, Acceptable, SegmentsOf;
    if d == [] {
      CreateAppends(k, [], [], io.create);
    } else {
      ScanPrints(k, Last(d).file.data, Last(d).first);
      AreSized(k, d);
      OpenScannedIs(k, cfg, d, ScanAll(k, d), io);
      LastUpdated(d, Last(d).(file := Flushed(Truncated(Last(d).file, Last(ScanAll(k, d)).size))));
    }
  }

  lemma AreSized(k: Codec, d: Disk)
    requires Lawful(k) && d != []
    ensures Last(ScanAll(k, d)).size <= |Last(d).file.data|
  {
    ScanPrints(k, Last(d).file.data, Last(d).first);
  }
}
