/** Crashes and opening: the invariant survives both, and what recovery decides is exactly determined. */
module LogRecovery {
  import opened ByteStrings
  import opened Sequences
  import opened Codecs
  import opened SegmentScan
  import opened Disks
  import opened LogSpec
  import opened LogInvariant

  // ---- Crashes ----

  lemma {:induction false} AfterCrashStep(d: Disk, fates: seq<Fate>)
    requires |fates| == |d| && d != []
    requires AfterCrash(Init(d), Init(fates)) == Init(d) && Survivor(Last(d), Last(fates)) == [Last(d)]
    ensures AfterCrash(d, fates) == d
  {
    hide Survivor;
    assert d == Init(d) + [Last(d)];
  }

  /** A crash leaves files that need no flush exactly as they were. */
  lemma {:induction false} DurableSurvives(d: Disk, fates: seq<Fate>)
    requires AllDurable(d) && CrashAllowed(d, fates)
    ensures AfterCrash(d, fates) == d
    decreases |d|
  {
    if d != [] {
      DurableSurvives(Init(d), Init(fates));
      assert Last(fates).Kept? && Last(fates).data == Last(d).file.data;
      AfterCrashStep(d, fates);
    }
  }

  /** The part of a file that survived a crash. */
  function Survived(first: nat, q: Bytes): SegmentFile {
    SegmentFile(first, File(q, |q|, []), true)
  }

  lemma LongSurvivor(k: Codec, first: nat, commands: seq<Bytes>, torn: Bytes, inflight: Bytes, q: Bytes)
    requires AllStorable(first, commands)
    requires torn != [] ==> Storable(first + |commands|, inflight) && torn <= k.enc(first + |commands|, inflight)
    requires q <= EncodeAll(k, first, commands) + torn && |q| >= |EncodeAll(k, first, commands)|
    ensures q[|EncodeAll(k, first, commands)|..] <= torn
    ensures LastOk(k, Survived(first, q), commands, q[|EncodeAll(k, first, commands)|..], inflight)
  {
    var records := EncodeAll(k, first, commands);
    assert q[|records|..] == (records + torn)[..|q|][|records|..] == torn[..|q| - |records|];
    assert q == records + q[|records|..];
  }

  lemma ShortSurvivor(k: Codec, first: nat, commands: seq<Bytes>, q: Bytes) returns (j: nat, torn: Bytes)
    requires Lawful(k) && AllStorable(first, commands) && q < EncodeAll(k, first, commands)
    ensures j < |commands| && torn < k.enc(first + j, commands[j])
    ensures LastOk(k, Survived(first, q), commands[..j], torn, commands[j])
  {
    j := CutRecords(k, first, commands, q);
    torn := q[|EncodeAll(k, first, commands[..j])|..];
    assert q == EncodeAll(k, first, commands[..j]) + torn;
  }

  /** The commands that are still whole, and what is left of the next. */
  lemma SurvivingRecords(k: Codec, first: nat, commands: seq<Bytes>, torn: Bytes, inflight: Bytes, q: Bytes)
    returns (commands': seq<Bytes>, torn': Bytes, inflight': Bytes)
    requires Lawful(k) && AllStorable(first, commands)
    requires torn != [] ==> Storable(first + |commands|, inflight) && torn <= k.enc(first + |commands|, inflight)
    requires q <= EncodeAll(k, first, commands) + torn
    ensures LastOk(k, Survived(first, q), commands', torn', inflight')
    ensures (commands' == commands && torn' <= torn && inflight' == inflight)
            || (&& commands' < commands && inflight' == commands[|commands'|]
                && torn' < k.enc(first + |commands'|, inflight'))
  {
    var records := EncodeAll(k, first, commands);
    if |q| >= |records| {
      commands', torn', inflight' := commands, q[|records|..], inflight;
      LongSurvivor(k, first, commands, torn, inflight, q);
    } else {
      assert q == (records + torn)[..|q|] == records[..|q|];
      var j;
      j, torn' := ShortSurvivor(k, first, commands, q);
      commands', inflight' := commands[..j], commands[j];
    }
  }

  lemma {:induction false} InnersAreDurable(k: Codec, d: Disk, parts: Parts)
    requires InnersOk(k, d, parts)
    ensures AllDurable(d)
    decreases |d|
  {
    if d != [] {
      InnersAreDurable(k, Init(d), Init(parts));
    }
  }

  /** What a crash does to a disk the log wrote: it shortens the last file or drops it. */
  lemma CrashIs(k: Codec, d: Disk, h: History, fates: seq<Fate>)
    requires Lawful(k) && DiskOk(k, d, h) && CrashAllowed(d, fates) && d != []
    ensures AfterCrash(d, fates) == Init(d) + Survivor(Last(d), Last(fates))
    ensures FateAllowed(Last(d), Last(fates))
    ensures Last(fates).Kept? ==> Last(fates).data <= EncodeAll(k, Last(d).first, Last(h.parts)) + h.torn
  {
    InnersAreDurable(k, Init(d), Init(h.parts));
    DurableSurvives(Init(d), Init(fates));
    var e, records := Last(d), EncodeAll(k, Last(d).first, Last(h.parts));
    if e.file.stale != [] {
      assert records <= records + h.torn;
    }
  }

  lemma LastUpdated(d: Disk, e: SegmentFile)
    requires d != []
    ensures d[|d| - 1 := e] == Init(d) + [e]
  {
  }

  lemma KeptLast(k: Codec, d: Disk, h: History, q: Bytes, p: iset<Bytes>) returns (h': History)
    requires Lawful(k) && DiskOk(k, d, h) && d != []
    requires q <= EncodeAll(k, Last(d).first, Last(h.parts)) + h.torn
    requires Within(h, p)
    ensures Within(h', p)
    ensures DiskOk(k, Init(d) + [Survived(Last(d).first, q)], h')
  {
    var first := Last(d).first;
    var commands, torn, inflight := SurvivingRecords(k, first, Last(h.parts), h.torn, h.inflight, q);
    h' := Amend(h, commands, torn, inflight);
    PrefixIn(Last(h.parts), |commands|, p);
    assert Last(h.parts)[..|commands|] == commands;
    AmendWithin(h, commands, torn, inflight, p);
    LastUpdated(d, Survived(first, q));
    ReplaceLast(k, d, h, Survived(first, q), commands, torn, inflight);
  }

  /** A machine crash at any moment leaves a disk the log could have written, with nothing left to flush. */
  lemma CrashKeeps(k: Codec, d: Disk, h: History, fates: seq<Fate>, p: iset<Bytes>) returns (h': History)
    requires Lawful(k) && DiskOk(k, d, h) && CrashAllowed(d, fates)
    requires Within(h, p)
    ensures Within(h', p)
    ensures DiskOk(k, AfterCrash(d, fates), h') && AllDurable(AfterCrash(d, fates))
  {
    SurvivorsAreDurable(d, fates);
    if d == [] {
      return h;
    }
    CrashIs(k, d, h, fates);
    if Last(fates).Lost? {
      h' := History(Init(h.parts), [], []);
      InnersAreOk(k, Init(d), Init(h.parts));
      assert AfterCrash(d, fates) == Init(d);
    } else {
      h' := KeptLast(k, d, h, Last(fates).data, p);
      assert AfterCrash(d, fates) == Init(d) + [Survived(Last(d).first, Last(fates).data)];
    }
  }

  // ---- What opening finds ----

  /** The record after the last whole one, if any, is incomplete. */
  ghost predicate Incomplete(k: Codec, d: Disk, h: History) {
    |d| == |h.parts| && (d != [] ==> h.torn < k.enc(Following(d, h.parts), h.inflight))
  }

  lemma CompleteTorn(k: Codec, e: SegmentFile, commands: seq<Bytes>, torn: Bytes, inflight: Bytes)
    requires Lawful(k) && LastOk(k, e, commands, torn, inflight) && e.file.stale == []
    requires torn == k.enc(e.first + |commands|, inflight)
    ensures LastOk(k, e, commands + [inflight], [], [])
  {
    EncodeAllSnoc(k, e.first, commands, inflight);
    var records := EncodeAll(k, e.first, commands + [inflight]);
    assert records + [] == records;
  }

  /** A record that is whole counts as one, whether or not its Append was acknowledged. */
  lemma Settle(k: Codec, d: Disk, h: History, p: iset<Bytes>) returns (h': History)
    requires Lawful(k) && DiskOk(k, d, h)
    requires Within(h, p)
    ensures Within(h', p)
    ensures DiskOk(k, d, h') && Incomplete(k, d, h')
    ensures if Incomplete(k, d, h) then h' == h else h'.torn == []
  {
    h' := h;
    if d != [] {
      var e := Last(d);
      if h.torn == k.enc(Following(d, h.parts), h.inflight) {
        CompleteTorn(k, e, Last(h.parts), h.torn, h.inflight);
        h' := Amend(h, Last(h.parts) + [h.inflight], [], []);
        SnocWithin(h, h.inflight, p);
        ReplaceLast(k, d, h, e, Last(h.parts) + [h.inflight], [], []);
        assert d[|d| - 1 := e] == d;
      }
    }
  }

  /** What verification reads from a disk the log wrote. */
  ghost function Expected(k: Codec, d: Disk, parts: Parts): (r: seq<Scanned>)
    requires |d| == |parts|
    ensures |r| == |d|
  {
    if d == [] then []
    else Expected(k, Init(d), Init(parts)) + [Scanned(Last(parts), |Last(d).file.data|, NoDamage)]
  }

  lemma {:induction false} InnersRead(k: Codec, d: Disk, parts: Parts)
    requires Lawful(k) && InnersOk(k, d, parts)
    ensures ScanAll(k, d) == Expected(k, d, parts)
    decreases |d|
  {
    if d != [] {
      InnersRead(k, Init(d), Init(parts));
      ScanWhole(k, Last(d).first, Last(parts));
    }
  }

  /** Each file starts where the one before it ends, the first one at index 1. */
  ghost predicate Chained(d: Disk, parts: Parts) {
    && |d| == |parts|
    && (d != [] ==> Chained(Init(d), Init(parts)) && Last(d).first == Following(Init(d), Init(parts)))
  }

  lemma {:induction false} InnersAreChained(k: Codec, d: Disk, parts: Parts)
    requires InnersOk(k, d, parts)
    ensures Chained(d, parts)
    decreases |d|
  {
    if d != [] {
      InnersAreChained(k, Init(d), Init(parts));
    }
  }

  lemma {:induction false} ChainVerifies(k: Codec, d: Disk, parts: Parts)
    requires Chained(d, parts)
    ensures Verified(d, Expected(k, d, parts))
    ensures d != [] ==> NextIndex(Last(d), Last(Expected(k, d, parts))) == Following(d, parts)
    ensures SegmentsOf(d, Expected(k, d, parts)) == SegmentsFor(d, parts)
    decreases |d|
  {
    if d != [] {
      hide EncodeAll;
      ChainVerifies(k, Init(d), Init(parts));
      assert Init(Expected(k, d, parts)) == Expected(k, Init(d), Init(parts));
    }
  }

  /** What verification reads from the last file: the whole records, and damage if anything follows them. */
  ghost function LastScanned(k: Codec, e: SegmentFile, commands: seq<Bytes>, torn: Bytes): Scanned {
    Scanned(commands, |EncodeAll(k, e.first, commands)|, if torn == [] then NoDamage else Unreadable)
  }

  lemma LastReads(k: Codec, e: SegmentFile, commands: seq<Bytes>, torn: Bytes, inflight: Bytes)
    requires Lawful(k) && LastOk(k, e, commands, torn, inflight) && e.file.stale == []
    requires torn < k.enc(e.first + |commands|, inflight)
    ensures Scan(k, e.file.data, e.first) == LastScanned(k, e, commands, torn)
    ensures |EncodeAll(k, e.first, commands)| <= |e.file.data|
    ensures e.file.data[|EncodeAll(k, e.first, commands)|..] == torn
  {
    var records := EncodeAll(k, e.first, commands);
    assert e.file.data[|records|..] == torn && e.file.data[..|records|] == records;
    if torn != [] {
      CutIsDamaged(k, e.first + |commands|, inflight, torn);
    }
    ScanIsUnique(k, e.file.data, e.first, LastScanned(k, e, commands, torn));
  }

  /** What verification reads from the whole disk. */
  ghost function Reading(k: Codec, d: Disk, h: History): (r: seq<Scanned>)
    requires d != [] && |d| == |h.parts|
    ensures |r| == |d|
  {
    Expected(k, Init(d), Init(h.parts)) + [LastScanned(k, Last(d), Last(h.parts), h.torn)]
  }

  lemma DiskReads(k: Codec, d: Disk, h: History)
    requires Lawful(k) && DiskOk(k, d, h) && Incomplete(k, d, h) && d != [] && Last(d).file.stale == []
    ensures ScanAll(k, d) == Reading(k, d, h)
    ensures Last(Reading(k, d, h)).size <= |Last(d).file.data|
    ensures Last(d).file.data[Last(Reading(k, d, h)).size..] == h.torn
  {
    InnersRead(k, Init(d), Init(h.parts));
    LastReads(k, Last(d), Last(h.parts), h.torn, h.inflight);
  }

  /** With the inner files in order, the verdict on the last file decides. */
  lemma LastDecides(k: Codec, d: Disk, parts: Parts, rs: seq<Scanned>, r: Scanned)
    requires d != [] && |d| == |parts| && Chained(Init(d), Init(parts))
    requires Last(d).first == Following(Init(d), Init(parts))
    requires rs == Expected(k, Init(d), Init(parts)) + [r] && r.size <= |Last(d).file.data|
    ensures Acceptable(k, d, rs) <==> Classify(k, Last(d).file.data, Last(d).first, true, r) != Corrupt
    ensures r.commands == Last(parts) ==> SegmentsOf(d, rs) == SegmentsFor(d, parts)
  {
    ChainVerifies(k, Init(d), Init(parts));
    assert Init(rs) == Expected(k, Init(d), Init(parts));
  }

  /**
   * No disk that a run of the log can leave is misjudged, with one exception:
   * opening refuses it exactly when the beginning of the incomplete record
   * itself contains an intact record with a later index.
   */
  lemma AcceptableIff(k: Codec, d: Disk, h: History)
    requires Lawful(k) && DiskOk(k, d, h) && Incomplete(k, d, h) && d != [] && Last(d).file.stale == []
    ensures ScanAll(k, d) == Reading(k, d, h)
    ensures Last(Reading(k, d, h)).size <= |Last(d).file.data|
    ensures Acceptable(k, d, Reading(k, d, h))
       <==> h.torn == [] || !HasLater(k, h.torn, Following(d, h.parts))
    ensures SegmentsOf(d, Reading(k, d, h)) == SegmentsFor(d, h.parts)
  {
    hide Scan, EncodeAll, InnersOk, Expected, Verified, SegmentsOf, SegmentsFor;
    DiskReads(k, d, h);
    InnersAreChained(k, Init(d), Init(h.parts));
    LastDecides(k, d, h.parts, Reading(k, d, h), LastScanned(k, Last(d), Last(h.parts), h.torn));
  }

  // ---- Opening ----

  lemma FirstSegmentOk(k: Codec, cfg: Config, linked: bool)
    ensures DiskOk(k, [SegmentFile(1, EMPTY_FILE, linked)], History([[]], [], []))
    ensures linked ==> LiveOk(k, Live([SegmentFile(1, EMPTY_FILE, linked)], NewSession(cfg, [Segment(1, 0)], 0, 0)),
                              History([[]], [], []))
  {
    var d, parts: Parts := [SegmentFile(1, EMPTY_FILE, linked)], [[]];
    assert Init(d) == [] && Init(parts) == [];
    assert EncodeAll(k, 1, []) == [];
    assert SegmentsFor(d, parts) == [Segment(1, 0)];
  }

  /** The last file after its torn tail was cut off, and after that was flushed. */
  lemma CutOk(k: Codec, e: SegmentFile, commands: seq<Bytes>, torn: Bytes, inflight: Bytes)
    requires LastOk(k, e, commands, torn, inflight) && e.file.stale == []
    requires torn != [] && torn < k.enc(e.first + |commands|, inflight)
    ensures e.linked
    ensures var size := |EncodeAll(k, e.first, commands)|;
            && size <= |e.file.data|
            && LastOk(k, e.(file := Truncated(e.file, size)), commands, torn, inflight)
            && LastOk(k, e.(file := Flushed(Truncated(e.file, size))), commands, [], [])
            && |Truncated(e.file, size).data| == size
  {
    var records := EncodeAll(k, e.first, commands);
    assert e.file.data[..|records|] == records;
    assert records + [] == records;
  }

  lemma OpenedLive(k: Codec, cfg: Config, d: Disk, h: History, f: File, commands: seq<Bytes>)
    requires DiskOk(k, d, h) && d != [] && Last(h.parts) == commands
    requires LastOk(k, Last(d).(file := f), commands, [], h.inflight) && Last(d).linked && Settled(f)
    ensures var size := |EncodeAll(k, Last(d).first, commands)|;
            var log := NewSession(cfg, SegmentsFor(d, h.parts), size, Last(d).first + |commands| - 1);
            LiveOk(k, Live(WithLast(d, f), log), Amend(h, commands, [], h.inflight))
  {
    RewriteLast(k, d, h, Last(d).(file := f), commands, [], h.inflight,
                NewSession(cfg, SegmentsFor(d, h.parts), |EncodeAll(k, Last(d).first, commands)|,
                           Last(d).first + |commands| - 1));
  }

  /** Opening a log that needs no repair. */
  lemma OpenCleanKeeps(k: Codec, cfg: Config, d: Disk, h: History)
    requires DiskOk(k, d, h) && d != [] && AllDurable(d) && h.torn == []
    ensures var commands := Last(h.parts);
            LiveOk(k, Live(d, NewSession(cfg, SegmentsFor(d, h.parts), |EncodeAll(k, Last(d).first, commands)|,
                                         Last(d).first + |commands| - 1)), h)
  {
    var e := Last(d);
    AmendNothing(h);
    assert WithLast(d, e.file) == d;
    OpenedLive(k, cfg, d, h, e.file, Last(h.parts));
  }

  /** The three ways in which cutting a torn tail can end. */
  lemma RepairKeeps(k: Codec, cfg: Config, d: Disk, h: History)
    requires DiskOk(k, d, h) && d != [] && Last(d).file.stale == [] && Incomplete(k, d, h) && h.torn != []
    ensures var commands, size := Last(h.parts), |EncodeAll(k, Last(d).first, Last(h.parts))|;
            && size <= |Last(d).file.data|
            && var cut := Truncated(Last(d).file, size);
               && DiskOk(k, WithLast(d, cut), h)
               && LiveOk(k, Live(WithLast(d, Flushed(cut)),
                                 NewSession(cfg, SegmentsFor(d, h.parts), size, Last(d).first + |commands| - 1)),
                         Amend(h, commands, [], []))
  {
    hide InnersOk, EncodeAll;
    var e, commands := Last(d), Last(h.parts);
    var cut := Truncated(e.file, |EncodeAll(k, e.first, commands)|);
    CutOk(k, e, commands, h.torn, h.inflight);
    ReplaceLast(k, d, h, e.(file := cut), commands, h.torn, h.inflight);
    assert Amend(h, commands, h.torn, h.inflight) == h;
    RewriteLast(k, d, h, e.(file := Flushed(cut)), commands, [], [],
                NewSession(cfg, SegmentsFor(d, h.parts), |EncodeAll(k, e.first, commands)|, e.first + |commands| - 1));
  }

  /** How opening ends: on a disk the log could have written, and with a sound log if nothing is left to flush. */
  ghost predicate OpenedOk(k: Codec, r: (Disk, OpenResult), h: History) {
    && DiskOk(k, r.0, h)
    && (r.1.Opened? && AllDurable(r.0) ==> LiveOk(k, Live(r.0, r.1.log), h))
  }

  lemma OpenFirstKeeps(k: Codec, cfg: Config, io: OpenIO, p: iset<Bytes>) returns (h': History)
    requires Lawful(k)
    ensures Within(h', p)
    ensures OpenedOk(k, Open(k, cfg, [], io), h')
  {
    CreateAppends(k, [], [], io.create);
    FirstSegmentOk(k, cfg, true);
    FirstSegmentOk(k, cfg, false);
    var d: Disk := [];
    assert d + [SegmentFile(1, EMPTY_FILE, true)] == [SegmentFile(1, EMPTY_FILE, true)];
    assert d + [SegmentFile(1, EMPTY_FILE, false)] == [SegmentFile(1, EMPTY_FILE, false)];
    h' := if io.readable && !io.create.NotCreated? then History([[]], [], []) else History([], [], []);
  }

  lemma LiveOpenedOk(k: Codec, d: Disk, log: Session, h: History)
    requires LiveOk(k, Live(d, log), h)
    ensures OpenedOk(k, (d, Opened(log)), h) && OpenedOk(k, (d, IoError), h)
  {
  }

  lemma OpenScannedIs(k: Codec, cfg: Config, d: Disk, rs: seq<Scanned>, io: OpenIO)
    requires d != [] && |rs| == |d| && Last(rs).size <= |Last(d).file.data|
    ensures var cut := Truncated(Last(d).file, Last(rs).size);
            var log := NewSession(cfg, SegmentsOf(d, rs), Last(rs).size, NextIndex(Last(d), Last(rs)) - 1);
            var result := if io.reopen then Opened(log) else IoError;
            OpenScanned(k, cfg, d, rs, io)
            == if !Acceptable(k, d, rs) then (d, Corrupted)
               else if Last(rs).damage == NoDamage then (d, result)
               else match io.truncate
                    case NotCut => (d, IoError)
                    case NotFlushed => (WithLast(d, cut), IoError)
                    case CutAndFlushed => (WithLast(d, Flushed(cut)), result)
  {
  }

  lemma OpenScannedKeeps(k: Codec, cfg: Config, d: Disk, h: History, io: OpenIO, rs: seq<Scanned>, p: iset<Bytes>)
    returns (h': History)
    requires Lawful(k) && DiskOk(k, d, h) && d != [] && Last(d).file.stale == [] && Incomplete(k, d, h)
    requires |rs| == |d| && Last(rs) == LastScanned(k, Last(d), Last(h.parts), h.torn)
    requires Last(rs).size <= |Last(d).file.data| && SegmentsOf(d, rs) == SegmentsFor(d, h.parts)
    requires Within(h, p)
    ensures Within(h', p)
    ensures OpenedOk(k, OpenScanned(k, cfg, d, rs, io), h')
  {
    hide LiveOk, LastOk, InnersOk, EncodeAll, SegmentsOf, SegmentsFor, Incomplete, OpenScanned;
    OpenScannedIs(k, cfg, d, rs, io);
    h' := h;
    if Acceptable(k, d, rs) {
      var log := NewSession(cfg, SegmentsOf(d, rs), Last(rs).size, NextIndex(Last(d), Last(rs)) - 1);
      if h.torn == [] {
        if AllDurable(d) {
          OpenCleanKeeps(k, cfg, d, h);
        }
      } else {
        RepairKeeps(k, cfg, d, h);
        if io.truncate.CutAndFlushed? {
          h' := Amend(h, Last(h.parts), [], []);
          AmendWithin(h, Last(h.parts), [], [], p);
          LiveOpenedOk(k, WithLast(d, Flushed(Truncated(Last(d).file, Last(rs).size))), log, h');
        }
      }
    }
  }

  /** Verification looks at names and contents only. */
  lemma {:induction false} SameReading(k: Codec, d: Disk, d0: Disk, rs: seq<Scanned>)
    requires Lawful(k) && d != [] && |d0| == |d| == |rs| && Init(d0) == Init(d)
    requires Last(d0).first == Last(d).first && Last(d0).file.data == Last(d).file.data
    requires Last(rs).size <= |Last(d).file.data|
    ensures ScanAll(k, d) == ScanAll(k, d0)
    ensures Acceptable(k, d, rs) <==> Acceptable(k, d0, rs)
    ensures SegmentsOf(d, rs) == SegmentsOf(d0, rs)
  {
    hide Scan;
  }

  /** A disk whose truncated last file was not flushed opens as it is. */
  lemma StaleOpens(k: Codec, cfg: Config, d: Disk, h: History, io: OpenIO)
    requires Lawful(k) && DiskOk(k, d, h) && d != [] && Last(d).file.stale != [] && io.readable
    ensures var log := NewSession(cfg, SegmentsFor(d, h.parts), |Last(d).file.data|, Following(d, h.parts) - 1);
            Open(k, cfg, d, io) == (d, if io.reopen then Opened(log) else IoError)
  {
    hide InnersOk, EncodeAll, Scan, ScanAll, Acceptable;
    var e := Last(d);
    var f := e.file.(stale := []);
    var d0, h0 := WithLast(d, f), Amend(h, Last(h.parts), [], []);
    assert EncodeAll(k, e.first, Last(h.parts)) + [] == EncodeAll(k, e.first, Last(h.parts));
    ReplaceLast(k, d, h, e.(file := f), Last(h.parts), [], []);
    AcceptableIff(k, d0, h0);
    SameReading(k, d, d0, ScanAll(k, d0));
    SameSegments(d, d0, h.parts, h0.parts);
    OpenScannedIs(k, cfg, d, ScanAll(k, d), io);
  }

  lemma {:induction false} SameSegments(d: Disk, d0: Disk, parts: Parts, parts0: Parts)
    requires d != [] && |d0| == |d| == |parts| == |parts0| && Init(d0) == Init(d) && Last(d0).first == Last(d).first
    requires Init(parts0) == Init(parts) && Last(parts0) == Last(parts)
    ensures SegmentsFor(d, parts) == SegmentsFor(d0, parts0)
  {
  }

  /** Opening, whether it succeeds, refuses or fails half-way, leaves a disk the log could have written. */
  lemma OpenKeeps(k: Codec, cfg: Config, d: Disk, h: History, io: OpenIO, p: iset<Bytes>) returns (h': History)
    requires Lawful(k) && DiskOk(k, d, h)
    requires Within(h, p)
    ensures Within(h', p)
    ensures OpenedOk(k, Open(k, cfg, d, io), h')
  {
    hide LiveOk, LastOk, InnersOk, ScanAll, OpenScanned;
    h' := h;
    if d == [] {
      h' := OpenFirstKeeps(k, cfg, io, p);
    } else if io.readable && Last(d).file.stale != [] {
      StaleOpens(k, cfg, d, h, io);
    } else if io.readable {
      h' := Settle(k, d, h, p);
      AcceptableIff(k, d, h');
      h' := OpenScannedKeeps(k, cfg, d, h', io, ScanAll(k, d), p);
    }
  }
}
