/** Opening, on any disk at all: it changes no command, and doing it again or after a crash half-way changes nothing. */
module LogReopening {
  import opened ByteStrings
  import opened Sequences
  import opened Codecs
  import opened SegmentScan
  import opened Disks
  import opened LogSpec
  import opened LogInvariant
  import opened LogRecovery

  /** All system calls succeed. */
  const ALL_WELL: OpenIO := OpenIO(true, Created, CutAndFlushed, true)

  /** The last file as an opened log leaves it. */
  function Repaired(e: SegmentFile, r: Scanned): SegmentFile
    requires r.size <= |e.file.data|
  {
    if r.damage == NoDamage then e else e.(file := Flushed(Truncated(e.file, r.size)))
  }

  lemma ScanAllSnoc(k: Codec, d: Disk, e: SegmentFile)
    requires Lawful(k)
    ensures ScanAll(k, d + [e]) == ScanAll(k, d) + [Scan(k, e.file.data, e.first)]
  {
    assert Init(d + [e]) == d;
  }

  /** What opening makes of the files d, which are not the last, and e, which is, having read rs and r from them. */
  ghost function Outcome(
    k: Codec, cfg: Config, d: Disk, rs: seq<Scanned>, e: SegmentFile, r: Scanned): (Disk, OpenResult)
    requires |rs| == |d| && r.size <= |e.file.data|
  {
    if Verified(d, rs) && Continues(d, rs, e) && Classify(k, e.file.data, e.first, true, r) != Corrupt then
      (d + [Repaired(e, r)],
       var next := NextIndex(e, r);
       Opened(NewSession(cfg, SegmentsOf(d, rs) + [Segment(e.first, next - 1)], r.size, next - 1)))
    else (d + [e], Corrupted)
  }

  lemma OpenIs(k: Codec, cfg: Config, d: Disk, e: SegmentFile, r: Scanned)
    requires Lawful(k) && r == Scan(k, e.file.data, e.first)
    ensures r.size <= |e.file.data|
    ensures Open(k, cfg, d + [e], ALL_WELL) == Outcome(k, cfg, d, ScanAll(k, d), e, r)
  {
    hide Scan, ScanAll, EncodeAll, HasLater, OpenScanned;
    ScanPrints(k, e.file.data, e.first);
    ScanAllSnoc(k, d, e);
    OpenScannedIs(k, cfg, d + [e], ScanAll(k, d) + [r], ALL_WELL);
    assert Init(d + [e]) == d && Init(ScanAll(k, d) + [r]) == ScanAll(k, d);
    LastUpdated(d + [e], Repaired(e, r));
  }

  /** Two last files that verification reads alike, and repairs alike, make opening end alike. */
  lemma OutcomeAlike(
    k: Codec, cfg: Config, d: Disk, rs: seq<Scanned>, e: SegmentFile, r: Scanned, e': SegmentFile, r': Scanned)
    requires |rs| == |d| && r.size <= |e.file.data| && r'.size <= |e'.file.data|
    requires e'.first == e.first && r'.commands == r.commands && r'.size == r.size
    requires Repaired(e', r') == Repaired(e, r)
    requires Outcome(k, cfg, d, rs, e, r).1.Opened?
    requires Classify(k, e'.file.data, e.first, true, r') != Corrupt
    ensures Outcome(k, cfg, d, rs, e', r') == Outcome(k, cfg, d, rs, e, r)
  {
  }

  lemma RepairedReads(k: Codec, e: SegmentFile, r: Scanned)
    requires Lawful(k) && r == Scan(k, e.file.data, e.first) && r.size <= |e.file.data|
    requires Classify(k, e.file.data, e.first, true, r) != Corrupt
    ensures Scan(k, Repaired(e, r).file.data, e.first) == Scanned(r.commands, r.size, NoDamage)
    ensures r.size == |Repaired(e, r).file.data|
  {
    RepairIsIdempotent(k, e.file.data, e.first);
    ScanPrints(k, e.file.data, e.first);
  }

  lemma OutcomeOfRepaired(k: Codec, cfg: Config, d: Disk, rs: seq<Scanned>, e: SegmentFile, r: Scanned)
    requires |rs| == |d| && r.size <= |e.file.data| && r.size == |Repaired(e, r).file.data|
    requires Outcome(k, cfg, d, rs, e, r).1.Opened?
    ensures Outcome(k, cfg, d, rs, Repaired(e, r), r.(damage := NoDamage)) == Outcome(k, cfg, d, rs, e, r)
  {
    OutcomeAlike(k, cfg, d, rs, e, r, Repaired(e, r), r.(damage := NoDamage));
  }

  /**
   * Opening a log that was just opened changes nothing and finds the same log,
   * whatever disk the first opening found.
   */
  lemma OpenIsIdempotent(k: Codec, cfg: Config, d: Disk)
    requires Lawful(k) && Open(k, cfg, d, ALL_WELL).1.Opened?
    ensures var (disk, result) := Open(k, cfg, d, ALL_WELL);
            Open(k, cfg, disk, ALL_WELL) == (disk, result)
  {
    if d == [] {
      FirstOpenIsIdempotent(k, cfg);
    } else {
      var init, e := Init(d), Last(d);
      var r := Scan(k, e.file.data, e.first);
      assert d == init + [e];
      OpenIs(k, cfg, init, e, r);
      RepairedReads(k, e, r);
      OutcomeOfRepaired(k, cfg, init, ScanAll(k, init), e, r);
      OpenIs(k, cfg, init, Repaired(e, r), r.(damage := NoDamage));
    }
  }

  lemma FirstOpenIsIdempotent(k: Codec, cfg: Config)
    requires Lawful(k)
    ensures var (disk, result) := Open(k, cfg, [], ALL_WELL);
            Open(k, cfg, disk, ALL_WELL) == (disk, result)
  {
    var d: Disk, e := [], SegmentFile(1, EMPTY_FILE, true);
    CreateAppends(k, d, [], Created);
    assert d + [e] == [e];
    OpenIs(k, cfg, d, e, Scanned([], 0, NoDamage));
    assert SegmentsOf(d, []) + [Segment(1, 0)] == [Segment(1, 0)];
  }

  /** Everything that verification accepts is durable. */
  ghost predicate RecordsDurable(k: Codec, d: Disk)
    requires Lawful(k)
  {
    && d != [] && AllDurable(Init(d)) && Last(d).linked && Last(d).file.stale == []
    && Scan(k, Last(d).file.data, Last(d).first).size <= Last(d).file.durable <= |Last(d).file.data|
  }

  /**
   * Recovery can be interrupted. If the records are durable, as those of whatever
   * log a machine comes up with are, a crash between the truncation of a torn tail
   * and its flush leaves a disk from which opening ends exactly as it would have
   * ended.
   */
  lemma OpenIsRestartable(k: Codec, cfg: Config, d: Disk, io: OpenIO, fates: seq<Fate>)
    requires Lawful(k) && RecordsDurable(k, d) && Open(k, cfg, d, ALL_WELL).1.Opened?
    requires io.readable && io.truncate == NotFlushed
    requires CrashAllowed(Open(k, cfg, d, io).0, fates)
    ensures Open(k, cfg, AfterCrash(Open(k, cfg, d, io).0, fates), ALL_WELL) == Open(k, cfg, d, ALL_WELL)
  {
    var init, e := Init(d), Last(d);
    var r := Scan(k, e.file.data, e.first);
    var d' := Interrupted(k, cfg, d, io, r);
    if r.damage == NoDamage {
      ScanPrints(k, e.file.data, e.first);
      DurableSurvives(d, fates);
    } else {
      var q := CutSurvives(init, Last(d'), e, fates);
      assert d == init + [e];
      OpenIs(k, cfg, init, e, r);
      ShorterAlike(k, cfg, init, e, r, q);
    }
  }

  /** The disk when opening fails after the truncation. */
  lemma Interrupted(k: Codec, cfg: Config, d: Disk, io: OpenIO, r: Scanned) returns (d': Disk)
    requires Lawful(k) && d != [] && Open(k, cfg, d, ALL_WELL).1.Opened?
    requires io.readable && io.truncate == NotFlushed && r == Scan(k, Last(d).file.data, Last(d).first)
    ensures r.size <= |Last(d).file.data|
    ensures d' == Open(k, cfg, d, io).0
    ensures r.damage == NoDamage ==> d' == d
    ensures r.damage != NoDamage ==> d' == Init(d) + [Last(d).(file := Truncated(Last(d).file, r.size))]
  {
    d' := Open(k, cfg, d, io).0;
    ScanPrints(k, Last(d).file.data, Last(d).first);
    OpenScannedIs(k, cfg, d, ScanAll(k, d), io);
    OpenScannedIs(k, cfg, d, ScanAll(k, d), ALL_WELL);
    LastUpdated(d, Last(d).(file := Truncated(Last(d).file, r.size)));
  }

  lemma ShorterAlike(k: Codec, cfg: Config, d: Disk, e: SegmentFile, r: Scanned, q: Bytes)
    requires Lawful(k) && r == Scan(k, e.file.data, e.first) && r.damage != NoDamage && e.linked
    requires q <= e.file.data && r.size <= |q|
    requires Outcome(k, cfg, d, ScanAll(k, d), e, r).1.Opened?
    ensures Open(k, cfg, d + [Survived(e.first, q)], ALL_WELL) == Outcome(k, cfg, d, ScanAll(k, d), e, r)
  {
    var e', r' := Survived(e.first, q), Scan(k, q, e.first);
    RepairIsRestartable(k, e.file.data, q, e.first);
    OpenIs(k, cfg, d, e', r');
    ScanPrints(k, q, e.first);
    assert q[..r.size] == e.file.data[..r.size];
    assert r'.damage == NoDamage ==> q == q[..r.size];
    OutcomeAlike(k, cfg, d, ScanAll(k, d), e, r, e', r');
  }

  /** After an unflushed truncation a crash leaves a length between the new one and the old one. */
  lemma CutSurvives(d: Disk, cut: SegmentFile, e: SegmentFile, fates: seq<Fate>) returns (q: Bytes)
    requires AllDurable(d) && e.linked && e.file.stale == [] && |cut.file.data| <= e.file.durable
    requires cut.file.data <= e.file.data && cut == e.(file := Truncated(e.file, |cut.file.data|))
    requires CrashAllowed(d + [cut], fates)
    ensures AfterCrash(d + [cut], fates) == d + [Survived(e.first, q)]
    ensures cut.file.data <= q <= e.file.data
  {
    assert Init(d + [cut]) == d;
    DurableSurvives(d, Init(fates));
    q := Last(fates).data;
  }
}
