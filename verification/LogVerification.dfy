/** Verifying the segments one after another, and when a log opens. */
module LogVerification {
  import opened ByteStrings
  import opened Sequences
  import opened Codecs
  import opened SegmentScan
  import opened Disks
  import opened LogSpec
  import opened Corruption

  lemma {:induction false} ScanAllAt(k: Codec, d: Disk, i: nat)
    requires Lawful(k) && i < |d|
    ensures ScanAll(k, d)[i] == Scan(k, d[i].file.data, d[i].first)
    decreases |d|
  {
    hide Scan, Lawful;
    if i < |d| - 1 {
      ScanAllAt(k, Init(d), i);
    }
  }

  lemma {:induction false} VerifiedAt(d: Disk, rs: seq<Scanned>, i: nat)
    requires |rs| == |d| && Verified(d, rs) && i < |d|
    ensures Continues(d[..i], rs[..i], d[i]) && rs[i].damage == NoDamage
    decreases |d|
  {
    if i < |d| - 1 {
      VerifiedAt(Init(d), Init(rs), i);
      assert Init(d)[..i] == d[..i] && Init(rs)[..i] == rs[..i];
    }
  }

  /** rs is what is read from the files d. */
  ghost predicate Readings(k: Codec, d: Disk, rs: seq<Scanned>)
    requires Lawful(k)
  {
    rs == ScanAll(k, d) && forall i :: 0 <= i < |d| ==> rs[i].size <= |d[i].file.data|
  }

  lemma AreReadings(k: Codec, d: Disk)
    requires Lawful(k)
    ensures Readings(k, d, ScanAll(k, d))
  {
    hide Scan, Lawful, Explains;
    forall i | 0 <= i < |d| ensures ScanAll(k, d)[i].size <= |d[i].file.data| {
      ScanAllAt(k, d, i);
      SizeBound(k, d[i].file.data, d[i].first);
    }
  }

  lemma SizeBound(k: Codec, data: Bytes, first: nat)
    requires Lawful(k)
    ensures Scan(k, data, first).size <= |data|
    ensures Scan(k, data, first).size > 0 ==> Scan(k, data, first).commands != []
  {
    ScanPrints(k, data, first);
  }

  /** Verification's verdict on file i. */
  ghost function VerdictAt(k: Codec, d: Disk, rs: seq<Scanned>, i: nat): Verdict
    requires Lawful(k) && Readings(k, d, rs) && i < |d|
  {
    Classify(k, d[i].file.data, d[i].first, i == |d| - 1, rs[i])
  }

  /** The files before file i verify. */
  ghost predicate VerifiedBefore(d: Disk, rs: seq<Scanned>, i: nat)
    requires |rs| == |d| && i <= |d|
  {
    Verified(d[..i], rs[..i])
  }

  lemma VerifiedNext(k: Codec, d: Disk, rs: seq<Scanned>, i: nat)
    requires Lawful(k) && Readings(k, d, rs) && i < |d| - 1
    requires VerifiedBefore(d, rs, i) && Continues(d[..i], rs[..i], d[i]) && VerdictAt(k, d, rs, i) != Corrupt
    ensures VerifiedBefore(d, rs, i + 1)
  {
    hide ScanAll, Lawful, HasLater;
    var d', rs' := d[..i + 1], rs[..i + 1];
    assert Init(d') == d[..i] && Init(rs') == rs[..i];
  }

  /** A gap before file i or a bad verdict on it makes the log unacceptable. */
  lemma Refuses(k: Codec, cfg: Config, d: Disk, rs: seq<Scanned>, i: nat, io: OpenIO)
    requires Lawful(k) && Readings(k, d, rs) && i < |d| && io.readable
    requires !Continues(d[..i], rs[..i], d[i]) || VerdictAt(k, d, rs, i) == Corrupt
    ensures Open(k, cfg, d, io) == (d, Corrupted)
  {
    hide ScanAll, Lawful, HasLater;
    if i < |d| - 1 && Verified(Init(d), Init(rs)) {
      assert Init(d)[..i] == d[..i] && Init(rs)[..i] == rs[..i];
      VerifiedAt(Init(d), Init(rs), i);
    }
  }

  lemma SegmentsStep(d: Disk, rs: seq<Scanned>, i: nat)
    requires |rs| == |d| && i < |d|
    ensures SegmentsOf(d[..i + 1], rs[..i + 1])
         == SegmentsOf(d[..i], rs[..i]) + [Segment(d[i].first, NextIndex(d[i], rs[i]) - 1)]
  {
    var d', rs' := d[..i + 1], rs[..i + 1];
    assert Init(d') == d[..i] && Init(rs') == rs[..i];
  }

  /** Where verification stands after i files. */
  ghost predicate Progress(
    k: Codec, d: Disk, rs: seq<Scanned>, i: nat, segs: seq<Segment>, next: nat, size: nat, verdict: Verdict)
    requires Lawful(k) && Readings(k, d, rs) && i <= |d|
  {
    && segs == SegmentsOf(d[..i], rs[..i])
    && (i < |d| ==> VerifiedBefore(d, rs, i))
    && (i > 0 ==>
          && next == NextIndex(d[i - 1], rs[i - 1])
          && size == rs[i - 1].size
          && verdict == VerdictAt(k, d, rs, i - 1) != Corrupt)
    && (i > 0 && i == |d| ==> Acceptable(k, d, rs))
  }

  lemma ProgressStart(k: Codec, d: Disk, rs: seq<Scanned>)
    requires Lawful(k) && Readings(k, d, rs) && d != []
    ensures Progress(k, d, rs, 0, [], 0, 0, Healthy)
  {
    assert d[..0] == [] && rs[..0] == [];
  }

  /** After i files of which the last was read with the given result. */
  lemma ProgressStep(
    k: Codec, d: Disk, rs: seq<Scanned>, i: nat, segs: seq<Segment>, next: nat, size: nat, verdict: Verdict)
    requires Lawful(k) && Readings(k, d, rs) && i < |d| && Progress(k, d, rs, i, segs, next, size, verdict)
    requires (i > 0 ==> d[i].first == next) && VerdictAt(k, d, rs, i) != Corrupt
    ensures var next' := NextIndex(d[i], rs[i]);
            var segs' := segs + [Segment(d[i].first, next' - 1)];
            Progress(k, d, rs, i + 1, segs', next', rs[i].size, VerdictAt(k, d, rs, i))
  {
    hide ScanAll, Lawful, HasLater, SegmentsOf, Verified, Classify;
    SegmentsStep(d, rs, i);
    assert Continues(d[..i], rs[..i], d[i]);
    if i < |d| - 1 {
      VerifiedNext(k, d, rs, i);
    } else {
      assert d[..i] == Init(d) && rs[..i] == Init(rs);
    }
  }

  lemma LastSegment(d: Disk, rs: seq<Scanned>)
    requires |rs| == |d| && d != []
    ensures Last(SegmentsOf(d, rs)) == Segment(Last(d).first, NextIndex(Last(d), Last(rs)) - 1)
  {
  }

  lemma JudgeIsVerdict(k: Codec, d: Disk, rs: seq<Scanned>, i: nat)
    requires Lawful(k) && Readings(k, d, rs) && i < |d|
    ensures rs[i] == Scan(k, d[i].file.data, d[i].first)
    ensures VerdictAt(k, d, rs, i) == Judge(k, d[i].file.data, d[i].first, i == |d| - 1)
  {
    hide ScanAll, Lawful, HasLater, Classify, Scan;
    ScanAllAt(k, d, i);
  }

  // ---- When a log opens ----

  /** File i starts where the file before it ends, and its bytes pass. */
  ghost predicate Passes(k: Codec, d: Disk, i: nat)
    requires Lawful(k) && i < |d|
  {
    && (i > 0 ==> d[i].first == d[i - 1].first + |Scan(k, d[i - 1].file.data, d[i - 1].first).commands|)
    && Judge(k, d[i].file.data, d[i].first, i == |d| - 1) != Corrupt
  }

  lemma PassesIff(k: Codec, d: Disk, rs: seq<Scanned>, i: nat)
    requires Lawful(k) && Readings(k, d, rs) && i < |d|
    ensures Passes(k, d, i) <==> Continues(d[..i], rs[..i], d[i]) && VerdictAt(k, d, rs, i) != Corrupt
  {
    hide ScanAll, Lawful, Judge, VerdictAt, Scan;
    JudgeIsVerdict(k, d, rs, i);
    if i > 0 {
      JudgeIsVerdict(k, d, rs, i - 1);
      assert Last(d[..i]) == d[i - 1] && Last(rs[..i]) == rs[i - 1];
    }
  }

  lemma {:induction false} AllPass(k: Codec, d: Disk, rs: seq<Scanned>, i: nat)
    requires Lawful(k) && Readings(k, d, rs) && i < |d|
    requires forall j :: 0 <= j < |d| ==> Passes(k, d, j)
    ensures VerifiedBefore(d, rs, i)
    decreases i
  {
    hide ScanAll, Lawful, Passes, VerdictAt;
    if i > 0 {
      AllPass(k, d, rs, i - 1);
      PassesIff(k, d, rs, i - 1);
      assert Passes(k, d, i - 1);
      VerifiedNext(k, d, rs, i - 1);
    } else {
      assert d[..i] == [];
    }
  }

  /** The system calls of an opening of d succeed, as far as they are made. */
  ghost predicate AllSucceed(k: Codec, d: Disk, io: OpenIO)
    requires Lawful(k)
  {
    if d == [] then io.create.Created?
    else
      && (Scan(k, Last(d).file.data, Last(d).first).damage != NoDamage ==> io.truncate.CutAndFlushed?)
      && io.reopen
  }

  /**
   * How opening ends. If the directory can be read, it reports corruption exactly
   * when some file does not pass, and then leaves the disk alone; it opens exactly
   * when every file passes and no system call fails.
   */
  lemma OpensIff(k: Codec, cfg: Config, d: Disk, io: OpenIO)
    requires Lawful(k)
    ensures var (d', result) := Open(k, cfg, d, io);
            var pass := forall i :: 0 <= i < |d| ==> Passes(k, d, i);
            && (result == Corrupted <==> io.readable && !pass) && (result == Corrupted ==> d' == d)
            && (result.Opened? <==> io.readable && pass && AllSucceed(k, d, io))
  {
    hide ScanAll, Lawful, Passes, HasLater, Scan;
    if d == [] {
      CreatesFirst(io.create);
    } else if io.readable {
      var rs, n := ScanAll(k, d), |d| - 1;
      AreReadings(k, d);
      if i: nat :| i < |d| && !Passes(k, d, i) {
        PassesIff(k, d, rs, i);
        Refuses(k, cfg, d, rs, i, io);
      } else {
        AllPass(k, d, rs, n);
        PassesIff(k, d, rs, n);
        ScanAllAt(k, d, n);
        assert Passes(k, d, n);
        assert d[..n] == Init(d) && rs[..n] == Init(rs);
      }
    }
  }

  lemma CreatesFirst(outcome: CreateOutcome)
    ensures CreateSegment([], 1, outcome).1 <==> outcome.Created?
  {
  }

  /** In an accepted log only the last segment can be empty or end in a torn tail. */
  lemma OnlyLastIsEmpty(k: Codec, d: Disk, i: nat)
    requires Lawful(k) && Sorted(d) && i < |d| - 1 && forall j :: 0 <= j < |d| ==> Passes(k, d, j)
    ensures Scan(k, d[i].file.data, d[i].first).commands != []
    ensures Scan(k, d[i].file.data, d[i].first).damage == NoDamage
  {
    assert Passes(k, d, i) && Passes(k, d, i + 1);
    assert d[i].first < d[i + 1].first;
  }

  /** A log with such corruption in any of its segments does not open, and is left as it is. */
  lemma CorruptionIsRefused(
    k: Codec, cfg: Config, d: Disk, i: nat, commands: seq<Bytes>, j: nat, m: nat, io: OpenIO)
    requires Lawful(k) && i < |d| && Damaged(k, d[i].first, commands, d[i].file.data, j, m) && io.readable
    ensures Open(k, cfg, d, io) == (d, Corrupted)
  {
    hide ScanAll, Open, Damaged, Judge, VerdictAt;
    AreReadings(k, d);
    JudgeIsVerdict(k, d, ScanAll(k, d), i);
    CorruptionIsNeverRepaired(k, d[i].first, commands, d[i].file.data, j, m, i == |d| - 1);
    Refuses(k, cfg, d, ScanAll(k, d), i, io);
  }
}
