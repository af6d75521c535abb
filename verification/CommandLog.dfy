/**
 * The log's methods on its fields and its directory. Each is proved to take
 * the step of the state machine in LogSpec, whose runs the other modules are
 * about. The outcomes of system calls are parameters, as there.
 */
module CommandLog {
  import opened ByteStrings
  import opened Options
  import opened Sequences
  import opened Codecs
  import opened Record
  import opened SegmentScan
  import opened SegmentNames
  import opened Disks
  import opened Directories
  import opened LogSpec
  import opened LogReplay
  import opened LogVerification

  /** The directory m holds the disk of l, whose active file is the one called active. */
  ghost predicate Tied(l: Live, m: Entries, active: string) {
    && Shaped(l) && Mirrors(m, l.disk)
    && Last(l.log.segments).first == Active(l).first
    && active == SegmentName(Active(l).first)
  }

  /**
   * Until a failure the files are those of the segments, and the next index is not
   * the first of a file with records.
   */
  ghost predicate InOrder(l: Live)
    requires Shaped(l)
  {
    !l.log.failed ==>
      && |l.disk| == |l.log.segments|
      && Last(l.disk).first <= if l.log.activeSize > 0 then l.log.lastIndex else l.log.lastIndex + 1
  }

  lemma ActiveIsFile(l: Live, m: Entries, active: string)
    requires Tied(l, m, active)
    ensures active in m && m[active] == Regular(Active(l).file, Active(l).linked)
  {
    assert Holds(m, Active(l));
  }

  /** The other fields do not matter. */
  lemma SameFiles(l: Live, l': Live, m: Entries, active: string)
    requires Tied(l, m, active) && Shaped(l') && l'.disk == l.disk
    requires |l'.log.segments| == |l.log.segments| && Last(l'.log.segments).first == Last(l.log.segments).first
    ensures Tied(l', m, active)
  {
    hide SegmentName, Mirrors;
  }

  /** Changing the active file. */
  lemma ActiveChanges(l: Live, m: Entries, active: string, f: File)
    requires Tied(l, m, active)
    ensures Tied(WithActive(l, f), m[active := Regular(f, Active(l).linked)], active)
  {
    hide SegmentName, Mirrors;
    MirrorUpdate(m, l.disk, |l.log.segments| - 1, f);
  }

  /** A file created after all others. */
  lemma FileAppended(m: Entries, d: Disk, first: nat)
    requires Mirrors(m, d) && first < INDEX_LIMIT && (d != [] ==> Last(d).first < first)
    ensures !Exists(d, first) && SegmentName(first) !in m
    ensures InsertFile(d, SegmentFile(first, EMPTY_FILE, false)) == d + [SegmentFile(first, EMPTY_FILE, false)]
    ensures var e := SegmentFile(first, EMPTY_FILE, false);
            Mirrors(m[SegmentName(first) := Regular(EMPTY_FILE, false)], d + [e])
  {
    hide SegmentName;
    MirrorSnoc(m, d, SegmentFile(first, EMPTY_FILE, false));
    NameInMirror(m, d, first);
  }

  lemma FileAt(m: Entries, d: Disk, i: nat)
    requires Mirrors(m, d) && i < |d|
    ensures SegmentName(d[i].first) in m && m[SegmentName(d[i].first)] == Regular(d[i].file, d[i].linked)
  {
    assert Holds(m, d[i]);
  }

  /** The listing says what the directory holds. */
  lemma Listed(m: Entries, listing: seq<DirEntry>)
    requires forall e :: e in listing <==> e.name in m && e.regular == m[e.name].Regular?
    ensures AllSegments(listing) <==> OnlySegments(m)
    ensures OnlySegments(m) ==> forall i: nat :: DirEntry(SegmentName(i), true) in listing <==> SegmentName(i) in m
  {
    hide SegmentName, ParseSegmentName;
    if AllSegments(listing) {
      forall name | name in m ensures m[name].Regular? && ParseSegmentName(name).Some? {
        assert DirEntry(name, m[name].Regular?) in listing;
      }
    }
  }

  // ---- Replay ----

  function After(calls: seq<Call>, r: Replayed): Replayed {
    Replayed(calls + r.calls, r.ok)
  }

  /** Nothing is left to read, or it cannot be read. */
  lemma ReplayEnds(k: Codec, data: Bytes, want: nat, end: int, from: nat, calls: seq<Call>)
    requires Lawful(k)
    requires want <= end ==> !k.dec(data).Intact? || k.dec(data).index != want
    ensures After(calls, ReplayRecords(k, data, want, end, from)) == Replayed(calls, want > end)
  {
    assert calls + [] == calls;
  }

  lemma ReplayStep(k: Codec, data: Bytes, offset: nat, want: nat, end: int, from: nat, calls: seq<Call>)
    requires Lawful(k) && offset <= |data| && want <= end
    requires var d := k.dec(data[offset..]); d.Intact? && d.index == want
    ensures var d := k.dec(data[offset..]);
            var calls' := if want >= from then calls + [(want, d.command)] else calls;
            && offset + d.size <= |data|
            && After(calls, ReplayRecords(k, data[offset..], want, end, from))
            == After(calls', ReplayRecords(k, data[offset + d.size..], want + 1, end, from))
  {
    var d := k.dec(data[offset..]);
    PrintBack(k, data[offset..]);
    assert data[offset..][d.size..] == data[offset + d.size..];
  }

  lemma NothingReplayed(k: Codec, segs: seq<Segment>, contents: seq<Option<Bytes>>, from: nat, last: int)
    requires Lawful(k) && |contents| == |segs|
    ensures ReplayAll(k, segs[..0], contents[..0], from, last) == Replayed([], true)
  {
  }

  lemma ReplayNext(k: Codec, segs: seq<Segment>, contents: seq<Option<Bytes>>, from: nat, last: int, i: nat)
    requires Lawful(k) && |contents| == |segs| && i < |segs| && ReplayAll(k, segs[..i], contents[..i], from, last).ok
    ensures ReplayAll(k, segs[..i + 1], contents[..i + 1], from, last)
         == After(ReplayAll(k, segs[..i], contents[..i], from, last).calls,
                  ReplaySegment(k, contents[i], segs[i], from, last))
  {
    hide Lawful, ReplaySegment;
    assert Init(segs[..i + 1]) == segs[..i] && Init(contents[..i + 1]) == contents[..i];
  }

  /** Later segments only add calls. */
  lemma {:induction false} ReplayGrows(
    k: Codec, segs: seq<Segment>, contents: seq<Option<Bytes>>, from: nat, last: int, i: nat)
    requires Lawful(k) && |contents| == |segs| && i <= |segs|
    ensures ReplayAll(k, segs[..i], contents[..i], from, last).calls <= ReplayAll(k, segs, contents, from, last).calls
    decreases |segs|
  {
    hide Lawful, ReplaySegment;
    if i == |segs| {
      assert segs[..i] == segs && contents[..i] == contents;
    } else {
      assert Init(segs)[..i] == segs[..i] && Init(contents)[..i] == contents[..i];
      ReplayGrows(k, Init(segs), Init(contents), from, last, i);
    }
  }

  /** Replay ends at the first segment it cannot read. */
  lemma {:induction false} ReplayStops(
    k: Codec, segs: seq<Segment>, contents: seq<Option<Bytes>>, from: nat, last: int, i: nat)
    requires Lawful(k) && |contents| == |segs| && i <= |segs|
    requires !ReplayAll(k, segs[..i], contents[..i], from, last).ok
    ensures ReplayAll(k, segs, contents, from, last) == ReplayAll(k, segs[..i], contents[..i], from, last)
    decreases |segs|
  {
    hide Lawful, ReplaySegment;
    if i == |segs| {
      assert segs[..i] == segs && contents[..i] == contents;
    } else {
      assert Init(segs)[..i] == segs[..i] && Init(contents)[..i] == contents[..i];
      ReplayStops(k, Init(segs), Init(contents), from, last, i);
    }
  }

  class Log {
    const crc: Crc
    const k: Codec
    const cfg: Config
    const dir: Directory

    var segments: seq<Segment>
    var active: string
    var activeSize: nat
    var lastIndex: int
    var dirty: bool
    var failed: bool
    var closed: bool
    var released: bool
    ghost var disk: Disk

    ghost predicate Formatted() {
      Lawful(k) && Implements(k, crc)
    }

    function Fields(): Session
      reads this
    {
      Session(cfg, segments, activeSize, lastIndex, dirty, failed, closed, released)
    }

    ghost function State(): Live
      reads this
    {
      Live(disk, Fields())
    }

    ghost predicate Valid()
      reads this, dir
    {
      Formatted() && Tied(State(), dir.entries, active) && InOrder(State())
    }

    constructor (crc: Crc, cfg: Config, dir: Directory)
      ensures this.crc == crc && this.cfg == cfg && this.dir == dir && Formatted()
      ensures Fields() == NewSession(cfg, [], 0, 0)
    {
      this.crc, this.k, this.cfg, this.dir := crc, RecordCodec(crc), cfg, dir;
      segments, active, activeSize, lastIndex := [], "", 0, 0;
      dirty, failed, closed, released := false, false, false, false;
      disk := [];
      new;
      RecordCodecIsLawful(crc);
    }

    /** Replaces the contents of the active file. */
    method UpdateActive(f: File)
      requires Tied(State(), dir.entries, active)
      modifies this`disk, dir
      ensures Tied(State(), dir.entries, active) && State() == WithActive(old(State()), f)
    {
      hide SegmentName, Mirrors, Lawful, Implements;
      ActiveIsFile(State(), dir.entries, active);
      ActiveChanges(State(), dir.entries, active, f);
      ghost var l := State();
      dir.Update(active, f);
      disk := WithActive(l, f).disk;
    }

    method Sync(ok: bool)
      requires Tied(State(), dir.entries, active)
      modifies this, dir
      ensures Tied(State(), dir.entries, active) && active == old(active) && State() == LogSpec.Sync(old(State()), ok)
    {
      hide SegmentName, Mirrors, Lawful, Implements;
      if ok {
        ActiveIsFile(State(), dir.entries, active);
        UpdateActive(Flushed(dir.Contents(active)));
        dirty := false;
      } else {
        failed := true;
      }
    }

    method SyncIfDirty(ok: bool)
      requires Valid()
      modifies this, dir
      ensures Valid() && State() == Tick(old(State()), ok)
    {
      hide SegmentName, Mirrors, Lawful, Implements;
      if !dirty || failed || closed {
        return;
      }
      Sync(ok);
    }

    /** Returns whether the log can take a new segment's file. */
    method CreateSegment(first: nat, outcome: CreateOutcome) returns (ok: bool)
      requires Mirrors(dir.entries, disk) && first < INDEX_LIMIT && (disk != [] ==> Last(disk).first < first)
      modifies this`disk, dir
      ensures Mirrors(dir.entries, disk) && (disk, ok) == LogSpec.CreateSegment(old(disk), first, outcome)
    {
      hide SegmentName, Mirrors;
      FileAppended(dir.entries, disk, first);
      var created := dir.Create(SegmentName(first), !outcome.NotCreated?);
      if !created {
        return false;
      }
      disk := disk + [SegmentFile(first, EMPTY_FILE, false)];
      if outcome.NotLinked? {
        return false;
      }
      MirrorLinked(dir.entries, disk);
      dir.SyncDir();
      disk := DirectoryFlushed(disk);
      return true;
    }

    method Rotate(next: nat, io: AppendIO) returns (ok: bool)
      requires Valid() && !failed && activeSize > 0 && next == lastIndex + 1 < INDEX_LIMIT
      modifies this, dir
      ensures (State(), ok) == LogSpec.Rotate(old(State()), next, io)
      ensures ok ==> Valid() && !failed && lastIndex == old(lastIndex)
      ensures !ok ==> Formatted() && Tied(State(), dir.entries, active)
    {
      hide SegmentName, Mirrors, Lawful, Implements;
      if dirty {
        Sync(io.flush);
        if !io.flush {
          return false;
        }
      }
      if !io.close {
        return false;
      }
      ok := CreateSegment(next, io.create);
      if ok {
        segments := segments + [Segment(next, next - 1)];
        active, activeSize := SegmentName(next), 0;
      }
    }

    method Write(index: nat, record: Bytes, io: AppendIO) returns (r: AppendResult)
      requires Valid() && !failed && index == lastIndex + 1 && record != []
      modifies this, dir
      ensures Valid() && (State(), r) == WriteRecord(old(State()), index, record, io)
    {
      hide SegmentName, Lawful, Implements, Tied;
      ActiveIsFile(State(), dir.entries, active);
      if io.write.Short? {
        UpdateActive(Written(dir.Contents(active), record[..Least(io.write.written, |record|)]));
        SameFiles(State(), Fail(State()), dir.entries, active);
        failed := true;
        return Failed;
      }
      UpdateActive(Written(dir.Contents(active), record));
      ghost var before := State();
      activeSize, dirty := activeSize + |record|, true;
      SameFiles(before, State(), dir.entries, active);
      if cfg.fsync == Always {
        Sync(io.sync);
        if !io.sync {
          return Failed;
        }
      }
      before := State();
      lastIndex := index;
      segments := segments[|segments| - 1 := Last(segments).(last := index)];
      SameFiles(before, State(), dir.entries, active);
      return Acked(index);
    }

    method Encoded(index: nat, command: Bytes) returns (record: Bytes)
      requires Formatted()
      ensures record == k.enc(index, command) && record != []
    {
      var buf := EncodeRecord(crc, index, command);
      assert k.enc(index, command) == Encode(crc, index, command);
      return buf[..];
    }

    method Append(command: Bytes, io: AppendIO) returns (r: AppendResult)
      requires Valid() && lastIndex + 1 < INDEX_LIMIT
      modifies this, dir
      ensures Valid() && (State(), r) == LogSpec.Append(k, old(State()), command, io)
    {
      hide SegmentName, Mirrors, Lawful, Implements, Tied, LogSpec.Rotate, WriteRecord;
      if |command| > MAX_COMMAND_SIZE {
        return TooLarge;
      }
      if closed || failed {
        return Refused;
      }
      var index := lastIndex + 1;
      var record := Encoded(index, command);
      if activeSize > 0 && activeSize + |record| > cfg.segmentBytes {
        var ok := Rotate(index, io);
        if !ok {
          SameFiles(State(), Fail(State()), dir.entries, active);
          failed := true;
          return Failed;
        }
      }
      r := Write(index, record, io);
    }

    /** The first locked part of Close; returns whether this call is the one that closes the log. */
    method BeginClose() returns (mine: bool)
      requires Valid()
      modifies this`closed
      ensures Valid() && (State(), mine) == CloseBegin(old(State()))
    {
      hide SegmentName, Mirrors, Lawful, Implements;
      mine := !closed;
      closed := true;
    }

    /** Its second locked part, after the syncer has stopped. */
    method FinishClose(syncOk: bool, closeOk: bool) returns (ok: bool)
      requires Valid()
      modifies this, dir
      ensures Valid() && (State(), ok) == CloseFinish(old(State()), syncOk, closeOk)
    {
      hide SegmentName, Mirrors, Lawful, Implements;
      var synced := true;
      if !failed && dirty {
        Sync(syncOk);
        synced := syncOk;
      }
      released := true;
      return closeOk && synced;
    }

    // ---- Opening ----

    /**
     * recover: refuses a directory with other entries, untouched. Otherwise the
     * directory is a disk, and what becomes of it and of the log is what the
     * state machine says.
     */
    method Recover(io: OpenIO) returns (r: OpenResult, ghost found: Disk)
      requires Formatted() && Fields() == NewSession(cfg, [], 0, 0)
      modifies this, dir
      ensures !io.readable || !OnlySegments(old(dir.entries)) ==> r == IoError && dir.entries == old(dir.entries)
      ensures io.readable && OnlySegments(old(dir.entries)) ==>
                Mirrors(old(dir.entries), found) && (disk, r) == Open(k, cfg, found, io) && Mirrors(dir.entries, disk)
      ensures r.Opened? ==> Valid() && Fields() == r.log
    {
      hide SegmentName, ParseSegmentName, Mirrors, Lawful, Implements, Open;
      found := [];
      if !io.readable {
        return IoError, found;
      }
      var listing := dir.ReadDir();
      var listed := ListSegments(listing);
      Listed(dir.entries, listing);
      if listed.None? {
        return IoError, found;
      }
      var firsts := listed.value;
      FilesMirror(dir.entries, firsts);
      found := FilesOf(dir.entries, firsts);
      disk := found;
      if firsts == [] {
        r := StartFirstSegment(io);
      } else {
        r := VerifySegments(firsts, io);
      }
    }

    method StartFirstSegment(io: OpenIO) returns (r: OpenResult)
      requires Formatted() && Fields() == NewSession(cfg, [], 0, 0) && disk == [] && Mirrors(dir.entries, disk)
      requires io.readable
      modifies this, dir
      ensures (disk, r) == Open(k, cfg, [], io) && Mirrors(dir.entries, disk)
      ensures r.Opened? ==> Valid() && Fields() == r.log
    {
      hide SegmentName, Mirrors, Lawful, Implements;
      var ok := CreateSegment(1, io.create);
      if !ok {
        return IoError;
      }
      segments, active := [Segment(1, 0)], SegmentName(1);
      return Opened(Fields());
    }

    method VerifySegments(firsts: seq<nat>, io: OpenIO) returns (r: OpenResult)
      requires Formatted() && Fields() == NewSession(cfg, [], 0, 0) && Mirrors(dir.entries, disk)
      requires firsts != [] && |disk| == |firsts| && forall i :: 0 <= i < |firsts| ==> disk[i].first == firsts[i]
      requires io.readable
      modifies this, dir
      ensures (disk, r) == Open(k, cfg, old(disk), io) && Mirrors(dir.entries, disk)
      ensures r.Opened? ==> Valid() && Fields() == r.log
    {
      hide SegmentName, Mirrors, Lawful, Implements, Scan, ScanAll, Classify, Acceptable, SegmentsOf, Verified;
      ghost var d, rs := disk, ScanAll(k, disk);
      AreReadings(k, d);
      var segs: seq<Segment> := [];
      var next: nat, size, verdict := 0, 0, Healthy;
      ProgressStart(k, d, rs);
      for i := 0 to |firsts|
        invariant disk == d && dir.entries == old(dir.entries) && Fields() == NewSession(cfg, [], 0, 0)
        invariant Progress(k, d, rs, i, segs, next, size, verdict)
      {
        var first := firsts[i];
        if i > 0 && first != next {
          Refuses(k, cfg, d, rs, i, io);
          return Corrupted;
        }
        FileAt(dir.entries, d, i);
        JudgeIsVerdict(k, d, rs, i);
        if VerdictAt(k, d, rs, i) != Corrupt {
          ProgressStep(k, d, rs, i, segs, next, size, verdict);
        }
        var data := dir.Contents(SegmentName(first)).data;
        next, size, verdict := VerifySegment(crc, k, data, first, i == |firsts| - 1);
        if verdict == Corrupt {
          Refuses(k, cfg, d, rs, i, io);
          return Corrupted;
        }
        segs := segs + [Segment(first, next - 1)];
      }
      r := OpenLast(segs, size, verdict == TornTail, io, next, verdict);
    }

    /** Cuts a torn tail and flushes the cut. */
    method TruncateTail(name: string, size: nat, outcome: TruncateOutcome) returns (ok: bool)
      requires dir.IsFile(name) && size <= |dir.Contents(name).data|
      modifies dir
      ensures ok == outcome.CutAndFlushed?
      ensures var e := old(dir.entries)[name];
              var cut := Truncated(e.file, size);
              dir.entries == match outcome
                             case NotCut => old(dir.entries)
                             case NotFlushed => old(dir.entries)[name := Regular(cut, e.linked)]
                             case CutAndFlushed => old(dir.entries)[name := Regular(Flushed(cut), e.linked)]
    {
      if outcome.NotCut? {
        return false;
      }
      dir.Update(name, Truncated(dir.Contents(name), size));
      if outcome.NotFlushed? {
        return false;
      }
      dir.Update(name, Flushed(dir.Contents(name)));
      return true;
    }

    /** The end of recover: repairs the last segment and opens it for appending. */
    method OpenLast(segs: seq<Segment>, size: nat, torn: bool, io: OpenIO, ghost next: nat, ghost verdict: Verdict)
      returns (r: OpenResult)
      requires Formatted() && Fields() == NewSession(cfg, [], 0, 0) && Mirrors(dir.entries, disk) && disk != []
      requires Readings(k, disk, ScanAll(k, disk)) && io.readable && torn == (verdict == TornTail)
      requires Progress(k, disk, ScanAll(k, disk), |disk|, segs, next, size, verdict)
      modifies this, dir
      ensures (disk, r) == Open(k, cfg, old(disk), io) && Mirrors(dir.entries, disk)
      ensures r.Opened? ==> Valid() && Fields() == r.log
    {
      hide SegmentName, Mirrors, Lawful, Implements, Scan, ScanAll, Acceptable, SegmentsOf, Verified;
      ghost var d, rs := disk, ScanAll(k, disk);
      ghost var n := |d| - 1;
      assert d[..|d|] == d && rs[..|d|] == rs;
      SizeBound(k, d[n].file.data, d[n].first);
      ScanAllAt(k, d, n);
      LastSegment(d, rs);
      FileAt(dir.entries, d, n);
      var last := Last(segs);
      if torn {
        var ok := TruncateTail(SegmentName(last.first), size, io.truncate);
        if !io.truncate.NotCut? {
          ghost var cut := Truncated(d[n].file, size);
          ghost var f := if ok then Flushed(cut) else cut;
          MirrorUpdate(old(dir.entries), d, n, f);
          disk := d[n := d[n].(file := f)];
        }
        if !ok {
          return IoError;
        }
      }
      if !io.reopen {
        return IoError;
      }
      segments, active, activeSize, lastIndex := segs, SegmentName(last.first), size, last.last;
      return Opened(Fields());
    }

    // ---- Replay ----

    /**
     * Replay: contents[i] is what reading the file of segment i returns, if it can
     * be read, at some moment after the segment list was copied; the callback
     * fails in call number patience. Returns the calls made and whether all went
     * well.
     */
    method Replay(from: nat, contents: seq<Option<Bytes>>, patience: nat) returns (calls: seq<Call>, ok: bool)
      requires Formatted() && |contents| == |segments|
      ensures Replayed(calls, ok) == Interrupted(ReplayAll(k, segments, contents, from, lastIndex), patience)
    {
      hide Lawful, Implements, ReplaySegment, ReplayAll;
      var segs, last := segments, lastIndex;
      calls := [];
      NothingReplayed(k, segs, contents, from, last);
      for i := 0 to |segs|
        invariant ReplayAll(k, segs[..i], contents[..i], from, last) == Replayed(calls, true) && |calls| <= patience
      {
        ReplayNext(k, segs, contents, from, last, i);
        ReplayGrows(k, segs, contents, from, last, i + 1);
        var more, fine := ReplayFile(segs[i], from, last, contents[i], patience - |calls|);
        calls := calls + more;
        if !fine {
          if !ReplayAll(k, segs[..i + 1], contents[..i + 1], from, last).ok {
            ReplayStops(k, segs, contents, from, last, i + 1);
          }
          return calls, false;
        }
      }
      assert segs[..|segs|] == segs && contents[..|segs|] == contents;
      return calls, true;
    }

    method ReplayFile(seg: Segment, from: nat, last: int, content: Option<Bytes>, patience: nat)
      returns (calls: seq<Call>, ok: bool)
      requires Formatted()
      ensures Replayed(calls, ok) == Interrupted(ReplaySegment(k, content, seg, from, last), patience)
    {
      hide Lawful, Implements, ReplayRecords;
      calls := [];
      if seg.last < from || seg.first > last {
        return calls, true;
      }
      if content.None? {
        return calls, false;
      }
      var data := content.value;
      var end := if seg.last < last then seg.last else last;
      var offset: nat, want: nat := 0, seg.first;
      assert data[0..] == data;
      while want <= end
        invariant offset <= |data| && |calls| <= patience
        invariant ReplayRecords(k, data, seg.first, end, from)
               == After(calls, ReplayRecords(k, data[offset..], want, end, from))
        decreases end - want + 1
      {
        var d := k.dec(data[offset..]);
        if !d.Intact? || d.index != want {
          ReplayEnds(k, data[offset..], want, end, from, calls);
          return calls, false;
        }
        ReplayStep(k, data, offset, want, end, from, calls);
        offset, want := offset + d.size, want + 1;
        if d.index >= from {
          calls := calls + [(d.index, d.command)];
          if |calls| == patience + 1 {
            return calls, false;
          }
        }
      }
      ReplayEnds(k, data[offset..], want, end, from, calls);
      return calls, true;
    }
  }
}
