/** Replay: which calls it makes, when it reads files that may have grown since its snapshot. */
module LogReplay {
  import opened ByteStrings
  import opened Options
  import opened Sequences
  import opened Codecs
  import opened SegmentScan
  import opened Disks
  import opened LogSpec
  import opened LogInvariant
  import opened LogDurability
  import opened LogSessions
  import opened LogRuns

  /** A call of the callback: an index and its command. */
  type Call = (nat, Bytes)

  datatype Replayed = Replayed(calls: seq<Call>, ok: bool)

  /** The loop of replaySegment: the records want, ..., end at the start of data. */
  function ReplayRecords(k: Codec, data: Bytes, want: nat, end: int, from: nat): Replayed
    requires Lawful(k)
    decreases end - want + 1
  {
    if want > end then Replayed([], true)
    else
      var d := k.dec(data);
      if !d.Intact? || d.index != want then Replayed([], false)
      else
        PrintBack(k, data);
        var rest := ReplayRecords(k, data[d.size..], want + 1, end, from);
        Replayed((if want >= from then [(want, d.command)] else []) + rest.calls, rest.ok)
  }

  /** replaySegment, where content is what reading the file returns, if it can be read. */
  function ReplaySegment(k: Codec, content: Option<Bytes>, seg: Segment, from: nat, last: int): Replayed
    requires Lawful(k)
  {
    if seg.last < from || seg.first > last then Replayed([], true)
    else if content.None? then Replayed([], false)
    else ReplayRecords(k, content.value, seg.first, if seg.last < last then seg.last else last, from)
  }

  /** Replay over its snapshot of the segment list, contents[i] being what it reads from segment i. */
  function ReplayAll(k: Codec, segments: seq<Segment>, contents: seq<Option<Bytes>>, from: nat, last: int): Replayed
    requires Lawful(k) && |contents| == |segments|
  {
    if segments == [] then Replayed([], true)
    else
      var before := ReplayAll(k, Init(segments), Init(contents), from, last);
      if !before.ok then before
      else
        var r := ReplaySegment(k, Last(contents), Last(segments), from, last);
        Replayed(before.calls + r.calls, r.ok)
  }

  // ---- What it should do ----

  /** The calls for commands numbered from first, skipping indexes below from. */
  function Calls(first: nat, commands: seq<Bytes>, from: nat): seq<Call>
    decreases |commands|
  {
    if commands == [] then []
    else (if first >= from then [(first, commands[0])] else []) + Calls(first + 1, commands[1..], from)
  }

  /** That is: each index from the larger of first and from on, once, in order, with its command. */
  lemma {:induction false} CallsAre(first: nat, commands: seq<Bytes>, from: nat)
    ensures var start := if from < first then first else from;
            var calls := Calls(first, commands, from);
            && |calls| == (if start < first + |commands| then first + |commands| - start else 0)
            && forall i :: 0 <= i < |calls| ==> calls[i] == (start + i, commands[start + i - first])
    decreases |commands|
  {
    if commands != [] {
      CallsAre(first + 1, commands[1..], from);
      var start, calls := if from < first then first else from, Calls(first, commands, from);
      var rest := Calls(first + 1, commands[1..], from);
      forall i | 0 <= i < |calls|
        ensures calls[i] == (start + i, commands[start + i - first])
      {
        if first < from {
          assert calls[i] == rest[i];
        } else if i > 0 {
          assert calls[i] == rest[i - 1];
        }
      }
    }
  }

  lemma {:induction false} CallsConcat(first: nat, a: seq<Bytes>, b: seq<Bytes>, from: nat)
    ensures Calls(first, a + b, from) == Calls(first, a, from) + Calls(first + |a|, b, from)
    decreases |a|
  {
    if a == [] {
      assert a + b == b;
    } else {
      assert (a + b)[1..] == a[1..] + b;
      CallsConcat(first + 1, a[1..], b, from);
    }
  }

  // ---- What it does ----

  lemma {:induction false} ReplayEncoded(k: Codec, data: Bytes, first: nat, commands: seq<Bytes>, from: nat)
    requires Lawful(k) && AllStorable(first, commands) && EncodeAll(k, first, commands) <= data
    ensures ReplayRecords(k, data, first, first + |commands| - 1, from) == Replayed(Calls(first, commands, from), true)
    decreases |commands|
  {
    if commands != [] {
      var c, t := commands[0], commands[1..];
      var n := RECORD_OVERHEAD + |c|;
      var e, more := k.enc(first, c), EncodeAll(k, first + 1, t);
      assert e + more == EncodeAll(k, first, commands) <= data;
      assert e == (e + more)[..n] <= data && more == (e + more)[n..] <= data[n..];
      ReadBack(k, first, c, data);
      ReplayEncoded(k, data[n..], first + 1, t, from);
    }
  }

  lemma ReplayFile(k: Codec, data: Bytes, e: SegmentFile, commands: seq<Bytes>, from: nat, last: int)
    requires Lawful(k) && AllStorable(e.first, commands) && EncodeAll(k, e.first, commands) <= data
    requires e.first + |commands| - 1 <= last
    ensures ReplaySegment(k, Some(data), SegmentFor(e, commands), from, last)
         == Replayed(Calls(e.first, commands, from), true)
  {
    ReplayEncoded(k, data, e.first, commands, from);
    CallsAre(e.first, commands, from);
  }

  /** Consecutive files, of whose contents at least the records of parts is read. */
  ghost predicate Covers(k: Codec, d: Disk, parts: Parts, contents: seq<Option<Bytes>>) {
    && |d| == |parts| == |contents|
    && (d != [] ==>
          && Covers(k, Init(d), Init(parts), Init(contents))
          && Last(d).first == Following(Init(d), Init(parts))
          && AllStorable(Last(d).first, Last(parts))
          && Last(contents).Some? && EncodeAll(k, Last(d).first, Last(parts)) <= Last(contents).value)
  }

  lemma ReplaySnoc(
    k: Codec, segments: seq<Segment>, contents: seq<Option<Bytes>>, from: nat, last: int, a: seq<Call>, b: seq<Call>)
    requires Lawful(k) && |contents| == |segments| && segments != []
    requires ReplayAll(k, Init(segments), Init(contents), from, last) == Replayed(a, true)
    requires ReplaySegment(k, Last(contents), Last(segments), from, last) == Replayed(b, true)
    ensures ReplayAll(k, segments, contents, from, last) == Replayed(a + b, true)
  {
    hide ReplaySegment;
  }

  /** One more file, starting after the commands before. */
  lemma {:induction false} CoveredNext(
    k: Codec, d: Disk, parts: Parts, contents: seq<Option<Bytes>>, from: nat, last: int, before: seq<Bytes>)
    requires Lawful(k) && |d| == |parts| == |contents| && d != [] && Last(d).first == |before| + 1
    requires AllStorable(Last(d).first, Last(parts)) && Last(d).first + |Last(parts)| - 1 <= last
    requires Last(contents).Some? && EncodeAll(k, Last(d).first, Last(parts)) <= Last(contents).value
    requires ReplayAll(k, SegmentsFor(Init(d), Init(parts)), Init(contents), from, last)
          == Replayed(Calls(1, before, from), true)
    ensures ReplayAll(k, SegmentsFor(d, parts), contents, from, last)
         == Replayed(Calls(1, before + Last(parts), from), true)
  {
    hide EncodeAll, ReplayAll, ReplaySegment, AllStorable, Calls, Lawful;
    var segments := SegmentsFor(d, parts);
    ReplayFile(k, Last(contents).value, Last(d), Last(parts), from, last);
    CallsConcat(1, before, Last(parts), from);
    assert Init(segments) == SegmentsFor(Init(d), Init(parts));
    ReplaySnoc(k, segments, contents, from, last, Calls(1, before, from), Calls(Last(d).first, Last(parts), from));
  }

  lemma {:induction false} CoveredReplays(
    k: Codec, d: Disk, parts: Parts, contents: seq<Option<Bytes>>, from: nat, last: int)
    requires Lawful(k) && Covers(k, d, parts, contents) && Following(d, parts) - 1 <= last
    ensures ReplayAll(k, SegmentsFor(d, parts), contents, from, last) == Replayed(Calls(1, Flatten(parts), from), true)
    ensures |Flatten(parts)| == Following(d, parts) - 1
    decreases |d|
  {
    if d == [] {
      assert Calls(1, [], from) == [];
    } else {
      hide EncodeAll, ReplayAll, ReplaySegment, AllStorable, Calls, Lawful, SegmentsFor;
      CoveredReplays(k, Init(d), Init(parts), Init(contents), from, last);
      CoveredNext(k, d, parts, contents, from, last, Flatten(Init(parts)));
    }
  }

  /** Each file is read at some moment after the snapshot, when it holds at least what it held then. */
  ghost predicate ReadLater(d: Disk, contents: seq<Option<Bytes>>) {
    && |contents| <= |d|
    && forall i :: 0 <= i < |contents| ==> contents[i].Some? && d[i].file.data <= contents[i].value
  }

  lemma {:induction false} InnersCovered(k: Codec, d: Disk, parts: Parts, contents: seq<Option<Bytes>>)
    requires InnersOk(k, d, parts) && |contents| == |d| && ReadLater(d, contents)
    ensures Covers(k, d, parts, contents)
    decreases |d|
  {
    if d != [] {
      assert forall i :: 0 <= i < |d| - 1 ==> Init(d)[i] == d[i] && Init(contents)[i] == contents[i];
      InnersCovered(k, Init(d), Init(parts), Init(contents));
    }
  }

  lemma ListedCovered(k: Codec, d: Disk, h: History, contents: seq<Option<Bytes>>)
    requires DiskOk(k, d, h) && d != [] && Last(d).file.stale == [] && |contents| == |d| && ReadLater(d, contents)
    ensures Covers(k, d, h.parts, contents)
  {
    hide EncodeAll, InnersOk;
    assert forall i :: 0 <= i < |d| - 1 ==> Init(d)[i] == d[i] && Init(contents)[i] == contents[i];
    InnersCovered(k, Init(d), Init(h.parts), Init(contents));
  }

  /** The commands an open log counts are those of the files in its list. */
  lemma CountedCommands(k: Codec, l: Live, h: History)
    requires Lawful(k) && LiveOk(k, l, h)
    ensures Flatten(Init(h.parts)) + Last(h.parts) <= Commands(k, l.disk)
    ensures |Flatten(h.parts)| == l.log.lastIndex
  {
    hide EncodeAll, Scan, SegmentsFor;
    InnersHold(k, Init(l.disk), Init(h.parts));
    LastHolds(k, Last(l.disk), Last(h.parts), h.torn, h.inflight);
  }

  /** As long as every file can be read, replay makes the calls for the commands that its snapshot counts. */
  lemma ReplayCovers(k: Codec, l: Live, h: History, contents: seq<Option<Bytes>>, from: nat)
    requires Lawful(k) && LiveOk(k, l, h) && |contents| == |l.log.segments| && ReadLater(l.disk, contents)
    ensures 0 <= l.log.lastIndex <= |Commands(k, l.disk)|
    ensures ReplayAll(k, l.log.segments, contents, from, l.log.lastIndex)
         == Replayed(Calls(1, Commands(k, l.disk)[..l.log.lastIndex], from), true)
  {
    hide EncodeAll, ReplayAll, Calls, Commands, InnersOk;
    CountedCommands(k, l, h);
    assert Commands(k, l.disk)[..l.log.lastIndex] == Flatten(h.parts);
    if Agrees(k, l.log, l.disk, h.parts, h.torn) {
      ListedCovered(k, l.disk, h, contents);
      CoveredReplays(k, l.disk, h.parts, contents, from, l.log.lastIndex);
    } else {
      var d, parts := Init(l.disk), Init(h.parts);
      InnersCovered(k, d, parts, contents);
      CoveredReplays(k, d, parts, contents, from, l.log.lastIndex);
      assert Flatten(parts) + [] == Flatten(parts);
    }
  }

  // ---- While the log is used ----

  lemma {:induction false} InRangePrefix(k: Codec, l: Live, ops: seq<Operation>, n: nat)
    requires Shaped(l) && n <= |ops| && InRange(k, l, ops)
    ensures InRange(k, l, ops[..n])
    decreases n
  {
    hide Perform;
    if n > 0 {
      InRangePrefix(k, Perform(k, l, ops[0]), ops[1..], n - 1);
      assert ops[1..][..n - 1] == ops[..n][1..];
    }
  }

  /** File i is read after the first n of ops. */
  ghost predicate ReadAfter(k: Codec, l: Live, ops: seq<Operation>, n: nat, i: nat, content: Option<Bytes>)
    requires Shaped(l)
  {
    && n <= |ops|
    && var d := PerformAll(k, l, ops[..n]).disk;
       i < |d| && content == Some(d[i].file.data)
  }

  lemma FileGrows(d: Disk, d': Disk, i: nat)
    requires Extends(d, d') && i < |d|
    ensures d[i].file.data <= d'[i].file.data
  {
    if i < |d| - 1 {
      assert d'[i] == d'[..|d| - 1][i] == Init(d)[i];
    }
  }

  lemma ReadAfterIsLater(k: Codec, l: Live, h: History, ops: seq<Operation>, n: nat, i: nat, content: Option<Bytes>)
    requires LiveOk(k, l, h) && Shaped(l) && InRange(k, l, ops) && i < |l.disk| && ReadAfter(k, l, ops, n, i, content)
    ensures content.Some? && l.disk[i].file.data <= content.value
  {
    hide LiveOk, Extends, PerformAll, InRange;
    WithinEverything(h.parts);
    InRangePrefix(k, l, ops, n);
    var h' := SessionKeeps(k, l, h, ops[..n], Everything());
    FileGrows(l.disk, PerformAll(k, l, ops[..n]).disk, i);
  }

  /**
   * Replay takes effect at its snapshot. Let any operations ops follow it, and
   * let each file be read after some number of them. Then replay makes exactly
   * one call for each index from `from` to the last index at the moment of the
   * snapshot, in order, with the command at that index.
   */
  lemma ReplayIsSnapshot(
    k: Codec, l: Live, h: History, ops: seq<Operation>, moments: seq<nat>, contents: seq<Option<Bytes>>, from: nat)
    requires Lawful(k) && LiveOk(k, l, h) && Shaped(l) && InRange(k, l, ops)
    requires |contents| == |moments| == |l.log.segments|
    requires forall i :: 0 <= i < |moments| ==> ReadAfter(k, l, ops, moments[i], i, contents[i])
    ensures 0 <= l.log.lastIndex <= |Commands(k, l.disk)|
    ensures ReplayAll(k, l.log.segments, contents, from, l.log.lastIndex)
         == Replayed(Calls(1, Commands(k, l.disk)[..l.log.lastIndex], from), true)
  {
    hide LiveOk, ReplayAll, Calls, Commands, ReadAfter, InRange;
    forall i | 0 <= i < |contents|
      ensures contents[i].Some? && l.disk[i].file.data <= contents[i].value
    {
      ReadAfterIsLater(k, l, h, ops, moments[i], i, contents[i]);
    }
    ReplayCovers(k, l, h, contents, from);
  }

  /**
   * At any moment of any run, what replay passes to its calls is what the log's
   * opening found and what it acknowledged since: nothing that this opening wrote
   * in part, or wrote and did not acknowledge.
   */
  lemma RunReplays(
    k: Codec, events: seq<Event>, ops: seq<Operation>, moments: seq<nat>, contents: seq<Option<Bytes>>, from: nat)
    requires Lawful(k) && Disciplined(k, INITIAL, events) && Run(k, INITIAL, events).log.Some?
    requires var s := Run(k, INITIAL, events);
             var l := Live(s.disk, s.log.value);
             && InRange(k, l, ops) && |contents| == |moments| == |l.log.segments|
             && forall i :: 0 <= i < |moments| ==> ReadAfter(k, l, ops, moments[i], i, contents[i])
    ensures var log := Run(k, INITIAL, events).log.value;
            ReplayAll(k, log.segments, contents, from, log.lastIndex)
            == Replayed(Calls(1, Ledger(k, INITIAL, events, []), from), true)
  {
    hide StateOk, LiveOk, Within, Commands, Run, Ledger, Disciplined, ReplayAll, Calls, ReadAfter, InRange;
    var s, p := Run(k, INITIAL, events), Those(SentIn(events));
    var h := RunIsSound(k, events);
    StateParts(k, s, h);
    NothingAtFirst(k);
    InitialIsSound(k, p);
    RunCounts(k, INITIAL, events, [], p);
    ReplayIsSnapshot(k, Live(s.disk, s.log.value), h, ops, moments, contents, from);
  }

  // ---- Files that cannot be read ----

  /** Replay has to read the segment. */
  predicate Overlaps(seg: Segment, from: nat, last: int) {
    from <= seg.last && seg.first <= last
  }

  /** Some files could not be read, of which more would have been read from all. */
  lemma {:induction false} SomeUnread(
    k: Codec, segments: seq<Segment>, some: seq<Option<Bytes>>, all: seq<Option<Bytes>>, from: nat, last: int)
    requires Lawful(k) && |some| == |all| == |segments|
    requires forall i :: 0 <= i < |all| ==> all[i].Some? && (some[i].None? || some[i] == all[i])
    requires ReplayAll(k, segments, all, from, last).ok
    ensures var r := ReplayAll(k, segments, some, from, last);
            && r.calls <= ReplayAll(k, segments, all, from, last).calls
            && (r.ok <==> forall i :: 0 <= i < |segments| && Overlaps(segments[i], from, last) ==> some[i].Some?)
            && (r.ok ==> r.calls == ReplayAll(k, segments, all, from, last).calls)
    decreases |segments|
  {
    if segments != [] {
      hide Lawful, ReplayRecords;
      var n := |segments| - 1;
      assert forall i :: 0 <= i < n ==>
        Init(some)[i] == some[i] && Init(all)[i] == all[i] && Init(segments)[i] == segments[i];
      SomeUnread(k, Init(segments), Init(some), Init(all), from, last);
    }
  }

  /**
   * Replay ends without an error only if it could read every segment that its
   * range overlaps. Otherwise it has made the first of the calls and no others.
   */
  lemma UnreadableIsReported(k: Codec, l: Live, h: History, contents: seq<Option<Bytes>>, from: nat)
    requires Lawful(k) && LiveOk(k, l, h) && |contents| == |l.log.segments| <= |l.disk|
    requires forall i :: 0 <= i < |contents| ==> contents[i].None? || l.disk[i].file.data <= contents[i].value
    ensures 0 <= l.log.lastIndex <= |Commands(k, l.disk)|
    ensures var r := ReplayAll(k, l.log.segments, contents, from, l.log.lastIndex);
            var calls := Calls(1, Commands(k, l.disk)[..l.log.lastIndex], from);
            && r.calls <= calls && (r.ok ==> r.calls == calls)
            && (r.ok <==> forall i :: 0 <= i < |contents| && Overlaps(l.log.segments[i], from, l.log.lastIndex) ==>
                                        contents[i].Some?)
  {
    hide LiveOk, ReplayAll, Calls, Commands, Overlaps;
    var all := seq(|contents|, i requires 0 <= i < |contents| =>
      if contents[i].Some? then contents[i] else Some(l.disk[i].file.data));
    ReplayCovers(k, l, h, all, from);
    SomeUnread(k, l.log.segments, contents, all, from, l.log.lastIndex);
  }

  // ---- Errors of the callback ----

  /** The callback fails in call number patience, counting from 0. */
  function Interrupted(r: Replayed, patience: nat): Replayed {
    if |r.calls| > patience then Replayed(r.calls[..patience + 1], false) else r
  }

  /** It makes the calls up to that one, and reports an error if it made that one or there was an error anyway. */
  lemma InterruptedIs(r: Replayed, patience: nat)
    ensures var i := Interrupted(r, patience);
            && i.calls <= r.calls && |i.calls| == (if |r.calls| <= patience then |r.calls| else patience + 1)
            && (i.ok <==> r.ok && |r.calls| <= patience)
  {
  }
}
