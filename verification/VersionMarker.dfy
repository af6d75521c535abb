/**
 * The storage_version marker: the protocol that puts one into a new data
 * directory so that no crash can leave a partial one.
 */
module VersionMarker {
  import opened ByteStrings
  import opened Sequences
  import opened Disks
  import opened MarkerText

  // ---- The data directory ----

  const VERSION: string := "storage_version"
  const TEMPORARY: string := "storage_version.tmp"

  type View = map<string, nat>

  /**
   * Files, and the directory's entries: the last view is the current one, and
   * after a crash the directory may show any view since its last flush.
   */
  datatype DataDir = DataDir(files: seq<File>, views: seq<View>)

  const EMPTY_DIR: DataDir := DataDir([], [map[]])

  ghost predicate Valid(d: DataDir) {
    && d.views != [] && (forall v, name :: v in d.views && name in v ==> v[name] < |d.files|)
    && forall i :: 0 <= i < |d.files| ==> d.files[i].durable <= |d.files[i].data|
  }

  function Current(d: DataDir): View
    requires d.views != []
  {
    Last(d.views)
  }

  /** The outcomes of the system calls; written is how much a failed write put down. */
  datatype PrepareIO = PrepareIO(
    readable: bool, listable: bool, create: bool, write: bool, written: nat, sync: bool, close: bool, rename: bool,
    syncDir: bool)

  const ALL_WELL: PrepareIO := PrepareIO(true, true, true, true, 0, true, true, true, true)

  datatype PrepareResult = Ready | Incompatible | ForeignData | IoError

  /** Opens the temporary file, empty. */
  function OpenTemporary(d: DataDir): DataDir
    requires Valid(d)
  {
    var v := Current(d);
    if TEMPORARY in v then d.(files := d.files[v[TEMPORARY] := Truncated(d.files[v[TEMPORARY]], 0)])
    else DataDir(d.files + [EMPTY_FILE], d.views + [v[TEMPORARY := |d.files|]])
  }

  /** writeFileAtomic, for the marker. */
  function WriteMarker(d: DataDir, io: PrepareIO): (DataDir, PrepareResult)
    requires Valid(d)
  {
    if !io.create then (d, IoError)
    else
      var d1 := OpenTemporary(d);
      var v := Current(d1);
      var id := v[TEMPORARY];
      var n := if io.write || io.written > |MARKER| then |MARKER| else io.written;
      var f := Written(d1.files[id], MARKER[..n]);
      var d2 := d1.(files := d1.files[id := if io.sync then Flushed(f) else f]);
      if !io.write || !io.sync || !io.close || !io.rename then (d2, IoError)
      else
        var renamed := (v - {TEMPORARY})[VERSION := id];
        if !io.syncDir then (d2.(views := d2.views + [renamed]), IoError)
        else (d2.(views := [renamed]), Ready)
  }

  function Prepare(d: DataDir, io: PrepareIO): (DataDir, PrepareResult)
    requires Valid(d)
  {
    var v := Current(d);
    if !io.readable then (d, IoError)
    else if VERSION in v then
      (d, if CheckVersion(d.files[v[VERSION]].data) == Accepted then Ready else Incompatible)
    else if !io.listable then (d, IoError)
    else if v.Keys <= {TEMPORARY} then WriteMarker(d, io)
    else (d, ForeignData)
  }

  /** A crash: the directory shows view n, and each file some prefix that covers its durable bytes. */
  ghost predicate CrashAllowed(d: DataDir, n: nat, contents: seq<Bytes>) {
    && n < |d.views| && |contents| == |d.files|
    && forall i :: 0 <= i < |contents| ==>
         |contents[i]| >= d.files[i].durable && (contents[i] <= d.files[i].data || contents[i] <= d.files[i].stale)
  }

  function AfterCrash(d: DataDir, n: nat, contents: seq<Bytes>): DataDir
    requires n < |d.views|
  {
    DataDir(seq(|contents|, i requires 0 <= i < |contents| => File(contents[i], |contents[i]|, [])), [d.views[n]])
  }

  // ---- What an attempt answers ----

  /** The marker decides: a file of that name is left alone, and accepted exactly if it spells one. */
  lemma PrepareReads(d: DataDir, io: PrepareIO)
    requires Valid(d) && "storage_version" in Current(d) && io.readable
    ensures Prepare(d, io).0 == d
    ensures SpellsOne(d.files[Current(d)["storage_version"]].data) ==> Prepare(d, io).1 == Ready
    ensures !SpellsOne(d.files[Current(d)["storage_version"]].data) ==> Prepare(d, io).1 == Incompatible
  {
    AcceptedIff(d.files[Current(d)[VERSION]].data);
  }

  /** Without a marker, other entries decide; then the marker is written, or a system call fails. */
  lemma PrepareWrites(d: DataDir, io: PrepareIO)
    requires Valid(d) && "storage_version" !in Current(d)
    ensures var readable, ours := io.readable && io.listable, Current(d).Keys <= {"storage_version.tmp"};
            var written := io.create && io.write && io.sync && io.close && io.rename && io.syncDir;
            Prepare(d, io).1 == if !readable then IoError else if !ours then ForeignData
                                else if written then Ready else IoError
  {
  }

  /** If the marker cannot be read, or the directory has to be listed and cannot be, nothing happens. */
  lemma PrepareFails(d: DataDir, io: PrepareIO)
    requires Valid(d) && (!io.readable || (VERSION !in Current(d) && !io.listable))
    ensures Prepare(d, io) == (d, IoError)
  {
  }

  // ---- The invariant ----

  /** The view shows no marker, or a complete one. */
  ghost predicate MarkerWhole(d: DataDir, v: View)
    requires Valid(d) && v in d.views
  {
    VERSION in v ==> d.files[v[VERSION]] == File(MARKER, |MARKER|, [])
  }

  /** No view shows a partial marker, and a marker once shown stays. */
  ghost predicate Consistent(d: DataDir) {
    && Valid(d)
    && (forall v :: v in d.views ==> MarkerWhole(d, v))
    && (VERSION !in Current(d) ==> forall v :: v in d.views ==> VERSION !in v)
  }

  /** Every crash leaves a marker. */
  ghost predicate Marked(d: DataDir) {
    forall v :: v in d.views ==> VERSION in v
  }

  /** There is nothing in the directory but the marker and its temporary file. */
  ghost predicate OnlyOurs(d: DataDir) {
    forall v :: v in d.views ==> v.Keys <= {TEMPORARY, VERSION}
  }

  lemma OpenKeeps(d: DataDir)
    requires Valid(d) && forall v :: v in d.views ==> VERSION !in v
    ensures var d1 := OpenTemporary(d);
            && Valid(d1) && TEMPORARY in Current(d1) && d1.files[Current(d1)[TEMPORARY]].data == []
            && (forall v :: v in d1.views ==> VERSION !in v)
            && (OnlyOurs(d) ==> OnlyOurs(d1))
  {
    var d1 := OpenTemporary(d);
    assert Current(d) in d.views;
    assert forall v :: v in d1.views ==> v in d.views || v == Current(d1);
  }

  lemma WriteKeeps(d: DataDir, io: PrepareIO)
    requires Consistent(d) && VERSION !in Current(d)
    ensures Consistent(WriteMarker(d, io).0)
    ensures OnlyOurs(d) ==> OnlyOurs(WriteMarker(d, io).0)
    ensures WriteMarker(d, io).1 == Ready ==> Marked(WriteMarker(d, io).0)
    ensures io == ALL_WELL ==> WriteMarker(d, io).1 == Ready
  {
    hide OpenTemporary;
    OpenKeeps(d);
    assert Current(OpenTemporary(d)) in OpenTemporary(d).views;
    assert MARKER[..|MARKER|] == MARKER && [] + MARKER == MARKER;
  }

  /** Preparing the directory, however it ends, keeps it consistent, and touches none but its own entries. */
  lemma PrepareKeeps(d: DataDir, io: PrepareIO)
    requires Consistent(d)
    ensures Consistent(Prepare(d, io).0)
    ensures OnlyOurs(d) ==> OnlyOurs(Prepare(d, io).0)
  {
    if VERSION !in Current(d) {
      WriteKeeps(d, io);
    }
  }

  /** So does a crash at any moment; what it leaves of a marker is all of it or nothing. */
  lemma CrashKeeps(d: DataDir, n: nat, contents: seq<Bytes>)
    requires Consistent(d) && CrashAllowed(d, n, contents)
    ensures var d' := AfterCrash(d, n, contents);
            && Consistent(d') && (OnlyOurs(d) ==> OnlyOurs(d')) && (Marked(d) ==> Marked(d'))
            && (VERSION in Current(d') ==> d'.files[Current(d')[VERSION]].data == MARKER)
  {
    var d' := AfterCrash(d, n, contents);
    var v := d.views[n];
    assert v in d.views && d'.views == [v];
    if VERSION in v {
      assert MarkerWhole(d, v);
      var id := v[VERSION];
      assert contents[id] == MARKER;
      assert d'.files[id] == File(MARKER, |MARKER|, []);
    }
  }

  // ---- Runs ----

  /**
   * Another entry appears, as when the log and the engine are created. It is not
   * flushed, and may reach the disk before changes that were made earlier.
   */
  function WithEntry(d: DataDir, name: string): DataDir
    requires Valid(d)
  {
    DataDir(d.files + [EMPTY_FILE],
            d.views + seq(|d.views|, i requires 0 <= i < |d.views| => d.views[i][name := |d.files|]))
  }

  datatype Event = Attempt(io: PrepareIO) | PowerLoss(view: nat, contents: seq<Bytes>) | Data(name: string)

  /** A crash that cannot happen, and data that is there already or that is not data, change nothing. */
  ghost function Step(d: DataDir, e: Event): DataDir
    requires Valid(d)
  {
    match e
    case Attempt(io) => Prepare(d, io).0
    case PowerLoss(n, contents) => if CrashAllowed(d, n, contents) then AfterCrash(d, n, contents) else d
    case Data(name) => if name in Current(d) || name == VERSION || name == TEMPORARY then d else WithEntry(d, name)
  }

  lemma EntryViews(d: DataDir, name: string)
    requires Valid(d)
    ensures var d' := WithEntry(d, name);
            && d'.views != [] && Current(d') == Current(d)[name := |d.files|] && d'.files == d.files + [EMPTY_FILE]
            && (forall v :: v in d.views ==> v in d'.views && v[name := |d.files|] in d'.views)
            && (forall v :: v in d'.views ==> v in d.views || exists u :: u in d.views && v == u[name := |d.files|])
  {
    var d' := WithEntry(d, name);
    forall v | v in d.views
      ensures v in d'.views && v[name := |d.files|] in d'.views
    {
      var i :| 0 <= i < |d.views| && d.views[i] == v;
      assert d'.views[i] == v && d'.views[|d.views| + i] == v[name := |d.files|];
    }
  }

  lemma EntryKeeps(d: DataDir, name: string)
    requires Consistent(d) && name != VERSION
    ensures Consistent(WithEntry(d, name)) && (Marked(WithEntry(d, name)) <==> Marked(d))
  {
    hide WithEntry;
    EntryViews(d, name);
    assert forall v :: v in d.views ==> MarkerWhole(d, v);
  }

  lemma StepKeeps(d: DataDir, e: Event)
    requires Consistent(d)
    ensures Consistent(Step(d, e)) && (Marked(d) ==> Marked(Step(d, e)))
  {
    hide Prepare, WithEntry, Marked;
    match e
    case Attempt(io) =>
      PrepareKeeps(d, io);
      if Marked(d) {
        MarkedIsPrepared(d, io);
      }
    case PowerLoss(n, contents) =>
      if CrashAllowed(d, n, contents) {
        CrashKeeps(d, n, contents);
      }
    case Data(name) =>
      if name != VERSION {
        EntryKeeps(d, name);
      }
  }

  lemma MarkedIsPrepared(d: DataDir, io: PrepareIO)
    requires Consistent(d) && Marked(d)
    ensures Prepare(d, io).0 == d
  {
    assert Current(d) in d.views;
  }

  /** Attempts to prepare the directory, failures, crashes and data in between. */
  ghost function Run(d: DataDir, events: seq<Event>): (r: DataDir)
    requires Consistent(d)
    ensures Consistent(r) && (Marked(d) ==> Marked(r))
    decreases |events|
  {
    if events == [] then d
    else
      var before := Run(d, Init(events));
      StepKeeps(before, Last(events));
      Step(before, Last(events))
  }

  lemma EmptyIsConsistent()
    ensures Consistent(EMPTY_DIR) && OnlyOurs(EMPTY_DIR)
  {
  }

  /** A run that starts with a new directory. */
  ghost function FromEmpty(events: seq<Event>): (r: DataDir)
    ensures Consistent(r)
  {
    EmptyIsConsistent();
    Run(EMPTY_DIR, events)
  }

  // ---- What a success is worth ----

  /**
   * Once an attempt that found no marker succeeds, no run ever shows a view of the
   * directory without the whole marker.
   */
  lemma SuccessIsForever(d: DataDir, io: PrepareIO, after: seq<Event>)
    requires Consistent(d) && VERSION !in Current(d) && Prepare(d, io).1 == Ready
    ensures Consistent(Prepare(d, io).0)
    ensures var r := Run(Prepare(d, io).0, after);
            forall v :: v in r.views ==>
              "storage_version" in v && r.files[v["storage_version"]] == File([0x31, 0x0A], 2, [])
  {
    PrepareKeeps(d, io);
    WriteKeeps(d, io);
    var r := Run(Prepare(d, io).0, after);
    assert forall v :: v in r.views ==> MarkerWhole(r, v);
  }

  /** There is data in the view. */
  predicate HasData(v: View) {
    !(v.Keys <= {TEMPORARY, VERSION})
  }

  /** Every view shows data and no marker. */
  ghost predicate Foreign(d: DataDir) {
    forall v :: v in d.views ==> HasData(v) && VERSION !in v
  }

  lemma StepLeavesForeign(d: DataDir, e: Event)
    requires Consistent(d) && Foreign(d)
    ensures Foreign(Step(d, e))
    ensures e.Attempt? ==> Step(d, e) == d && Prepare(d, e.io).1 != Ready
  {
    assert Current(d) in d.views;
    if e.Data? {
      EntryViews(d, e.name);
    }
  }

  /** A directory with data and no marker never receives one, and is never accepted, whatever happens. */
  lemma {:induction false} ForeignDataIsLeftAlone(d: DataDir, events: seq<Event>, io: PrepareIO)
    requires Consistent(d) && Foreign(d)
    ensures Foreign(Run(d, events)) && Prepare(Run(d, events), io).1 != Ready
    decreases |events|
  {
    if events != [] {
      ForeignDataIsLeftAlone(d, Init(events), io);
      StepLeavesForeign(Run(d, Init(events)), Last(events));
    }
    StepLeavesForeign(Run(d, events), Attempt(io));
  }

  // ---- The marker that was not flushed ----

  /** Everything succeeds but the directory flush. */
  predicate AllButFlush(io: PrepareIO) {
    io.readable && io.listable && io.create && io.write && io.sync && io.close && io.rename && !io.syncDir
  }

  /** No crash takes the marker away. */
  ghost predicate Survives(d: DataDir) {
    && d.views != []
    && forall n: nat, contents :: CrashAllowed(d, n, contents) ==> VERSION in Current(AfterCrash(d, n, contents))
  }

  /** The contents of each file, all of it. */
  ghost function AsWritten(files: seq<File>): seq<Bytes> {
    seq(|files|, i requires 0 <= i < |files| => files[i].data)
  }

  lemma AnyViewMayStay(d: DataDir, v: View) returns (n: nat, contents: seq<Bytes>)
    requires Valid(d) && v in d.views
    ensures CrashAllowed(d, n, contents) && Current(AfterCrash(d, n, contents)) == v
  {
    n :| 0 <= n < |d.views| && d.views[n] == v;
    contents := AsWritten(d.files);
  }

  lemma SurvivesIff(d: DataDir)
    requires Valid(d)
    ensures Survives(d) <==> Marked(d)
  {
    if Marked(d) {
      forall n: nat, contents | CrashAllowed(d, n, contents)
        ensures VERSION in Current(AfterCrash(d, n, contents))
      {
        assert d.views[n] in d.views;
      }
    } else {
      var v :| v in d.views && VERSION !in v;
      var n, contents := AnyViewMayStay(d, v);
    }
  }

  /** What an attempt that finds no marker and no data leaves. */
  lemma AttemptLeaves(d: DataDir, io: PrepareIO)
    requires Consistent(d) && VERSION !in Current(d)
    ensures var d' := Prepare(d, io).0;
            var ours := Current(d).Keys <= {TEMPORARY};
            && (VERSION in Current(d') <==> ours && (AllButFlush(io) || Prepare(d, io).1 == Ready))
            && (Marked(d') <==> Prepare(d, io).1 == Ready)
            && (AllButFlush(io) ==> Prepare(d, io).1 != Ready)
  {
    hide OpenTemporary;
    OpenKeeps(d);
    var d' := Prepare(d, io).0;
    assert Current(d) in d.views && Current(OpenTemporary(d)) in OpenTemporary(d).views;
    assert d.views[0] in d.views && d'.views[0] in d'.views;
  }

  lemma MarkerIsReady(d: DataDir)
    requires Consistent(d) && VERSION in Current(d)
    ensures Prepare(d, ALL_WELL) == (d, Ready)
  {
    assert Current(d) in d.views && MarkerWhole(d, Current(d));
    MarkerIsAccepted();
  }

  /**
   * After any attempt on a directory without marker and data, an attempt that
   * meets no failure succeeds. The marker it accepts survives every crash if and
   * only if the first attempt did not fail in its very last call, the directory
   * flush.
   */
  lemma AcceptedIsDurableIff(d: DataDir, io: PrepareIO)
    requires Consistent(d) && OnlyOurs(d) && VERSION !in Current(d)
    ensures Consistent(Prepare(d, io).0)
    ensures var (d', result) := Prepare(Prepare(d, io).0, ALL_WELL);
            result == Ready && (Survives(d') <==> !AllButFlush(io))
  {
    hide WriteMarker, Survives, Marked;
    assert Current(d) in d.views;
    PrepareKeeps(d, io);
    AttemptLeaves(d, io);
    var d1 := Prepare(d, io).0;
    assert Current(d1) in d1.views;
    if VERSION in Current(d1) {
      MarkerIsReady(d1);
      SurvivesIff(d1);
    } else {
      WriteKeeps(d1, ALL_WELL);
      SurvivesIff(Prepare(d1, ALL_WELL).0);
    }
  }

  /** The marker was put in place by an attempt that failed in its directory flush, and there was no crash since. */
  ghost predicate Pending(events: seq<Event>)
    decreases |events|
  {
    events != [] &&
      var d := FromEmpty(Init(events));
      match Last(events)
      case Attempt(io) => Pending(Init(events)) || (Current(d).Keys <= {TEMPORARY} && AllButFlush(io))
      case PowerLoss(n, contents) => Pending(Init(events)) && !CrashAllowed(d, n, contents)
      case Data(_) => Pending(Init(events))
  }

  lemma StepPends(d: DataDir, e: Event)
    requires Consistent(d)
    ensures var d' := Step(d, e);
            var pending := VERSION in Current(d) && !Marked(d);
            VERSION in Current(d') && !Marked(d') <==>
            match e
            case Attempt(io) => pending || (Current(d).Keys <= {TEMPORARY} && AllButFlush(io))
            case PowerLoss(n, contents) => pending && !CrashAllowed(d, n, contents)
            case Data(_) => pending
  {
    match e
    case Attempt(io) =>
      hide WriteMarker, Marked;
      if VERSION !in Current(d) {
        AttemptLeaves(d, io);
      }
    case PowerLoss(n, contents) =>
    case Data(name) =>
      if name != VERSION {
        EntryViews(d, name);
        EntryKeeps(d, name);
      }
  }

  /** After any run, a marker is in place that a crash can take away if and only if its directory flush is pending. */
  lemma {:induction false} UnflushedIffPending(events: seq<Event>)
    ensures var d := FromEmpty(events);
            Pending(events) <==> VERSION in Current(d) && !Survives(d)
    decreases |events|
  {
    hide Survives, Marked;
    if events == [] {
      assert VERSION !in Current(EMPTY_DIR);
    } else {
      UnflushedIffPending(Init(events));
      SurvivesIff(FromEmpty(Init(events)));
      StepPends(FromEmpty(Init(events)), Last(events));
      SurvivesIff(FromEmpty(events));
    }
  }

  /**
   * Data put beside a marker can be found without it after a crash, and then is
   * refused for good, if and only if the marker's directory flush is pending.
   */
  lemma DataWithoutMarkerIff(events: seq<Event>, name: string)
    requires var v := Current(FromEmpty(events));
             VERSION in v && name !in v && name != VERSION && name != TEMPORARY
    ensures var d := Step(FromEmpty(events), Data(name));
            Pending(events) <==>
            exists n: nat, contents ::
              && CrashAllowed(d, n, contents)
              && Consistent(AfterCrash(d, n, contents)) && Foreign(AfterCrash(d, n, contents))
  {
    hide Pending, Survives, Run, MarkerWhole, WithEntry;
    var d0 := FromEmpty(events);
    var d := Step(d0, Data(name));
    UnflushedIffPending(events);
    SurvivesIff(d0);
    EntryViews(d0, name);
    EntryKeeps(d0, name);
    if Pending(events) {
      var v :| v in d0.views && VERSION !in v;
      var u := v[name := |d0.files|];
      var n, contents := AnyViewMayStay(d, u);
      CrashKeeps(d, n, contents);
      assert AfterCrash(d, n, contents).views == [u] && name in u;
    } else {
      forall n: nat, contents | CrashAllowed(d, n, contents)
        ensures !Foreign(AfterCrash(d, n, contents))
      {
        CrashKeeps(d, n, contents);
        var v := AfterCrash(d, n, contents).views[0];
        assert v in AfterCrash(d, n, contents).views;
      }
    }
  }

  /** One attempt whose directory flush fails gets there. */
  lemma UnflushedMarkerIsAccepted()
    ensures var events := [Attempt(ALL_WELL.(syncDir := false))];
            Pending(events) && Prepare(FromEmpty(events), ALL_WELL) == (FromEmpty(events), Ready)
  {
    var events := [Attempt(ALL_WELL.(syncDir := false))];
    assert Init(events) == [] && FromEmpty([]) == EMPTY_DIR;
    UnflushedIffPending(events);
    MarkerIsReady(FromEmpty(events));
  }

  // ---- Convergence ----

  /** Data is put into the directory only once its marker cannot be lost. */
  ghost predicate Careful(events: seq<Event>)
    decreases |events|
  {
    events != [] ==>
      Careful(Init(events)) && (Last(events).Data? ==> Survives(FromEmpty(Init(events))))
  }

  lemma StepIsCareful(d: DataDir, e: Event)
    requires Consistent(d) && (OnlyOurs(d) || Marked(d)) && (e.Data? ==> Marked(d))
    ensures OnlyOurs(Step(d, e)) || Marked(Step(d, e))
  {
    hide Prepare, WithEntry, MarkerWhole, Marked;
    if Marked(d) {
      StepKeeps(d, e);
    } else {
      match e
      case Attempt(io) => PrepareKeeps(d, io);
      case PowerLoss(n, contents) =>
        if CrashAllowed(d, n, contents) {
          CrashKeeps(d, n, contents);
        }
    }
  }

  lemma {:induction false} CarefulRun(events: seq<Event>)
    requires Careful(events)
    ensures OnlyOurs(FromEmpty(events)) || Marked(FromEmpty(events))
    decreases |events|
  {
    hide Survives, Step, OnlyOurs, Marked;
    EmptyIsConsistent();
    if events != [] {
      CarefulRun(Init(events));
      SurvivesIff(FromEmpty(Init(events)));
      StepIsCareful(FromEmpty(Init(events)), Last(events));
    }
  }

  /**
   * Starting from an empty directory, whatever failures and crashes came before,
   * the next attempt that meets none succeeds.
   */
  lemma InitializationConverges(events: seq<Event>)
    requires Careful(events)
    ensures Prepare(FromEmpty(events), ALL_WELL).1 == Ready
  {
    hide WriteMarker;
    var d := FromEmpty(events);
    CarefulRun(events);
    assert Current(d) in d.views;
    if VERSION in Current(d) {
      MarkerIsReady(d);
    } else {
      WriteKeeps(d, ALL_WELL);
    }
  }

  // ---- The program ----

  /** A data directory that PrepareDataDir changes in place. */
  class DataDirectory {
    var files: seq<File>
    var views: seq<View>

    ghost function State(): DataDir
      reads this
    {
      DataDir(files, views)
    }

    method PrepareDataDir(io: PrepareIO) returns (r: PrepareResult)
      requires Valid(State())
      modifies this
      ensures (State(), r) == Prepare(old(State()), io)
    {
      var current := Current(DataDir(files, views));
      if !io.readable {
        return IoError;
      }
      if VERSION in current {
        var verdict := CheckVersion(files[current[VERSION]].data);
        return if verdict == Accepted then Ready else Incompatible;
      }
      r := InitializeDataDir(io);
    }

    method InitializeDataDir(io: PrepareIO) returns (r: PrepareResult)
      requires Valid(State()) && VERSION !in Current(State())
      modifies this
      ensures (State(), r) == if !io.listable then (old(State()), IoError)
                              else if old(Current(State())).Keys <= {TEMPORARY} then WriteMarker(old(State()), io)
                              else (old(State()), ForeignData)
    {
      if !io.listable {
        return IoError;
      }
      var all := Current(DataDir(files, views)).Keys;
      var entries := all;
      while entries != {}
        invariant entries <= all && all - entries <= {TEMPORARY}
        decreases |entries|
      {
        var name :| name in entries;
        if name != TEMPORARY {
          return ForeignData;
        }
        entries := entries - {name};
      }
      r := WriteFileAtomic(io);
    }

    method WriteFileAtomic(io: PrepareIO) returns (r: PrepareResult)
      requires Valid(State())
      modifies this
      ensures (State(), r) == WriteMarker(old(State()), io)
    {
      if !io.create {
        return IoError;
      }
      var current := Current(DataDir(files, views));
      if TEMPORARY in current {
        files := files[current[TEMPORARY] := Truncated(files[current[TEMPORARY]], 0)];
      } else {
        current := current[TEMPORARY := |files|];
        files, views := files + [EMPTY_FILE], views + [current];
      }
      var id := current[TEMPORARY];
      var n := if io.write || io.written > |MARKER| then |MARKER| else io.written;
      ghost var before := files;
      files := files[id := Written(files[id], MARKER[..n])];
      if io.sync {
        files := files[id := Flushed(files[id])];
      }
      ghost var f := Written(before[id], MARKER[..n]);
      assert files == before[id := if io.sync then Flushed(f) else f];
      if !io.write || !io.sync || !io.close {
        return IoError;
      }
      if !io.rename {
        return IoError;
      }
      var renamed := (current - {TEMPORARY})[VERSION := id];
      views := views + [renamed];
      if !io.syncDir {
        return IoError;
      }
      views := [renamed];
      return Ready;
    }
  }
}
