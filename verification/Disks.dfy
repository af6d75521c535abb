/**
 * The file system as the log sees it. A write or a truncation is visible at
 * once and durable only after an fsync; a new directory entry is durable only
 * after the directory is flushed.
 */
module Disks {
  import opened ByteStrings
  import opened Sequences
  import opened Codecs
  import opened SegmentScan

  /**
   * data is what reads return, the first durable bytes of it are on disk for
   * certain, and stale is the longer content that an unflushed truncation may
   * still leave there (empty when there is none).
   */
  datatype File = File(data: Bytes, durable: nat, stale: Bytes)

  const EMPTY_FILE: File := File([], 0, [])

  function Written(f: File, bytes: Bytes): File {
    f.(data := f.data + bytes)
  }

  function Flushed(f: File): File {
    File(f.data, |f.data|, [])
  }

  function Truncated(f: File, size: nat): File
    requires size <= |f.data|
  {
    File(f.data[..size], if f.durable < size then f.durable else size, if f.stale == [] then f.data else f.stale)
  }

  /** Nothing about the file depends on a later flush. */
  predicate Settled(f: File) {
    f.durable == |f.data| && f.stale == []
  }

  /** A segment file; linked says that its directory entry is durable. */
  datatype SegmentFile = SegmentFile(first: nat, file: File, linked: bool)

  /** The log directory, in index order. */
  type Disk = seq<SegmentFile>

  ghost predicate Sorted(d: Disk) {
    forall i, j :: 0 <= i < j < |d| ==> d[i].first < d[j].first
  }

  /** The machine could stop now and nothing would be lost. */
  ghost predicate AllDurable(d: Disk) {
    d != [] ==> AllDurable(Init(d)) && Last(d).linked && Settled(Last(d).file)
  }

  /** Adds a file at its place in the order. */
  function Insert(d: Disk, e: SegmentFile): Disk {
    if d == [] || Last(d).first < e.first then d + [e]
    else Insert(Init(d), e) + [Last(d)]
  }

  predicate Exists(d: Disk, first: nat) {
    exists i :: 0 <= i < |d| && d[i].first == first
  }

  function DirectoryFlushed(d: Disk): Disk {
    seq(|d|, i requires 0 <= i < |d| => d[i].(linked := true))
  }

  // ---- Machine crashes ----

  datatype Fate = Lost | Kept(data: Bytes)

  /**
   * What a crash may leave of one file: some prefix that covers the durable bytes,
   * or nothing of an unflushed entry.
   */
  ghost predicate FateAllowed(e: SegmentFile, fate: Fate) {
    match fate
    case Lost => !e.linked
    case Kept(q) => |q| >= e.file.durable && (q <= e.file.data || q <= e.file.stale)
  }

  ghost predicate CrashAllowed(d: Disk, fates: seq<Fate>) {
    && |fates| == |d|
    && (d != [] ==> CrashAllowed(Init(d), Init(fates)) && FateAllowed(Last(d), Last(fates)))
  }

  function Survivor(e: SegmentFile, fate: Fate): Disk {
    match fate
    case Lost => []
    case Kept(q) => [SegmentFile(e.first, File(q, |q|, []), true)]
  }

  function AfterCrash(d: Disk, fates: seq<Fate>): Disk
    requires |fates| == |d|
  {
    if d == [] then []
    else AfterCrash(Init(d), Init(fates)) + Survivor(Last(d), Last(fates))
  }

  /** What survived a crash is on disk. */
  lemma {:induction false} SurvivorsAreDurable(d: Disk, fates: seq<Fate>)
    requires |fates| == |d|
    ensures AllDurable(AfterCrash(d, fates))
    decreases |d|
  {
    if d != [] {
      SurvivorsAreDurable(Init(d), Init(fates));
      var a, b := AfterCrash(Init(d), Init(fates)), Survivor(Last(d), Last(fates));
      if b == [] {
        assert a + b == a;
      } else {
        assert Init(a + b) == a;
      }
    }
  }

  // ---- What a disk holds ----

  /** The commands a reader finds, segment by segment. */
  function Commands(k: Codec, d: Disk): seq<Bytes>
    requires Lawful(k)
  {
    if d == [] then []
    else Commands(k, Init(d)) + Scan(k, Last(d).file.data, Last(d).first).commands
  }

  /** The bytes of a file that no crash can take away. */
  function SafeBytes(e: SegmentFile): Bytes {
    if !e.linked then []
    else if e.file.durable <= |e.file.data| then e.file.data[..e.file.durable]
    else e.file.data
  }

  /** The commands covered by a completed fsync. */
  function SafeCommands(k: Codec, d: Disk): seq<Bytes>
    requires Lawful(k)
  {
    if d == [] then []
    else SafeCommands(k, Init(d)) + Scan(k, SafeBytes(Last(d)), Last(d).first).commands
  }
}
