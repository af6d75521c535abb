/** The log's directory as the program uses it: entries with names, changed in place. */
module Directories {
  import opened ByteStrings
  import opened SegmentNames
  import opened Disks

  /** linked says that the entry is durable. */
  datatype Entry = Regular(file: File, linked: bool) | Irregular

  type Entries = map<string, Entry>

  class Directory {
    var entries: Entries

    constructor ()
      ensures entries == map[]
    {
      entries := map[];
    }

    predicate IsFile(name: string)
      reads this
    {
      name in entries && entries[name].Regular?
    }

    function Contents(name: string): File
      requires IsFile(name)
      reads this
    {
      entries[name].file
    }

    /** Opens with O_CREATE and O_EXCL: never an existing file. */
    method Create(name: string, ok: bool) returns (created: bool)
      modifies this
      ensures created == (ok && name !in old(entries))
      ensures entries == if created then old(entries)[name := Regular(EMPTY_FILE, false)] else old(entries)
    {
      created := ok && name !in entries;
      if created {
        entries := entries[name := Regular(EMPTY_FILE, false)];
      }
    }

    method Update(name: string, file: File)
      requires IsFile(name)
      modifies this
      ensures entries == old(entries)[name := Regular(file, old(entries)[name].linked)]
    {
      entries := entries[name := entries[name].(file := file)];
    }

    method SyncDir()
      modifies this
      ensures entries == Linked(old(entries))
    {
      entries := Linked(entries);
    }

    /** The entries, in no particular order. */
    method ReadDir() returns (r: seq<DirEntry>)
      ensures DistinctNames(r)
      ensures forall e :: e in r <==> e.name in entries && e.regular == entries[e.name].Regular?
    {
      r := [];
      var names := entries.Keys;
      while names != {}
        invariant names <= entries.Keys && DistinctNames(r)
        invariant forall e :: e in r <==> e.name in entries.Keys - names && e.regular == entries[e.name].Regular?
        decreases |names|
      {
        var name :| name in names;
        assert forall e :: e in r ==> e.name != name;
        r := r + [DirEntry(name, entries[name].Regular?)];
        names := names - {name};
      }
    }
  }

  function Linked(m: Entries): Entries {
    map name | name in m :: if m[name].Regular? then m[name].(linked := true) else m[name]
  }

  // ---- Directories and disks ----

  predicate Holds(m: Entries, e: SegmentFile) {
    var name := SegmentName(e.first);
    e.first < INDEX_LIMIT && name in m && m[name] == Regular(e.file, e.linked)
  }

  /** The directory holds the files of d under their names, and nothing else. */
  ghost predicate Mirrors(m: Entries, d: Disk) {
    && Sorted(d)
    && (forall i :: 0 <= i < |d| ==> Holds(m, d[i]))
    && (forall name :: name in m ==> Named(d, name))
  }

  predicate Named(d: Disk, name: string) {
    exists i :: 0 <= i < |d| && name == SegmentName(d[i].first)
  }

  /** Every entry is a segment file. */
  ghost predicate OnlySegments(m: Entries) {
    forall name :: name in m ==> m[name].Regular? && ParseSegmentName(name).Some?
  }

  /** The segment files with the given first indexes. */
  ghost function FilesOf(m: Entries, firsts: seq<nat>): (d: Disk)
    requires forall i :: 0 <= i < |firsts| ==> SegmentName(firsts[i]) in m && m[SegmentName(firsts[i])].Regular?
    ensures |d| == |firsts|
  {
    seq(|firsts|, i requires 0 <= i < |firsts| =>
      var e := m[SegmentName(firsts[i])]; SegmentFile(firsts[i], e.file, e.linked))
  }

  /** A directory with only segment files is a disk. */
  lemma FilesMirror(m: Entries, firsts: seq<nat>)
    requires OnlySegments(m) && StrictlySorted(firsts)
    requires forall i: nat :: i in firsts <==> i < INDEX_LIMIT && SegmentName(i) in m
    ensures forall i :: 0 <= i < |firsts| ==> SegmentName(firsts[i]) in m && m[SegmentName(firsts[i])].Regular?
    ensures Mirrors(m, FilesOf(m, firsts))
  {
    hide SegmentName, ParseSegmentName;
    assert forall i :: 0 <= i < |firsts| ==> firsts[i] in firsts;
    var d := FilesOf(m, firsts);
    assert forall i, j :: 0 <= i < j < |d| ==> firsts[i] < firsts[j];
    forall name | name in m
      ensures Named(d, name)
    {
      var first := ParseSegmentName(name).value;
      ParseIffName(name, first);
      assert first in firsts;
      var i :| 0 <= i < |firsts| && firsts[i] == first;
      assert d[i].first == first;
    }
  }

  /** A name in the directory belongs to one file. */
  lemma NameInMirror(m: Entries, d: Disk, first: nat)
    requires Mirrors(m, d) && first < INDEX_LIMIT
    ensures SegmentName(first) in m <==> Exists(d, first)
  {
    hide SegmentName;
    if SegmentName(first) in m {
      assert Named(d, SegmentName(first));
      var i :| 0 <= i < |d| && SegmentName(first) == SegmentName(d[i].first);
      assert Holds(m, d[i]);
      NameInjective(first, d[i].first);
    }
    if Exists(d, first) {
      var i :| 0 <= i < |d| && d[i].first == first;
      assert Holds(m, d[i]);
    }
  }

  lemma MirrorUpdate(m: Entries, d: Disk, n: nat, f: File)
    requires Mirrors(m, d) && n < |d|
    ensures Mirrors(m[SegmentName(d[n].first) := Regular(f, d[n].linked)], d[n := d[n].(file := f)])
  {
    hide SegmentName;
    var m', d' := m[SegmentName(d[n].first) := Regular(f, d[n].linked)], d[n := d[n].(file := f)];
    assert forall i :: 0 <= i < |d| ==> d'[i].first == d[i].first;
    assert Holds(m, d[n]);
    forall i | 0 <= i < |d'|
      ensures Holds(m', d'[i])
    {
      assert Holds(m, d[i]);
      if i != n && SegmentName(d[i].first) == SegmentName(d[n].first) {
        NameInjective(d[i].first, d[n].first);
      }
    }
    forall name | name in m'
      ensures Named(d', name)
    {
      assert Named(d, name);
      var i :| 0 <= i < |d| && name == SegmentName(d[i].first);
      assert name == SegmentName(d'[i].first);
    }
  }

  lemma MirrorSnoc(m: Entries, d: Disk, e: SegmentFile)
    requires Mirrors(m, d) && e.first < INDEX_LIMIT && (d != [] ==> d[|d| - 1].first < e.first)
    ensures SegmentName(e.first) !in m
    ensures Mirrors(m[SegmentName(e.first) := Regular(e.file, e.linked)], d + [e])
  {
    hide SegmentName;
    var m', d' := m[SegmentName(e.first) := Regular(e.file, e.linked)], d + [e];
    NameInMirror(m, d, e.first);
    forall i | 0 <= i < |d|
      ensures d[i].first < e.first && Holds(m', d'[i])
    {
      assert i < |d| - 1 ==> d[i].first < d[|d| - 1].first;
      assert Holds(m, d[i]);
    }
    forall name | name in m'
      ensures Named(d', name)
    {
      if name in m {
        assert Named(d, name);
        var i :| 0 <= i < |d| && name == SegmentName(d[i].first);
        assert name == SegmentName(d'[i].first);
      } else {
        assert name == SegmentName(d'[|d|].first);
      }
    }
  }

  lemma MirrorLinked(m: Entries, d: Disk)
    requires Mirrors(m, d)
    ensures Mirrors(Linked(m), DirectoryFlushed(d))
  {
    hide SegmentName;
    var m', d' := Linked(m), DirectoryFlushed(d);
    forall i | 0 <= i < |d'|
      ensures Holds(m', d'[i])
    {
      assert Holds(m, d[i]);
    }
    forall name | name in m'
      ensures Named(d', name)
    {
      var i :| 0 <= i < |d| && name == SegmentName(d[i].first);
      assert name == SegmentName(d'[i].first);
    }
  }

  /** A directory is at most one disk. */
  lemma {:induction false} MirrorIsUnique(m: Entries, d: Disk, e: Disk)
    requires Mirrors(m, d) && Mirrors(m, e)
    ensures d == e
  {
    hide Mirrors;
    SameOrder(m, d, e, |d|);
    SameOrder(m, e, d, |e|);
  }

  /** The first n files of d are the first n files of e. */
  lemma {:induction false} SameOrder(m: Entries, d: Disk, e: Disk, n: nat)
    requires Mirrors(m, d) && Mirrors(m, e) && n <= |d|
    ensures n <= |e| && d[..n] == e[..n]
    decreases n
  {
    hide Holds, SegmentName, Named;
    if n > 0 {
      SameOrder(m, d, e, n - 1);
      var i := n - 1;
      forall p | 0 <= p < i ensures d[p] == e[p] { assert d[p] == d[..i][p] == e[..i][p]; }
      var j := Find(m, d, e, i);
      if i < j {
        var p := Find(m, e, d, i);
      }
      assert d[..n] == d[..n - 1] + [d[i]] && e[..n] == e[..n - 1] + [e[i]];
    }
  }

  /** A file of one is in the other. */
  lemma Find(m: Entries, d: Disk, e: Disk, i: nat) returns (j: nat)
    requires Mirrors(m, d) && Mirrors(m, e) && i < |d|
    ensures j < |e| && e[j] == d[i]
  {
    hide SegmentName;
    assert Named(e, SegmentName(d[i].first)) by { assert Holds(m, d[i]); }
    assert Holds(m, d[i]);
    j :| 0 <= j < |e| && SegmentName(d[i].first) == SegmentName(e[j].first);
    assert Holds(m, e[j]);
    NameInjective(d[i].first, e[j].first);
  }
}
