/** Segment file names: 20 zero-padded decimal digits and a suffix. */
module SegmentNames {
  import opened ByteStrings
  import opened Options

  const SUFFIX: string := ".log"
  const DIGITS: nat := 20

  function DigitChar(d: nat): char
    requires d < 10
  {
    '0' + d as char
  }

  /** The n low-order decimal digits of v, most significant first. */
  function Decimal(n: nat, v: nat): (s: string)
    ensures |s| == n
    decreases n, v
  {
    if n == 0 then [] else Decimal(n - 1, v / 10) + [DigitChar(v % 10)]
  }

  /** strconv.ParseUint in base 10, before its range check. */
  function ParseDecimal(s: string): Option<nat> {
    if s == [] then Some(0)
    else
      var c := s[|s| - 1];
      var high := ParseDecimal(s[..|s| - 1]);
      if high.None? || !('0' <= c <= '9') then None
      else Some(10 * high.value + (c as int - '0' as int))
  }

  function SegmentName(first: nat): string {
    Decimal(DIGITS, first) + SUFFIX
  }

  function ParseSegmentName(name: string): Option<nat> {
    if |name| != DIGITS + |SUFFIX| || name[DIGITS..] != SUFFIX then None
    else
      var parsed := ParseDecimal(name[..DIGITS]);
      if parsed.None? || parsed.value >= INDEX_LIMIT || SegmentName(parsed.value) != name then None
      else parsed
  }

  function Pow10(n: nat): nat {
    if n == 0 then 1 else 10 * Pow10(n - 1)
  }

  lemma IndexesHaveTwentyDigits()
    ensures INDEX_LIMIT < Pow10(DIGITS)
  {
    assert Pow10(8) == 1_0000_0000;
    assert Pow10(16) == 1_0000_0000_0000_0000;
  }

  lemma {:induction false} ParseOfDecimal(n: nat, v: nat)
    requires v < Pow10(n)
    ensures ParseDecimal(Decimal(n, v)) == Some(v)
    decreases n
  {
    if n > 0 {
      ParseOfDecimal(n - 1, v / 10);
      var s := Decimal(n, v);
      assert s[..|s| - 1] == Decimal(n - 1, v / 10);
    }
  }

  /** Parsing a name inverts naming, and accepts nothing but names. */
  lemma ParseIffName(name: string, first: nat)
    ensures ParseSegmentName(name) == Some(first) <==> first < INDEX_LIMIT && name == SegmentName(first)
  {
    if first < INDEX_LIMIT && name == SegmentName(first) {
      IndexesHaveTwentyDigits();
      ParseOfDecimal(DIGITS, first);
      assert name[..DIGITS] == Decimal(DIGITS, first) && name[DIGITS..] == SUFFIX;
    }
  }

  lemma NameInjective(i: nat, j: nat)
    requires i < INDEX_LIMIT && j < INDEX_LIMIT && SegmentName(i) == SegmentName(j)
    ensures i == j
  {
    ParseIffName(SegmentName(i), i);
    ParseIffName(SegmentName(i), j);
  }

  /** Position i holds the digit of its power of ten. */
  lemma {:induction false} DecimalAt(n: nat, v: nat, i: nat) returns (high: nat, digit: nat, low: nat)
    requires i < n
    ensures v == (10 * high + digit) * Pow10(n - 1 - i) + low && digit < 10 && low < Pow10(n - 1 - i)
    ensures Decimal(n, v)[i] == DigitChar(digit)
    decreases n
  {
    if i == n - 1 {
      high, digit, low := v / 10, v % 10, 0;
    } else {
      high, digit, low := DecimalAt(n - 1, v / 10, i);
      var m, power := 10 * high + digit, Pow10(n - 2 - i);
      assert 10 * (m * power) == m * (10 * power);
      low := 10 * low + v % 10;
    }
  }

  /** A name spelled out: the digit of each power of ten, highest first, and the suffix. */
  lemma NameSpelled(first: nat, i: nat) returns (high: nat, digit: nat, low: nat)
    requires i < 20
    ensures |SegmentName(first)| == 24 && SegmentName(first)[20..] == ".log"
    ensures first == (10 * high + digit) * Pow10(19 - i) + low && digit < 10 && low < Pow10(19 - i)
    ensures SegmentName(first)[i] == '0' + digit as char
  {
    high, digit, low := DecimalAt(DIGITS, first, i);
  }

  /** Byte order of names, as directories are listed. */
  predicate Before(s: string, t: string) {
    t != [] && (s == [] || s[0] < t[0] || (s[0] == t[0] && Before(s[1..], t[1..])))
  }

  lemma {:induction false} BeforeConcat(s: string, t: string, x: string, y: string)
    requires |s| == |t|
    ensures Before(s + x, t + y) <==> Before(s, t) || (s == t && Before(x, y))
    decreases |s|
  {
    if s == [] {
      assert s + x == x && t + y == y;
    } else {
      assert (s + x)[1..] == s[1..] + x && (t + y)[1..] == t[1..] + y;
      BeforeConcat(s[1..], t[1..], x, y);
      assert s == [s[0]] + s[1..] && t == [t[0]] + t[1..];
    }
  }

  lemma {:induction false} DecimalOrder(n: nat, i: nat, j: nat)
    requires i < Pow10(n) && j < Pow10(n)
    ensures Before(Decimal(n, i), Decimal(n, j)) <==> i < j
    decreases n
  {
    if n > 0 {
      var s, t := Decimal(n - 1, i / 10), Decimal(n - 1, j / 10);
      var x, y := [DigitChar(i % 10)], [DigitChar(j % 10)];
      DecimalOrder(n - 1, i / 10, j / 10);
      BeforeConcat(s, t, x, y);
      assert Before(x, y) <==> i % 10 < j % 10;
      if s == t {
        ParseOfDecimal(n - 1, i / 10);
        ParseOfDecimal(n - 1, j / 10);
      }
    }
  }

  /** Names sort in index order. */
  lemma NamesSortByIndex(i: nat, j: nat)
    requires i < INDEX_LIMIT && j < INDEX_LIMIT
    ensures Before(SegmentName(i), SegmentName(j)) <==> i < j
  {
    IndexesHaveTwentyDigits();
    DecimalOrder(DIGITS, i, j);
    BeforeConcat(Decimal(DIGITS, i), Decimal(DIGITS, j), SUFFIX, SUFFIX);
    BeforeIrreflexive(SUFFIX);
  }

  lemma {:induction false} BeforeIrreflexive(s: string)
    ensures !Before(s, s)
  {
    if s != [] {
      BeforeIrreflexive(s[1..]);
    }
  }

  // ---- Listing ----

  datatype DirEntry = DirEntry(name: string, regular: bool)

  predicate StrictlySorted(s: seq<nat>) {
    forall i, j :: 0 <= i < j < |s| ==> s[i] < s[j]
  }

  ghost predicate AllSegments(entries: seq<DirEntry>) {
    forall e :: e in entries ==> e.regular && ParseSegmentName(e.name).Some?
  }

  ghost predicate DistinctNames(entries: seq<DirEntry>) {
    forall i, j :: 0 <= i < j < |entries| ==> entries[i].name != entries[j].name
  }

  /** A sequence ascends exactly when its last element exceeds the rest, which ascend. */
  lemma SortedSnoc(t: seq<nat>, last: nat)
    ensures StrictlySorted(t + [last]) <==> StrictlySorted(t) && forall y :: y in t ==> y < last
  {
    var s := t + [last];
    if StrictlySorted(s) {
      forall i, j | 0 <= i < j < |t| ensures t[i] < t[j] { assert s[i] < s[j]; }
      forall y | y in t ensures y < last {
        var i :| 0 <= i < |t| && t[i] == y;
        assert s[i] < s[|t|];
      }
    } else if StrictlySorted(t) && forall y :: y in t ==> y < last {
      forall i, j | 0 <= i < j < |s| ensures s[i] < s[j] { assert t[i] in t; }
    }
  }

  /** Inserts x into an ascending sequence. */
  function Insert(s: seq<nat>, x: nat): (r: seq<nat>)
    requires StrictlySorted(s) && x !in s
    ensures StrictlySorted(r)
    ensures forall y :: y in r <==> y in s || y == x
  {
    if s == [] || s[|s| - 1] < x then SortedSnoc(s, x); s + [x]
    else
      var init, last := s[..|s| - 1], s[|s| - 1];
      assert s == init + [last];
      SortedSnoc(init, last);
      var t := Insert(init, x);
      SortedSnoc(t, last);
      t + [last]
  }

  /**
   * listSegments: refuses a directory with any other entry; otherwise returns
   * the first indexes of exactly the segments present, in index order.
   */
  method ListSegments(entries: seq<DirEntry>) returns (r: Option<seq<nat>>)
    requires DistinctNames(entries)
    ensures r.Some? <==> AllSegments(entries)
    ensures r.Some? ==> StrictlySorted(r.value)
    ensures r.Some? ==>
              forall i: nat :: i in r.value <==> i < INDEX_LIMIT && DirEntry(SegmentName(i), true) in entries
  {
    var firsts: seq<nat> := [];
    for n := 0 to |entries|
      invariant StrictlySorted(firsts)
      invariant forall e :: e in entries[..n] ==> e.regular && ParseSegmentName(e.name).Some?
      invariant forall i: nat :: i in firsts <==> i < INDEX_LIMIT && DirEntry(SegmentName(i), true) in entries[..n]
    {
      var e := entries[n];
      var first := ParseSegmentName(e.name);
      if first.None? || !e.regular {
        return None;
      }
      ParseIffName(e.name, first.value);
      assert e == DirEntry(SegmentName(first.value), true);
      assert entries[..n + 1] == entries[..n] + [e];
      forall i: nat | i < INDEX_LIMIT && SegmentName(i) == e.name
        ensures i == first.value
      {
        NameInjective(i, first.value);
      }
      firsts := Insert(firsts, first.value);
    }
    assert entries[..|entries|] == entries;
    return Some(firsts);
  }
}
