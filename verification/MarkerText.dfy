/** What a storage_version marker says. */
module MarkerText {
  import opened ByteStrings
  import opened Options
  import opened Sequences

  const FORMAT_VERSION: int := 1
  /** "1\n". */
  const MARKER: Bytes := [0x31, 0x0A]

  datatype Verdict = Accepted | Unreadable | Unsupported(version: int)

  /** How many bytes white space takes at the start of s, in UTF-8; 0 if there is none. */
  function SpaceAt(s: Bytes): (n: nat)
    ensures n <= |s|
  {
    if |s| >= 1 && (9 <= s[0] <= 13 || s[0] == 32) then 1
    else if |s| >= 2 && s[0] == 0xC2 && (s[1] == 0x85 || s[1] == 0xA0) then 2
    else if |s| >= 3 && IsWideSpace(s[0], s[1], s[2]) then 3
    else 0
  }

  /** U+1680, U+2000 to U+200A, U+2028, U+2029, U+202F, U+205F and U+3000. */
  predicate IsWideSpace(a: Byte, b: Byte, c: Byte) {
    || (a == 0xE1 && b == 0x9A && c == 0x80)
    || (a == 0xE2 && b == 0x80 && (0x80 <= c <= 0x8A || c == 0xA8 || c == 0xA9 || c == 0xAF))
    || (a == 0xE2 && b == 0x81 && c == 0x9F)
    || (a == 0xE3 && b == 0x80 && c == 0x80)
  }

  /** The same at the end of s. */
  function SpaceBefore(s: Bytes): (n: nat)
    ensures n <= |s|
  {
    if |s| >= 1 && SpaceAt(s[|s| - 1..]) == 1 then 1
    else if |s| >= 2 && SpaceAt(s[|s| - 2..]) == 2 then 2
    else if |s| >= 3 && SpaceAt(s[|s| - 3..]) == 3 then 3
    else 0
  }

  function TrimLeft(s: Bytes): Bytes {
    if SpaceAt(s) > 0 then TrimLeft(s[SpaceAt(s)..]) else s
  }

  function TrimRight(s: Bytes): Bytes {
    if SpaceBefore(s) > 0 then TrimRight(s[..|s| - SpaceBefore(s)]) else s
  }

  /** The value of a string of decimal digits. */
  function Digits(s: Bytes): Option<nat> {
    if s == [] then Some(0)
    else
      var high := Digits(Init(s));
      if high.None? || !(0x30 <= Last(s) <= 0x39) then None else Some(10 * high.value + (Last(s) - 0x30))
  }

  /** strconv.Atoi: an optional sign and at least one digit, within 64 bits. */
  function Atoi(s: Bytes): Option<int> {
    var signed := s != [] && (s[0] == 0x2B || s[0] == 0x2D);
    var digits := if signed then s[1..] else s;
    var v := Digits(digits);
    if digits == [] || v.None? then None
    else
      var value: int := if signed && s[0] == 0x2D then 0 - v.value as int else v.value as int;
      if -0x8000_0000_0000_0000 <= value < 0x8000_0000_0000_0000 then Some(value) else None
  }

  function CheckVersion(content: Bytes): Verdict {
    match Atoi(TrimRight(TrimLeft(content)))
    case None => Unreadable
    case Some(v) => if v == FORMAT_VERSION then Accepted else Unsupported(v)
  }

  predicate AllZeros(s: Bytes) {
    forall i :: 0 <= i < |s| ==> s[i] == 0x30
  }

  lemma {:induction false} DigitsZero(s: Bytes)
    ensures Digits(s) == Some(0) <==> AllZeros(s)
    decreases |s|
  {
    if s != [] {
      DigitsZero(Init(s));
      assert forall i :: 0 <= i < |s| ==> s[i] == (if i < |s| - 1 then Init(s)[i] else Last(s));
    }
  }

  // ---- The same, spelled out ----

  /** White space, as Unicode code points. */
  type Space = c: int |
    || 9 <= c <= 13 || c == 0x20 || c == 0x85 || c == 0xA0 || c == 0x1680 || 0x2000 <= c <= 0x200A
    || c == 0x2028 || c == 0x2029 || c == 0x202F || c == 0x205F || c == 0x3000
    witness 0x20

  /** A code point in UTF-8. */
  function Utf8(c: Space): (s: Bytes)
    ensures 1 <= |s| <= 3
  {
    if c < 0x80 then [c]
    else if c < 0x800 then [0xC0 + c / 64, 0x80 + c % 64]
    else [0xE0 + c / 4096, 0x80 + c / 64 % 64, 0x80 + c % 64]
  }

  function Utf8All(cs: seq<Space>): Bytes {
    if cs == [] then [] else Utf8All(Init(cs)) + Utf8(Last(cs))
  }

  lemma Utf8None()
    ensures Utf8All([]) == []
  {
  }

  lemma {:induction false} Utf8AllCons(c: Space, cs: seq<Space>)
    ensures Utf8All([c] + cs) == Utf8(c) + Utf8All(cs)
    decreases |cs|
  {
    hide Utf8;
    var all := [c] + cs;
    if cs == [] {
      assert Init(all) == [] && Utf8All([]) == [];
    } else {
      assert Init(all) == [c] + Init(cs) && Last(all) == Last(cs);
      Utf8AllCons(c, Init(cs));
    }
  }

  ghost predicate White(s: Bytes) {
    exists cs :: s == Utf8All(cs)
  }

  /** White space, at most a plus sign, zeros, a one and white space. */
  ghost predicate SpellsOne(content: Bytes) {
    exists before, core, after :: White(before) && IsOne(core) && White(after) && content == before + core + after
  }

  /** At most a plus sign, zeros, and a one. */
  ghost predicate IsOne(t: Bytes) {
    exists zeros: Bytes :: AllZeros(zeros) && (t == zeros + [0x31] || t == [0x2B] + (zeros + [0x31]))
  }

  lemma SpaceIsFound(s: Bytes, c: Space)
    requires Utf8(c) <= s
    ensures SpaceAt(s) == |Utf8(c)|
  {
  }

  lemma SpaceIsSpace(s: Bytes) returns (c: Space)
    requires SpaceAt(s) > 0
    ensures SpaceAt(s) == |Utf8(c)| && s[..SpaceAt(s)] == Utf8(c)
  {
    var n := SpaceAt(s);
    if n == 1 {
      c := s[0];
    } else if n == 2 {
      c := s[1] as int;
    } else {
      var a: int, b: int, d: int := s[0], s[1], s[2];
      c := (a - 0xE0) * 4096 + (b - 0x80) * 64 + (d - 0x80);
    }
  }

  lemma LastSpaceIsFound(s: Bytes, c: Space)
    ensures SpaceBefore(s + Utf8(c)) == |Utf8(c)|
  {
    var t, n := s + Utf8(c), |Utf8(c)|;
    assert t[|t| - n..] == Utf8(c);
    SpaceIsFound(Utf8(c), c);
  }

  lemma LastSpaceIsSpace(s: Bytes) returns (c: Space)
    requires SpaceBefore(s) > 0
    ensures SpaceBefore(s) == |Utf8(c)| && s == s[..|s| - SpaceBefore(s)] + Utf8(c)
  {
    var n := SpaceBefore(s);
    var t := s[|s| - n..];
    c := SpaceIsSpace(t);
    assert t[..n] == t;
  }

  lemma Regroup(a: Bytes, b: Bytes, c: Bytes)
    ensures a + (b + c) == a + b + c
  {
  }

  lemma {:induction false} TrimLeftRemoves(s: Bytes) returns (cs: seq<Space>)
    ensures s == Utf8All(cs) + TrimLeft(s)
    decreases |s|
  {
    hide SpaceAt, Utf8, Utf8All;
    if SpaceAt(s) == 0 {
      cs := [];
      Utf8None();
      assert Utf8All(cs) + s == s;
    } else {
      var c := SpaceIsSpace(s);
      var n := SpaceAt(s);
      var rest := TrimLeftRemoves(s[n..]);
      cs := [c] + rest;
      Utf8AllCons(c, rest);
      assert TrimLeft(s) == TrimLeft(s[n..]);
      hide TrimLeft;
      assert s == s[..n] + s[n..];
      Regroup(Utf8(c), Utf8All(rest), TrimLeft(s));
    }
  }

  lemma {:induction false} TrimRightRemoves(s: Bytes) returns (cs: seq<Space>)
    ensures s == TrimRight(s) + Utf8All(cs)
    decreases |s|
  {
    hide SpaceBefore, Utf8;
    if SpaceBefore(s) == 0 {
      cs := [];
      assert s + Utf8All(cs) == s;
    } else {
      var c := LastSpaceIsSpace(s);
      var rest := TrimRightRemoves(s[..|s| - SpaceBefore(s)]);
      cs := rest + [c];
      assert Init(cs) == rest;
      assert (TrimRight(s) + Utf8All(rest)) + Utf8(c) == TrimRight(s) + Utf8All(cs);
    }
  }

  lemma {:induction false} TrimsLeft(cs: seq<Space>, x: Bytes)
    requires SpaceAt(x) == 0
    ensures TrimLeft(Utf8All(cs) + x) == x
    decreases |cs|
  {
    hide SpaceAt, Utf8, Utf8All;
    if cs == [] {
      Utf8None();
      assert Utf8All(cs) + x == x;
    } else {
      var c, rest := cs[0], Utf8All(cs[1..]) + x;
      var s := Utf8All(cs) + x;
      Utf8AllCons(c, cs[1..]);
      assert cs == [c] + cs[1..];
      assert s == Utf8(c) + rest;
      SpaceIsFound(s, c);
      assert s[|Utf8(c)|..] == rest;
      TrimsLeft(cs[1..], x);
    }
  }

  lemma {:induction false} TrimsRight(cs: seq<Space>, x: Bytes)
    requires SpaceBefore(x) == 0
    ensures TrimRight(x + Utf8All(cs)) == x
    decreases |cs|
  {
    hide SpaceBefore, Utf8;
    if cs == [] {
      assert x + Utf8All(cs) == x;
    } else {
      var c, rest := Last(cs), x + Utf8All(Init(cs));
      var s := x + Utf8All(cs);
      assert s == rest + Utf8(c);
      LastSpaceIsFound(rest, c);
      assert s[..|s| - |Utf8(c)|] == rest;
      TrimsRight(Init(cs), x);
    }
  }

  /** What is between the spaces has none at its ends. */
  lemma OneIsBare(core: Bytes, after: Bytes)
    requires IsOne(core)
    ensures SpaceAt(core + after) == 0 && SpaceBefore(core) == 0
  {
    var zeros: Bytes :| AllZeros(zeros) && (core == zeros + [0x31] || core == [0x2B] + (zeros + [0x31]));
    assert core[0] == 0x2B || core[0] == 0x30 || core[0] == 0x31;
    assert (core + after)[0] == core[0] && Last(core) == 0x31;
  }

  /** A trimmed text is a spelling of 1 exactly if it is a sign, zeros and a one. */
  lemma OneIff(t: Bytes)
    ensures Atoi(t) == Some(1) <==> IsOne(t)
  {
    var signed := t != [] && (t[0] == 0x2B || t[0] == 0x2D);
    var digits := if signed then t[1..] else t;
    if digits != [] {
      DigitsZero(Init(digits));
      assert digits == Init(digits) + [Last(digits)];
    }
    if Atoi(t) == Some(1) {
      assert signed ==> t == [0x2B] + digits;
      assert AllZeros(Init(digits)) && Last(digits) == 0x31;
    }
    forall zeros: Bytes | AllZeros(zeros) && (t == zeros + [0x31] || t == [0x2B] + (zeros + [0x31]))
      ensures Atoi(t) == Some(1)
    {
      DigitsZero(zeros);
      assert zeros != [] ==> (zeros + [0x31])[0] == zeros[0];
      assert digits == zeros + [0x31] && Init(digits) == zeros;
    }
  }

  /** Accepted are exactly the contents that spell one. */
  lemma AcceptedIff(content: Bytes)
    ensures CheckVersion(content) == Accepted <==> SpellsOne(content)
  {
    hide TrimLeft, TrimRight, SpaceAt, SpaceBefore, IsOne, Atoi, Utf8All;
    var t := TrimRight(TrimLeft(content));
    OneIff(t);
    if IsOne(t) {
      var before := TrimLeftRemoves(content);
      var after := TrimRightRemoves(TrimLeft(content));
      assert content == Utf8All(before) + t + Utf8All(after);
      assert White(Utf8All(before)) && White(Utf8All(after));
    }
    forall before, core, after | White(before) && IsOne(core) && White(after) && content == before + core + after
      ensures t == core
    {
      TrimsToCore(content, before, core, after);
    }
  }

  lemma TrimsToCore(content: Bytes, before: Bytes, core: Bytes, after: Bytes)
    requires White(before) && IsOne(core) && White(after) && content == before + core + after
    ensures TrimRight(TrimLeft(content)) == core
  {
    hide TrimLeft, TrimRight, SpaceAt, SpaceBefore, IsOne, Utf8All;
    var b :| before == Utf8All(b);
    var a :| after == Utf8All(a);
    OneIsBare(core, after);
    assert content == before + (core + after);
    TrimsLeft(b, core + after);
    TrimsRight(a, core);
  }

  lemma MarkerIsAccepted()
    ensures CheckVersion(MARKER) == Accepted
  {
    hide CheckVersion;
    var none: Bytes, core: Bytes, newline: Space := [], [0x31], 0x0A;
    var after := Utf8All([newline]);
    assert after == [0x0A] by { assert Init([newline]) == [] && Utf8All([]) == []; }
    assert White(none) by { assert none == Utf8All([]); }
    assert White(after) && IsOne(core) by { assert AllZeros(none) && core == none + [0x31]; }
    assert MARKER == none + core + after;
    AcceptedIff(MARKER);
  }
}
