/**
 * Reading one segment: the verification loop of log_recovery.go and its
 * verdict on what it found.
 */
module SegmentScan {
  import opened ByteStrings
  import opened Codecs
  import opened Record

  datatype Damage = NoDamage | Unreadable | OutOfSequence

  /** The commands accepted, the bytes they take, and why reading stopped. */
  datatype Scanned = Scanned(commands: seq<Bytes>, size: nat, damage: Damage)

  /** Accepts the records with indexes next, next + 1, ... from the start of data. */
  function Scan(k: Codec, data: Bytes, next: nat): Scanned
    requires Lawful(k)
    decreases |data|
  {
    if data == [] then Scanned([], 0, NoDamage)
    else
      var d := k.dec(data);
      if !d.Intact? then Scanned([], 0, Unreadable)
      else if d.index != next then Scanned([], 0, OutOfSequence)
      else
        PrintBack(k, data);
        Prepend([d.command], d.size, Scan(k, data[d.size..], next + 1))
  }

  function Prepend(commands: seq<Bytes>, size: nat, r: Scanned): Scanned {
    Scanned(commands + r.commands, size + r.size, r.damage)
  }

  /** The bytes of consecutive records starting at index first. */
  function EncodeAll(k: Codec, first: nat, commands: seq<Bytes>): Bytes
    decreases |commands|
  {
    if commands == [] then [] else k.enc(first, commands[0]) + EncodeAll(k, first + 1, commands[1..])
  }

  ghost predicate AllStorable(first: nat, commands: seq<Bytes>) {
    && first + |commands| <= INDEX_LIMIT
    && forall c :: c in commands ==> |c| <= MAX_COMMAND_SIZE
  }

  // ---- EncodeAll ----

  lemma {:induction false} EncodeAllConcat(k: Codec, first: nat, a: seq<Bytes>, b: seq<Bytes>)
    ensures EncodeAll(k, first, a + b) == EncodeAll(k, first, a) + EncodeAll(k, first + |a|, b)
    decreases |a|
  {
    if a == [] {
      assert a + b == b;
    } else {
      assert (a + b)[1..] == a[1..] + b;
      EncodeAllConcat(k, first + 1, a[1..], b);
    }
  }

  lemma EncodeAllSnoc(k: Codec, first: nat, a: seq<Bytes>, c: Bytes)
    ensures EncodeAll(k, first, a + [c]) == EncodeAll(k, first, a) + k.enc(first + |a|, c)
  {
    EncodeAllConcat(k, first, a, [c]);
    assert EncodeAll(k, first + |a|, [c]) == k.enc(first + |a|, c);
  }

  /** Where record i lies among the others. */
  lemma Layout(k: Codec, first: nat, commands: seq<Bytes>, i: nat)
    requires i < |commands|
    ensures EncodeAll(k, first, commands)
         == EncodeAll(k, first, commands[..i])
            + (k.enc(first + i, commands[i]) + EncodeAll(k, first + i + 1, commands[i + 1..]))
  {
    assert commands == commands[..i] + commands[i..];
    EncodeAllConcat(k, first, commands[..i], commands[i..]);
    assert commands[i..][1..] == commands[i + 1..];
  }

  /** n records take at least 16 n bytes. */
  lemma {:induction false} EncodeAllLength(k: Codec, first: nat, a: seq<Bytes>)
    requires Lawful(k)
    ensures |EncodeAll(k, first, a)| >= RECORD_OVERHEAD * |a|
    decreases |a|
  {
    if a != [] {
      EncodeAllLength(k, first + 1, a[1..]);
    }
  }

  // ---- Parse and print ----

  lemma PrependTwice(a: seq<Bytes>, m: nat, b: seq<Bytes>, n: nat, r: Scanned)
    ensures Prepend(a, m, Prepend(b, n, r)) == Prepend(a + b, m + n, r)
  {
    assert a + (b + r.commands) == a + b + r.commands;
  }

  lemma PrependNothing(r: Scanned)
    ensures Prepend([], 0, r) == r
  {
    assert [] + r.commands == r.commands;
  }

  lemma ScanStep(k: Codec, data: Bytes, first: nat, c: Bytes)
    requires Lawful(k) && Storable(first, c) && k.enc(first, c) <= data
    ensures var n := RECORD_OVERHEAD + |c|;
            Scan(k, data, first) == Prepend([c], n, Scan(k, data[n..], first + 1))
  {
    ReadBack(k, first, c, data);
  }

  /**
   * What it means for r to account for data: the accepted bytes are the
   * encodings of the accepted records, and reading stopped at the end or at
   * bytes that are not the next record.
   */
  ghost predicate Explains(k: Codec, data: Bytes, first: nat, r: Scanned) {
    && r.size <= |data|
    && data[..r.size] == EncodeAll(k, first, r.commands)
    && (r.commands == [] || AllStorable(first, r.commands))
    && (r.damage == NoDamage <==> r.size == |data|)
    && (r.damage == Unreadable ==> !k.dec(data[r.size..]).Intact?)
    && (r.damage == OutOfSequence ==>
          var d := k.dec(data[r.size..]); d.Intact? && d.index != first + |r.commands|)
  }

  lemma ExplainsStep(k: Codec, data: Bytes, first: nat, c: Bytes, r: Scanned)
    requires Lawful(k) && Storable(first, c) && k.enc(first, c) <= data
    requires Explains(k, data[RECORD_OVERHEAD + |c|..], first + 1, r)
    ensures Explains(k, data, first, Prepend([c], RECORD_OVERHEAD + |c|, r))
  {
    var n, rest := RECORD_OVERHEAD + |c|, data[RECORD_OVERHEAD + |c|..];
    var p := Prepend([c], n, r);
    assert p.commands[1..] == r.commands;
    assert data[..p.size] == data[..n] + rest[..r.size];
    assert data[p.size..] == rest[r.size..];
  }

  lemma ExplainsUnstep(k: Codec, data: Bytes, first: nat, r: Scanned)
    requires Lawful(k) && Explains(k, data, first, r) && r.commands != []
    ensures var c := r.commands[0];
            var n := RECORD_OVERHEAD + |c|;
            && Storable(first, c) && k.enc(first, c) <= data && n <= r.size
            && Explains(k, data[n..], first + 1, Scanned(r.commands[1..], r.size - n, r.damage))
            && r == Prepend([c], n, Scanned(r.commands[1..], r.size - n, r.damage))
  {
    var c, t := r.commands[0], r.commands[1..];
    var n := RECORD_OVERHEAD + |c|;
    assert data[..r.size] == k.enc(first, c) + EncodeAll(k, first + 1, t);
    assert data[..n] == data[..r.size][..n] == k.enc(first, c);
    assert data[n..][..r.size - n] == data[..r.size][n..] == EncodeAll(k, first + 1, t);
    assert data[n..][r.size - n..] == data[r.size..];
    assert r.commands == [c] + t;
  }

  /** Whatever verification accepts re-encodes to the bytes it read, and it stops only at the end or at damage. */
  lemma {:induction false} ScanPrints(k: Codec, data: Bytes, first: nat)
    requires Lawful(k)
    ensures Explains(k, data, first, Scan(k, data, first))
    decreases |data|
  {
    var d := k.dec(data);
    if data != [] && d.Intact? && d.index == first {
      PrintBack(k, data);
      ScanPrints(k, data[d.size..], first + 1);
      ScanStep(k, data, first, d.command);
      ExplainsStep(k, data, first, d.command, Scan(k, data[d.size..], first + 1));
    } else {
      assert data[0..] == data;
    }
  }

  /** Nothing but the result of verification accounts for the data. */
  lemma {:induction false} ScanIsUnique(k: Codec, data: Bytes, first: nat, r: Scanned)
    requires Lawful(k) && Explains(k, data, first, r)
    ensures Scan(k, data, first) == r
    decreases |data|
  {
    if r.commands == [] {
      assert data[0..] == data;
    } else {
      var c := r.commands[0];
      var n := RECORD_OVERHEAD + |c|;
      ExplainsUnstep(k, data, first, r);
      ScanStep(k, data, first, c);
      ScanIsUnique(k, data[n..], first + 1, Scanned(r.commands[1..], r.size - n, r.damage));
    }
  }

  lemma ExplainsConcat(k: Codec, first: nat, commands: seq<Bytes>, rest: Bytes, r: Scanned)
    requires Lawful(k) && AllStorable(first, commands)
    requires Explains(k, rest, first + |commands|, r)
    ensures var e := EncodeAll(k, first, commands);
            Explains(k, e + rest, first, Prepend(commands, |e|, r))
  {
    var e := EncodeAll(k, first, commands);
    var data, p := e + rest, Prepend(commands, |e|, r);
    EncodeAllConcat(k, first, commands, r.commands);
    assert data[..p.size] == e + rest[..r.size];
    assert data[p.size..] == rest[r.size..];
  }

  /** Verification reads back exactly the records that were written, then goes on with what follows them. */
  lemma ScanEncoded(k: Codec, first: nat, commands: seq<Bytes>, rest: Bytes)
    requires Lawful(k) && AllStorable(first, commands)
    ensures Scan(k, EncodeAll(k, first, commands) + rest, first)
         == Prepend(commands, |EncodeAll(k, first, commands)|, Scan(k, rest, first + |commands|))
  {
    var e, r := EncodeAll(k, first, commands), Scan(k, rest, first + |commands|);
    ScanPrints(k, rest, first + |commands|);
    ExplainsConcat(k, first, commands, rest, r);
    ScanIsUnique(k, e + rest, first, Prepend(commands, |e|, r));
  }

  /** A shorter file yields a prefix of the records. */
  lemma {:induction false} ScanMonotone(k: Codec, data: Bytes, longer: Bytes, first: nat)
    requires Lawful(k) && data <= longer
    ensures Scan(k, data, first).commands <= Scan(k, longer, first).commands
    decreases |data|
  {
    var d := k.dec(data);
    if data != [] && d.Intact? && d.index == first {
      PrintBack(k, data);
      DecodeMonotone(k, data, longer);
      ScanMonotone(k, data[d.size..], longer[d.size..], first + 1);
    }
  }

  lemma ScanWhole(k: Codec, first: nat, commands: seq<Bytes>)
    requires Lawful(k) && AllStorable(first, commands)
    ensures var data := EncodeAll(k, first, commands); Scan(k, data, first) == Scanned(commands, |data|, NoDamage)
  {
    var data := EncodeAll(k, first, commands);
    assert data[..|data|] == data;
    ScanIsUnique(k, data, first, Scanned(commands, |data|, NoDamage));
  }

  /** Whole records, cut anywhere, are fewer whole records and the beginning of the next one. */
  lemma CutRecords(k: Codec, first: nat, commands: seq<Bytes>, q: Bytes) returns (j: nat)
    requires Lawful(k) && AllStorable(first, commands) && q <= EncodeAll(k, first, commands)
    ensures j <= |commands|
    ensures EncodeAll(k, first, commands[..j]) <= q
    ensures j == |commands| ==> q == EncodeAll(k, first, commands)
    ensures j < |commands| ==> q[|EncodeAll(k, first, commands[..j])|..] < k.enc(first + j, commands[j])
  {
    var r := Scan(k, q, first);
    ScanMonotone(k, q, EncodeAll(k, first, commands), first);
    ScanWhole(k, first, commands);
    ScanPrints(k, q, first);
    j := |r.commands|;
    assert r.commands == commands[..j];
    if j < |commands| {
      Layout(k, first, commands, j);
      CutNext(k, first, commands, q, j, r);
    } else {
      assert commands[..j] == commands;
    }
  }

  lemma CutNext(k: Codec, first: nat, commands: seq<Bytes>, q: Bytes, j: nat, r: Scanned)
    requires Lawful(k) && j < |commands| && AllStorable(first, commands)
    requires Explains(k, q, first, r) && r.commands == commands[..j]
    requires q <= EncodeAll(k, first, commands[..j])
                  + (k.enc(first + j, commands[j]) + EncodeAll(k, first + j + 1, commands[j + 1..]))
    ensures q[r.size..] < k.enc(first + j, commands[j])
  {
    hide EncodeAll;
    var e, t := k.enc(first + j, commands[j]), q[r.size..];
    var rest := e + EncodeAll(k, first + j + 1, commands[j + 1..]);
    assert t == rest[..|t|];
    if |t| >= |e| {
      assert e == rest[..|e|] == t[..|e|];
      ReadBack(k, first + j, commands[j], t);
    }
  }

  // ---- The verdict ----

  datatype Verdict = Healthy | TornTail | Corrupt

  /** verifySegment's classification of a scan r of data. */
  ghost function Classify(k: Codec, data: Bytes, first: nat, isLast: bool, r: Scanned): Verdict
    requires r.size <= |data|
  {
    if r.damage == NoDamage then Healthy
    else if !isLast || r.damage == OutOfSequence || HasLater(k, data[r.size..], first + |r.commands|) then Corrupt
    else TornTail
  }

  ghost function Judge(k: Codec, data: Bytes, first: nat, isLast: bool): Verdict
    requires Lawful(k)
  {
    ScanPrints(k, data, first);
    Classify(k, data, first, isLast, Scan(k, data, first))
  }

  /** The loop of verifySegment. */
  method ScanRecords(k: Codec, data: Bytes, first: nat) returns (next: nat, offset: nat, damage: Damage)
    requires Lawful(k)
    ensures var r := Scan(k, data, first);
            next == first + |r.commands| && offset == r.size <= |data| && damage == r.damage
  {
    offset, next, damage := 0, first, NoDamage;
    ghost var seen: seq<Bytes> := [];
    PrependNothing(Scan(k, data, first));
    assert data[0..] == data;
    while offset < |data|
      invariant offset <= |data|
      invariant next == first + |seen|
      invariant damage == NoDamage
      invariant Scan(k, data, first) == Prepend(seen, offset, Scan(k, data[offset..], next))
      decreases |data| - offset
    {
      var rest := data[offset..];
      var d := k.dec(rest);
      if !d.Intact? || d.index != next {
        damage := if d.Intact? then OutOfSequence else Unreadable;
        break;
      }
      PrintBack(k, rest);
      assert rest[d.size..] == data[offset + d.size..];
      PrependTwice(seen, offset, [d.command], d.size, Scan(k, rest[d.size..], next + 1));
      seen := seen + [d.command];
      offset, next := offset + d.size, next + 1;
    }
  }

  /** verifySegment without its file operations. */
  method VerifySegment(crc: Crc, k: Codec, data: Bytes, first: nat, isLast: bool)
    returns (next: nat, offset: nat, verdict: Verdict)
    requires Lawful(k) && Implements(k, crc)
    ensures var r := Scan(k, data, first);
            next == first + |r.commands| && offset == r.size <= |data| && verdict == Judge(k, data, first, isLast)
  {
    var damage;
    next, offset, damage := ScanRecords(k, data, first);
    if damage == NoDamage {
      return next, offset, Healthy;
    }
    var later := HasLaterRecord(crc, k, data[offset..], next);
    if !isLast || damage == OutOfSequence || later {
      return next, offset, Corrupt;
    }
    return next, offset, TornTail;
  }

  lemma ShorterTail(k: Codec, data: Bytes, partway: Bytes, first: nat, r: Scanned)
    requires Lawful(k) && Explains(k, data, first, r) && Classify(k, data, first, true, r) != Corrupt
    requires partway <= data && r.size <= |partway|
    ensures var p := r.(damage := if r.size == |partway| then NoDamage else Unreadable);
            Explains(k, partway, first, p) && Classify(k, partway, first, true, p) != Corrupt
  {
    TailStaysTorn(k, partway[r.size..], data[r.size..], first + |r.commands|);
    assert partway[..r.size] == data[..r.size];
  }

  /**
   * A crash between cutting a torn tail and flushing the cut changes nothing: any
   * length in between gets the same repair.
   */
  lemma RepairIsRestartable(k: Codec, data: Bytes, partway: Bytes, first: nat)
    requires Lawful(k) && Judge(k, data, first, true) != Corrupt
    requires partway <= data && Scan(k, data, first).size <= |partway|
    ensures Judge(k, partway, first, true) != Corrupt
    ensures Scan(k, partway, first).commands == Scan(k, data, first).commands
    ensures Scan(k, partway, first).size == Scan(k, data, first).size
  {
    var r := Scan(k, data, first);
    ScanPrints(k, data, first);
    ShorterTail(k, data, partway, first, r);
    ScanIsUnique(k, partway, first, r.(damage := if r.size == |partway| then NoDamage else Unreadable));
  }

  lemma TailStaysTorn(k: Codec, tail: Bytes, longer: Bytes, next: nat)
    requires Lawful(k) && tail <= longer
    requires longer == [] || (!k.dec(longer).Intact? && !HasLater(k, longer, next))
    ensures tail == [] || (!k.dec(tail).Intact? && !HasLater(k, tail, next))
  {
    if tail != [] && k.dec(tail).Intact? {
      DecodeMonotone(k, tail, longer);
    }
    if tail != [] && HasLater(k, tail, next) {
      HasLaterMonotone(k, tail, longer, next);
    }
  }

  /** The segment after a repair, or one that needed none, verifies with nothing left to do. */
  lemma RepairIsIdempotent(k: Codec, data: Bytes, first: nat)
    requires Lawful(k) && Judge(k, data, first, true) != Corrupt
    ensures var r := Scan(k, data, first);
            r.size <= |data| && Scan(k, data[..r.size], first) == Scanned(r.commands, r.size, NoDamage)
  {
    var r := Scan(k, data, first);
    ScanPrints(k, data, first);
    RepairIsRestartable(k, data, data[..r.size], first);
    ScanPrints(k, data[..r.size], first);
  }
}
