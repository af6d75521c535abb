/** Damage inside a segment that was once well formed. */
module Corruption {
  import opened ByteStrings
  import opened Codecs
  import opened Record
  import opened RecordDamage
  import opened SegmentScan
  import Crc32c

  /** The offset of record i in the segment holding commands from index first. */
  function Offset(k: Codec, first: nat, commands: seq<Bytes>, i: nat): nat
    requires i <= |commands|
  {
    |EncodeAll(k, first, commands[..i])|
  }

  /** Later records start at least 16 bytes apart. */
  lemma OffsetsSpread(k: Codec, first: nat, commands: seq<Bytes>, i: nat, j: nat)
    requires Lawful(k) && i <= j <= |commands|
    ensures Offset(k, first, commands, i) + RECORD_OVERHEAD * (j - i) <= Offset(k, first, commands, j)
  {
    assert commands[..j] == commands[..i] + commands[i..j];
    EncodeAllConcat(k, first, commands[..i], commands[i..j]);
    EncodeAllLength(k, first + i, commands[i..j]);
  }

  /** Reading stops at the first record that is not the expected one. */
  lemma StopsAtDamage(k: Codec, first: nat, commands: seq<Bytes>, data: Bytes)
    requires Lawful(k) && AllStorable(first, commands)
    requires var n := |EncodeAll(k, first, commands)|;
             && n < |data| && data[..n] == EncodeAll(k, first, commands)
             && var d := k.dec(data[n..]); !d.Intact? || d.index != first + |commands|
    ensures var r := Scan(k, data, first);
            && r.commands == commands && r.size == |EncodeAll(k, first, commands)| && r.damage != NoDamage
            && Explains(k, data, first, r)
  {
    var n := |EncodeAll(k, first, commands)|;
    var r := Scanned(commands, n, if k.dec(data[n..]).Intact? then OutOfSequence else Unreadable);
    assert Explains(k, data, first, r);
    ScanIsUnique(k, data, first, r);
  }

  /**
   * An intact record found after the place where reading stopped, within the index
   * window, makes the damage corruption.
   */
  lemma IntactRecordAfterDamage(k: Codec, data: Bytes, first: nat, r: Scanned, at: nat, index: nat, command: Bytes)
    requires Lawful(k) && Explains(k, data, first, r) && r.damage != NoDamage
    requires r.size < at <= |data| && Storable(index, command) && k.enc(index, command) <= data[at..]
    requires first + |r.commands| < index <= first + |r.commands| + (|data| - r.size)
    ensures forall isLast :: Classify(k, data, first, isLast, r) == Corrupt
  {
    var tail, p := data[r.size..], at - r.size;
    assert tail[p..] == data[at..];
    ReadBack(k, index, command, tail[p..]);
    assert LaterAt(k, tail, first + |r.commands|, p);
  }

  /**
   * data is a segment overwritten in place, whatever the fields hit: record j is
   * the first that no longer reads as itself, and a later record m is untouched.
   */
  ghost predicate Damaged(k: Codec, first: nat, commands: seq<Bytes>, data: Bytes, j: nat, m: nat) {
    && AllStorable(first, commands) && j < m < |commands| && |data| == |EncodeAll(k, first, commands)|
    && var at, later := Offset(k, first, commands, j), Offset(k, first, commands, m);
       && at <= |data| && later <= |data|
       && data[..at] == EncodeAll(k, first, commands[..j])
       && (!k.dec(data[at..]).Intact? || k.dec(data[at..]).index != first + j)
       && k.enc(first + m, commands[m]) <= data[later..]
  }

  /** Corruption is never repaired away: such a segment is refused, even as the last one. */
  lemma CorruptionIsNeverRepaired(
    k: Codec, first: nat, commands: seq<Bytes>, data: Bytes, j: nat, m: nat, isLast: bool)
    requires Lawful(k) && Damaged(k, first, commands, data, j, m)
    ensures Judge(k, data, first, isLast) == Corrupt
  {
    hide EncodeAll, Scan, Explains, Lawful;
    OffsetsSpread(k, first, commands, j, m);
    Layout(k, first, commands, m);
    StopsAtDamage(k, first, commands[..j], data);
    var later := Offset(k, first, commands, m);
    IntactRecordAfterDamage(k, data, first, Scan(k, data, first), later, first + m, commands[m]);
  }

  /** The segment holding commands, with the bytes of record j replaced. */
  function Overwritten(k: Codec, first: nat, commands: seq<Bytes>, j: nat, bytes: Bytes): Bytes
    requires j < |commands|
  {
    EncodeAll(k, first, commands[..j]) + (bytes + EncodeAll(k, first + j + 1, commands[j + 1..]))
  }

  /**
   * Under CRC32C, a change confined to four consecutive bytes of one record's
   * body is never read as a command: exactly the records before it are
   * accepted, and unless it hit the last record the segment is refused.
   */
  lemma DamagedCommandIsNeverRead(first: nat, commands: seq<Bytes>, j: nat, damaged: Bytes, at: nat)
    requires AllStorable(first, commands) && j < |commands|
    requires BodyDamaged(Encode(Crc32c.Checksum, first + j, commands[j]), damaged, at)
    ensures Lawful(RecordCodec(Crc32c.Checksum))
    ensures var k := RecordCodec(Crc32c.Checksum);
            var data := Overwritten(k, first, commands, j, damaged);
            && Scan(k, data, first).commands == commands[..j]
            && Judge(k, data, first, false) == Corrupt
            && (j + 1 < |commands| ==> Judge(k, data, first, true) == Corrupt)
  {
    var k := RecordCodec(Crc32c.Checksum);
    RecordCodecIsLawful(Crc32c.Checksum);
    var rest := EncodeAll(k, first + j + 1, commands[j + 1..]);
    BodyDamageIsDetected(first + j, commands[j], damaged, at, rest);
    assert k.dec(damaged + rest) == Decode(Crc32c.Checksum, damaged + rest);
    assert |damaged| == |k.enc(first + j, commands[j])|;
    UnreadableRecord(k, first, commands, j, damaged);
  }

  lemma UnreadableRecord(k: Codec, first: nat, commands: seq<Bytes>, j: nat, damaged: Bytes)
    requires Lawful(k) && AllStorable(first, commands) && j < |commands|
    requires |damaged| == RECORD_OVERHEAD + |commands[j]|
    requires !k.dec(damaged + EncodeAll(k, first + j + 1, commands[j + 1..])).Intact?
    ensures var data := Overwritten(k, first, commands, j, damaged);
            && Scan(k, data, first).commands == commands[..j]
            && Judge(k, data, first, false) == Corrupt
            && (j + 1 < |commands| ==> Judge(k, data, first, true) == Corrupt)
  {
    hide Scan, Explains;
    var data := Overwritten(k, first, commands, j, damaged);
    var n, rest := Offset(k, first, commands, j), EncodeAll(k, first + j + 1, commands[j + 1..]);
    assert data[..n] == EncodeAll(k, first, commands[..j]) && data[n..] == damaged + rest;
    StopsAtDamage(k, first, commands[..j], data);
    if j + 1 < |commands| {
      var later := n + |damaged|;
      assert data[later..] == rest;
      IntactRecordAfterDamage(k, data, first, Scan(k, data, first), later, first + j + 1, commands[j + 1]);
    }
  }
}
