/**
 * Log records: length (4 bytes), checksum of the body (4), index (8), command.
 * Integers are little-endian; the body is the index and the command. The
 * format is lawful under any checksum function; the log uses Crc32c.Checksum.
 */
module Record {
  import opened ByteStrings
  import opened Codecs

  type Crc = Bytes -> Word

  function Body(index: nat, command: Bytes): Bytes {
    PutUint(8, index) + command
  }

  function Encode(crc: Crc, index: nat, command: Bytes): (r: Bytes)
    ensures |r| == RECORD_OVERHEAD + |command|
  {
    var body := Body(index, command);
    PutUint(4, |body|) + PutUint(4, crc(body)) + body
  }

  function Decode(crc: Crc, buf: Bytes): Decoded {
    if |buf| < HEADER_SIZE then Torn
    else
      var length := Uint(buf, 0, 4);
      if length < INDEX_SIZE || length > MAX_BODY_SIZE then BadLength
      else if |buf| < HEADER_SIZE + length then Torn
      else if crc(buf[8..8 + length]) != Uint(buf, 4, 4) then BadChecksum
      else Intact(Uint(buf, 8, 8), buf[16..8 + length], HEADER_SIZE + length)
  }

  function RecordCodec(crc: Crc): Codec {
    Codec((index: nat, command: Bytes) => Encode(crc, index, command), (buf: Bytes) => Decode(crc, buf))
  }

  /** k is the record format under the checksum crc. */
  ghost predicate Implements(k: Codec, crc: Crc) {
    && (forall buf: Bytes {:trigger Decode(crc, buf)} :: k.dec(buf) == Decode(crc, buf))
    && (forall index: nat, command: Bytes {:trigger Encode(crc, index, command)} ::
          k.enc(index, command) == Encode(crc, index, command))
  }

  /** encodeRecord: fills the buffer body first, then the header that describes it. */
  method EncodeRecord(crc: Crc, index: nat, command: Bytes) returns (buf: array<Byte>)
    ensures fresh(buf) && buf[..] == Encode(crc, index, command)
  {
    buf := new Byte[RECORD_OVERHEAD + |command|];
    Fill(buf, 8, PutUint(8, index));
    Fill(buf, 16, command);
    assert buf[8..] == Body(index, command);
    Fill(buf, 0, PutUint(4, |buf[8..]|));
    assert buf[8..] == Body(index, command);
    Fill(buf, 4, PutUint(4, crc(buf[8..])));
    assert buf[..] == buf[..4] + buf[4..8] + buf[8..];
  }

  method Fill(buf: array<Byte>, at: nat, bytes: Bytes)
    requires at + |bytes| <= buf.Length
    modifies buf
    ensures buf[..] == old(buf[..at]) + bytes + old(buf[at + |bytes|..])
  {
    for i := 0 to |bytes|
      invariant buf[..at] == old(buf[..at])
      invariant buf[at..at + i] == bytes[..i]
      invariant buf[at + |bytes|..] == old(buf[at + |bytes|..])
    {
      buf[at + i] := bytes[i];
    }
    assert buf[..] == buf[..at] + buf[at..at + |bytes|] + buf[at + |bytes|..];
  }

  // ---- Parse and print are inverse ----

  /** The fields of an encoded record, wherever it is read from. */
  lemma Fields(crc: Crc, index: nat, command: Bytes, buf: Bytes)
    requires Encode(crc, index, command) <= buf
    requires index < INDEX_LIMIT && INDEX_SIZE + |command| < 0x1_0000_0000
    ensures Uint(buf, 0, 4) == INDEX_SIZE + |command|
    ensures Uint(buf, 4, 4) == crc(Body(index, command))
    ensures Uint(buf, 8, 8) == index
    ensures buf[8..16 + |command|] == Body(index, command)
    ensures buf[16..16 + |command|] == command
  {
    var e, body := Encode(crc, index, command), Body(index, command);
    FieldLimits();
    UintOfDigits(e, 0, 4, |body|);
    UintOfDigits(e, 4, 4, crc(body));
    UintOfDigits(e, 8, 8, index);
    assert e == buf[..|e|];
    UintLocal(buf, 0, e, 0, 4);
    UintLocal(buf, 4, e, 4, 4);
    UintLocal(buf, 8, e, 8, 8);
    assert e[8..] == body;
  }

  /** A record spelled out: length, checksum and index, little-endian, and the command. */
  lemma RecordSpelled(crc: Crc, index: nat, command: Bytes)
    requires Storable(index, command)
    ensures var e := Encode(crc, index, command);
            && |e| == 16 + |command| && PlaceValue(e[..4]) == 8 + |command| && PlaceValue(e[4..8]) == crc(e[8..])
            && PlaceValue(e[8..16]) == index && e[16..] == command
  {
    var e, body := Encode(crc, index, command), Body(index, command);
    FieldLimits();
    assert e[8..] == body && e[..4] == PutUint(4, |body|) && e[4..8] == PutUint(4, crc(body));
    assert e[8..16] == PutUint(8, index);
    PlaceValueOfUint(4, |body|);
    PlaceValueOfUint(4, crc(body));
    PlaceValueOfUint(8, index);
  }

  lemma DecodeEncode(crc: Crc, index: nat, command: Bytes, buf: Bytes)
    requires Storable(index, command) && Encode(crc, index, command) <= buf
    ensures Decode(crc, buf) == Intact(index, command, |Encode(crc, index, command)|)
  {
    Fields(crc, index, command, buf);
  }

  lemma EncodeDecode(crc: Crc, buf: Bytes)
    requires Decode(crc, buf).Intact?
    ensures var d := Decode(crc, buf);
            Storable(d.index, d.command) && Encode(crc, d.index, d.command) <= buf
            && d.size == |Encode(crc, d.index, d.command)|
  {
    var d := Decode(crc, buf);
    FieldLimits();
    DigitsOfUint(buf, 0, 4);
    DigitsOfUint(buf, 4, 4);
    DigitsOfUint(buf, 8, 8);
    var body := buf[8..d.size];
    assert PutUint(4, |body|) == buf[0..4] && PutUint(4, crc(body)) == buf[4..8];
    assert body == Body(d.index, d.command) by {
      assert body == body[..8] + body[8..];
      assert body[..8] == PutUint(8, d.index);
    }
    assert buf[..d.size] == buf[0..4] + buf[4..8] + body;
  }

  /** Decoding succeeds exactly on the buffers that start with the encoding of a storable record. */
  lemma DecodeIffPrefix(crc: Crc, buf: Bytes, index: nat, command: Bytes)
    ensures Decode(crc, buf) == Intact(index, command, |Encode(crc, index, command)|)
       <==> Storable(index, command) && Encode(crc, index, command) <= buf
  {
    if Storable(index, command) && Encode(crc, index, command) <= buf {
      DecodeEncode(crc, index, command, buf);
    }
    if Decode(crc, buf).Intact? {
      EncodeDecode(crc, buf);
    }
  }

  lemma RecordCodecIsLawful(crc: Crc)
    ensures Lawful(RecordCodec(crc)) && Implements(RecordCodec(crc), crc)
  {
    var k := RecordCodec(crc);
    forall index: nat, command: Bytes, buf: Bytes
      ensures ReadsBack(k, index, command, buf)
    {
      DecodeIffPrefix(crc, buf, index, command);
    }
    forall buf: Bytes
      ensures PrintsBack(k, buf)
    {
      if Decode(crc, buf).Intact? {
        EncodeDecode(crc, buf);
      }
    }
  }

  /** A record cut short, anywhere, is classified as torn. */
  lemma CutIsTorn(crc: Crc, index: nat, command: Bytes, cut: Bytes)
    requires Storable(index, command) && cut < Encode(crc, index, command)
    ensures Decode(crc, cut) == Torn
  {
    if |cut| >= HEADER_SIZE {
      var e := Encode(crc, index, command);
      Fields(crc, index, command, e);
      assert cut[0..4] == e[0..4];
      UintLocal(cut, 0, e, 0, 4);
    }
  }

  /** Append's size limit is the decoder's: the guard rejects no readable record and admits no unreadable one. */
  lemma SizeGuardIsExact(crc: Crc, index: nat, command: Bytes)
    requires index < INDEX_LIMIT && INDEX_SIZE + |command| < 0x1_0000_0000
    ensures Decode(crc, Encode(crc, index, command)).Intact? <==> |command| <= MAX_COMMAND_SIZE
    ensures MAX_COMMAND_SIZE == 64 * 1024 * 1024 - 8
    ensures |command| > MAX_COMMAND_SIZE ==> Decode(crc, Encode(crc, index, command)) == BadLength
  {
    Fields(crc, index, command, Encode(crc, index, command));
  }

  // ---- Searching a damaged tail ----

  /** hasLaterRecord: the loop, its index filter and its bound find exactly the records HasLater speaks of. */
  method HasLaterRecord(crc: Crc, ghost k: Codec, tail: Bytes, damaged: nat) returns (found: bool)
    requires Implements(k, crc)
    ensures found <==> HasLater(k, tail, damaged)
  {
    var p := 1;
    while p + HEADER_SIZE + INDEX_SIZE <= |tail|
      invariant 1 <= p
      invariant forall q: nat :: 1 <= q < p ==> !LaterAt(k, tail, damaged, q)
      decreases |tail| - p
    {
      var index := Uint(tail, p + 8, 8);
      UintLocal(tail, p + 8, tail[p..], 8, 8);
      var rest := tail[p..];
      assert k.dec(rest) == Decode(crc, rest);
      if damaged < index && index - damaged <= |tail| {
        var d := Decode(crc, rest);
        if d.Intact? && d.index == index {
          assert LaterAt(k, tail, damaged, p);
          return true;
        }
      }
      p := p + 1;
    }
    forall q: nat | p <= q
      ensures !LaterAt(k, tail, damaged, q)
    {
      if LaterAt(k, tail, damaged, q) {
        assert k.dec(tail[q..]) == Decode(crc, tail[q..]);
        EncodeDecode(crc, tail[q..]);
      }
    }
    return false;
  }
}

/** What CRC32C adds: small damage to a record's body cannot go unnoticed. */
module RecordDamage {
  import opened ByteStrings
  import opened Codecs
  import opened Record
  import Crc32c

  /** An encoded record and a copy of it that differs from it, but only in four consecutive bytes of its body. */
  ghost predicate BodyDamaged(e: Bytes, damaged: Bytes, k: nat) {
    && |damaged| == |e| && damaged != e
    && HEADER_SIZE <= k && k + 4 <= |e|
    && damaged[..k] == e[..k] && damaged[k + 4..] == e[k + 4..]
  }

  lemma DamagedParts(e: Bytes, damaged: Bytes, k: nat)
    requires BodyDamaged(e, damaged, k)
    ensures damaged[..8] == e[..8]
    ensures damaged[8..] != e[8..]
    ensures damaged[8..][..k - 8] == e[8..][..k - 8]
    ensures damaged[8..][k - 8 + 4..] == e[8..][k - 8 + 4..]
  {
    assert damaged[..8] == damaged[..k][..8] == e[..k][..8] == e[..8];
    assert damaged[8..][..k - 8] == damaged[..k][8..];
    assert e[8..][..k - 8] == e[..k][8..];
    assert damaged[8..][k - 8 + 4..] == damaged[k + 4..];
    assert e[8..][k - 8 + 4..] == e[k + 4..];
    assert damaged == damaged[..8] + damaged[8..] && e == e[..8] + e[8..];
  }

  /** Any change confined to four consecutive bytes of a stored body is reported as a bad checksum. */
  lemma BodyDamageIsDetected(index: nat, command: Bytes, damaged: Bytes, k: nat, rest: Bytes)
    requires Storable(index, command)
    requires BodyDamaged(Encode(Crc32c.Checksum, index, command), damaged, k)
    ensures Decode(Crc32c.Checksum, damaged + rest) == BadChecksum
  {
    var e := Encode(Crc32c.Checksum, index, command);
    DamagedParts(e, damaged, k);
    Crc32c.BurstChangesChecksum(damaged[8..], e[8..], k - 8);
    HeaderStands(Crc32c.Checksum, index, command, damaged, rest);
  }

  lemma HeaderStands(crc: Crc, index: nat, command: Bytes, damaged: Bytes, rest: Bytes)
    requires Storable(index, command)
    requires var e := Encode(crc, index, command);
             |damaged| == |e| && damaged[..8] == e[..8] && crc(damaged[8..]) != crc(e[8..])
    ensures Decode(crc, damaged + rest) == BadChecksum
  {
    hide Encode, Uint;
    var e, buf := Encode(crc, index, command), damaged + rest;
    Fields(crc, index, command, e);
    assert e[8..] == e[8..16 + |command|];
    assert buf[0..4] == damaged[..8][..4] == e[..8][..4] == e[0..4];
    assert buf[4..8] == damaged[..8][4..] == e[..8][4..] == e[4..8];
    UintLocal(buf, 0, e, 0, 4);
    UintLocal(buf, 4, e, 4, 4);
    assert buf[8..16 + |command|] == damaged[8..];
  }
}
