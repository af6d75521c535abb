/**
 * What the log protocol needs from its record format. Everything above the
 * record layer is proved for every codec that satisfies these laws; module
 * Record proves them for the on-disk format under any checksum function.
 */
module Codecs {
  import opened ByteStrings

  const HEADER_SIZE: nat := 8
  const INDEX_SIZE: nat := 8
  const RECORD_OVERHEAD: nat := HEADER_SIZE + INDEX_SIZE
  const MAX_BODY_SIZE: nat := 0x400_0000
  const MAX_COMMAND_SIZE: nat := MAX_BODY_SIZE - INDEX_SIZE

  datatype Decoded =
    | Intact(index: nat, command: Bytes, size: nat)
    | Torn
    | BadLength
    | BadChecksum

  datatype Codec = Codec(enc: (nat, Bytes) -> Bytes, dec: Bytes -> Decoded)

  /** A record whose index fits its field and whose command Append accepts. */
  predicate Storable(index: nat, command: Bytes) {
    index < INDEX_LIMIT && |command| <= MAX_COMMAND_SIZE
  }

  /** A buffer that starts with an encoded record decodes to that record. */
  ghost predicate ReadsBack(k: Codec, index: nat, command: Bytes, buf: Bytes) {
    Storable(index, command) && k.enc(index, command) <= buf
    ==> k.dec(buf) == Intact(index, command, RECORD_OVERHEAD + |command|)
  }

  /** Whatever a buffer decodes to, it starts with the encoding of that. */
  ghost predicate PrintsBack(k: Codec, buf: Bytes) {
    var d := k.dec(buf);
    d.Intact? ==> Storable(d.index, d.command) && k.enc(d.index, d.command) <= buf
                  && d.size == RECORD_OVERHEAD + |d.command|
  }

  ghost predicate Lawful(k: Codec) {
    && (forall index: nat, command: Bytes :: |k.enc(index, command)| == RECORD_OVERHEAD + |command|)
    && (forall index: nat, command: Bytes, buf: Bytes :: ReadsBack(k, index, command, buf))
    && (forall buf: Bytes :: PrintsBack(k, buf))
  }

  lemma ReadBack(k: Codec, index: nat, command: Bytes, buf: Bytes)
    requires Lawful(k) && Storable(index, command) && k.enc(index, command) <= buf
    ensures k.dec(buf) == Intact(index, command, RECORD_OVERHEAD + |command|)
  {
    assert ReadsBack(k, index, command, buf);
  }

  lemma PrintBack(k: Codec, buf: Bytes)
    requires Lawful(k) && k.dec(buf).Intact?
    ensures var d := k.dec(buf);
            Storable(d.index, d.command) && k.enc(d.index, d.command) <= buf
            && d.size == RECORD_OVERHEAD + |d.command| <= |buf|
  {
    assert PrintsBack(k, buf);
  }

  /** Bytes that follow never change what was decoded. */
  lemma DecodeMonotone(k: Codec, buf: Bytes, longer: Bytes)
    requires Lawful(k) && buf <= longer && k.dec(buf).Intact?
    ensures k.dec(longer) == k.dec(buf)
  {
    PrintBack(k, buf);
    var d := k.dec(buf);
    ReadBack(k, d.index, d.command, longer);
  }

  /** A record cut short, anywhere, is not a record. */
  lemma CutIsDamaged(k: Codec, index: nat, command: Bytes, cut: Bytes)
    requires Lawful(k) && Storable(index, command) && cut < k.enc(index, command)
    ensures !k.dec(cut).Intact?
  {
    var e := k.enc(index, command);
    if k.dec(cut).Intact? {
      PrintBack(k, cut);
      DecodeMonotone(k, cut, e);
      ReadBack(k, index, command, e);
    }
  }

  // ---- Searching a damaged tail for an intact later record ----

  /** An intact record whose index is above damaged, by at most the tail's length, starts at offset p. */
  ghost predicate LaterAt(k: Codec, tail: Bytes, damaged: nat, p: nat) {
    && p <= |tail|
    && var d := k.dec(tail[p..]);
       d.Intact? && damaged < d.index <= damaged + |tail|
  }

  ghost predicate HasLater(k: Codec, tail: Bytes, damaged: nat) {
    exists p: nat :: p >= 1 && LaterAt(k, tail, damaged, p)
  }

  /** Cutting the tail short never makes the search succeed. */
  lemma HasLaterMonotone(k: Codec, tail: Bytes, longer: Bytes, damaged: nat)
    requires Lawful(k) && tail <= longer && HasLater(k, tail, damaged)
    ensures HasLater(k, longer, damaged)
  {
    var p: nat :| p >= 1 && LaterAt(k, tail, damaged, p);
    DecodeMonotone(k, tail[p..], longer[p..]);
    assert LaterAt(k, longer, damaged, p);
  }

  /** What the search is for: the encoding of a record in the window of indexes, after the first byte. */
  lemma HasLaterIff(k: Codec, tail: Bytes, damaged: nat)
    requires Lawful(k)
    ensures HasLater(k, tail, damaged) <==>
            exists p: nat, index: nat, command: Bytes ::
              && 1 <= p <= |tail| && damaged < index <= damaged + |tail|
              && Storable(index, command) && k.enc(index, command) <= tail[p..]
  {
    if HasLater(k, tail, damaged) {
      var p: nat :| p >= 1 && LaterAt(k, tail, damaged, p);
      PrintBack(k, tail[p..]);
    }
    forall p: nat, index: nat, command: Bytes |
      && 1 <= p <= |tail| && damaged < index <= damaged + |tail|
      && Storable(index, command) && k.enc(index, command) <= tail[p..]
      ensures HasLater(k, tail, damaged)
    {
      ReadBack(k, index, command, tail[p..]);
      assert LaterAt(k, tail, damaged, p);
    }
  }
}
