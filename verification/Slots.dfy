/** Partition keys and slots. */
module Slots {
  import opened ByteStrings
  import opened Options
  import Crc32c

  const OPEN: Byte := 0x7B   // '{'
  const CLOSE: Byte := 0x7D  // '}'

  /** The first position of b in s, or -1. */
  function IndexByte(s: Bytes, b: Byte): int {
    if s == [] then -1
    else if s[0] == b then 0
    else
      var i := IndexByte(s[1..], b);
      if i < 0 then -1 else i + 1
  }

  lemma {:induction false} IndexByteIsFirst(s: Bytes, b: Byte)
    ensures var i := IndexByte(s, b);
            if i < 0 then i == -1 && b !in s else i < |s| && s[i] == b && b !in s[..i]
  {
    if s != [] && s[0] != b {
      IndexByteIsFirst(s[1..], b);
      var i := IndexByte(s[1..], b);
      if i >= 0 {
        assert s[..i + 1] == [s[0]] + s[1..][..i];
      }
    }
  }

  /** The bytes the slot function hashes for key. */
  function HashInput(key: Bytes): Bytes {
    var start := IndexByte(key, OPEN);
    if start < 0 then key
    else
      IndexByteIsFirst(key, OPEN);
      var length := IndexByte(key[start + 1..], CLOSE);
      if length <= 0 then key
      else
        IndexByteIsFirst(key[start + 1..], CLOSE);
        key[start + 1..start + 1 + length]
  }

  /**
   * p is the partition key of key: what the first '{' opens and the first '}'
   * after it closes, if that is not empty.
   */
  ghost predicate IsPartitionKey(key: Bytes, before: Bytes, p: Bytes, after: Bytes) {
    && key == before + [0x7B] + p + [0x7D] + after
    && 0x7B !in before && 0x7D !in p && p != []
  }

  lemma {:induction false} FirstAt(s: Bytes, b: Byte, i: nat)
    requires i < |s| && s[i] == b && b !in s[..i]
    ensures IndexByte(s, b) == i
    decreases i
  {
    if i > 0 {
      assert s[0] in s[..i] && s[1..][..i - 1] == s[..i][1..];
      FirstAt(s[1..], b, i - 1);
    }
  }

  /** Every key of this form hashes its partition key, whatever surrounds it. */
  lemma PartitionKeyIsHashed(key: Bytes, before: Bytes, p: Bytes, after: Bytes)
    requires IsPartitionKey(key, before, p, after)
    ensures HashInput(key) == p
  {
    var n := |before|;
    assert key[..n] == before && key[n] == OPEN;
    FirstAt(key, OPEN, n);
    var rest := key[n + 1..];
    assert rest == p + [CLOSE] + after;
    assert rest[..|p|] == p && rest[|p|] == CLOSE;
    FirstAt(rest, CLOSE, |p|);
    assert key[n + 1..n + 1 + |p|] == rest[..|p|];
  }

  /** A key that does not hash whole has a partition key. */
  lemma PartitionKeyOf(key: Bytes) returns (before: Bytes, p: Bytes, after: Bytes)
    requires HashInput(key) != key
    ensures IsPartitionKey(key, before, p, after)
  {
    hide IndexByte;
    var start := IndexByte(key, OPEN);
    IndexByteIsFirst(key, OPEN);
    var rest := key[start + 1..];
    var length := IndexByte(rest, CLOSE);
    IndexByteIsFirst(rest, CLOSE);
    before, p, after := key[..start], rest[..length], rest[length + 1..];
    SplitAt(key, start);
    SplitAt(rest, length);
    assert before + [OPEN] + (p + [CLOSE] + after) == before + [OPEN] + p + [CLOSE] + after;
  }

  lemma SplitAt(s: Bytes, i: nat)
    requires i < |s|
    ensures s == s[..i] + [s[i]] + s[i + 1..]
  {
  }

  /** Hashing whole is for exactly the keys without a partition key, and for no other. */
  lemma OtherwiseTheWholeKey(key: Bytes)
    ensures HashInput(key) == key <==> !exists before, p, after :: IsPartitionKey(key, before, p, after)
  {
    if HashInput(key) != key {
      var before, p, after := PartitionKeyOf(key);
    }
    forall before, p, after | IsPartitionKey(key, before, p, after)
      ensures HashInput(key) != key
    {
      PartitionKeyIsHashed(key, before, p, after);
    }
  }

  /** Hashing the hash input changes nothing, so a key and its partition key are together. */
  lemma HashInputIsIdempotent(key: Bytes)
    ensures HashInput(HashInput(key)) == HashInput(key)
  {
    if HashInput(key) != key {
      var before, p, after := PartitionKeyOf(key);
      PartitionKeyIsHashed(key, before, p, after);
      if HashInput(p) != p {
        var b, q, a := PartitionKeyOf(p);
        assert false;
      }
    }
  }

  /** A Slotter is obtained from NewSlotter, so its count is positive. */
  datatype Slotter = Slotter(count: Word)

  function NewSlotter(count: Word): Option<Slotter> {
    if count == 0 then None else Some(Slotter(count))
  }

  function Slot(s: Slotter, key: Bytes): Word
    requires s.count > 0
  {
    Crc32c.Checksum(HashInput(key)) % s.count
  }

  /** Every other key gets the slot of all its bytes. */
  lemma WholeKeySlot(count: Word, key: Bytes)
    requires !exists before, p, after :: IsPartitionKey(key, before, p, after)
    ensures count > 0 ==> Slot(NewSlotter(count).value, key) == Crc32c.Checksum(key) % count
  {
    OtherwiseTheWholeKey(key);
  }

  /** Keys with the same partition key share a slot, which is also the partition key's own, and it is in range. */
  lemma Colocated(
    count: Word, p: Bytes, before: Bytes, after: Bytes, before': Bytes, after': Bytes, key: Bytes, key': Bytes)
    requires IsPartitionKey(key, before, p, after) && IsPartitionKey(key', before', p, after')
    ensures NewSlotter(count).Some? <==> count > 0
    ensures count > 0 ==>
              var s := NewSlotter(count).value;
              Slot(s, key) == Slot(s, key') == Slot(s, p) == Crc32c.Checksum(p) % count
  {
    PartitionKeyIsHashed(key, before, p, after);
    PartitionKeyIsHashed(key', before', p, after');
    HashInputIsIdempotent(key);
  }
}
