/** Byte strings and the fixed-width little-endian integers of the on-disk format. */
module ByteStrings {

  type Byte = b: int | 0 <= b < 256

  type Bytes = seq<Byte>

  /** An unsigned 32-bit integer. */
  type Word = w: int | 0 <= w < 0x1_0000_0000

  /** Indexes are unsigned 64-bit integers. */
  const INDEX_LIMIT: nat := 0x1_0000_0000_0000_0000

  function Pow256(n: nat): nat {
    if n == 0 then 1 else 256 * Pow256(n - 1)
  }

  /** Byte i of v, counting from the least significant. */
  function Digit(v: nat, i: nat): Byte
    decreases i, v
  {
    if i == 0 then v % 256 else Digit(v / 256, i - 1)
  }

  /** The n low-order bytes of v, least significant first. */
  function PutUint(n: nat, v: nat): Bytes {
    seq(n, i requires 0 <= i < n => Digit(v, i))
  }

  /** The unsigned integer in the n bytes of b that start at offset at. */
  function Uint(b: Bytes, at: nat, n: nat): nat
    requires at + n <= |b|
    decreases n, at
  {
    if n == 0 then 0 else b[at] + 256 * Uint(b, at + 1, n - 1)
  }

  lemma {:induction false} UintOfDigits(b: Bytes, at: nat, n: nat, v: nat)
    requires at + n <= |b| && v < Pow256(n)
    requires forall i :: 0 <= i < n ==> b[at + i] == Digit(v, i)
    ensures Uint(b, at, n) == v
    decreases n
  {
    if n > 0 {
      forall i | 0 <= i < n - 1
        ensures b[at + 1 + i] == Digit(v / 256, i)
      {
        assert b[at + (i + 1)] == Digit(v, i + 1);
      }
      UintOfDigits(b, at + 1, n - 1, v / 256);
      assert b[at + 0] == Digit(v, 0);
    }
  }

  lemma {:induction false} DigitsOfUint(b: Bytes, at: nat, n: nat)
    requires at + n <= |b|
    ensures Uint(b, at, n) < Pow256(n)
    ensures forall i :: 0 <= i < n ==> Digit(Uint(b, at, n), i) == b[at + i]
    decreases n
  {
    if n > 0 {
      DigitsOfUint(b, at + 1, n - 1);
      var v := Uint(b, at, n);
      assert v / 256 == Uint(b, at + 1, n - 1) && v % 256 == b[at];
      forall i | 0 <= i < n
        ensures Digit(v, i) == b[at + i]
      {
        if i > 0 {
          assert Digit(v / 256, i - 1) == b[at + 1 + (i - 1)];
        }
      }
    }
  }

  /** Reading n bytes depends on those bytes alone. */
  lemma UintLocal(b: Bytes, at: nat, b': Bytes, at': nat, n: nat)
    requires at + n <= |b| && at' + n <= |b'|
    requires b[at..at + n] == b'[at'..at' + n]
    ensures Uint(b, at, n) == Uint(b', at', n)
  {
    DigitsOfUint(b', at', n);
    forall i | 0 <= i < n
      ensures b[at + i] == Digit(Uint(b', at', n), i)
    {
      assert b[at + i] == b[at..at + n][i] == b'[at'..at' + n][i];
    }
    UintOfDigits(b, at, n, Uint(b', at', n));
  }

  /** The value of b read as digits of the powers of 256, lowest first. */
  function PlaceValue(b: Bytes): nat {
    if b == [] then 0 else PlaceValue(b[..|b| - 1]) + b[|b| - 1] * Pow256(|b| - 1)
  }

  lemma {:induction false} PlaceValueCons(x: Byte, b: Bytes)
    ensures PlaceValue([x] + b) == x + 256 * PlaceValue(b)
    decreases |b|
  {
    var all, n := [x] + b, |b|;
    if b == [] {
      assert all[..0] == [] && PlaceValue([]) == 0 && Pow256(0) == 1;
    } else {
      var last, power := b[n - 1], Pow256(n - 1);
      assert all[..n] == [x] + b[..n - 1] && all[n] == last;
      PlaceValueCons(x, b[..n - 1]);
      assert 256 * (last * power) == last * (256 * power);
    }
  }

  lemma {:induction false} PlaceValueOfUint(n: nat, v: nat)
    requires v < Pow256(n)
    ensures PlaceValue(PutUint(n, v)) == v
    decreases n
  {
    if n > 0 {
      PlaceValueOfUint(n - 1, v / 256);
      assert PutUint(n, v) == [v % 256] + PutUint(n - 1, v / 256);
      PlaceValueCons(v % 256, PutUint(n - 1, v / 256));
    }
  }

  lemma FieldLimits()
    ensures Pow256(4) == 0x1_0000_0000
    ensures Pow256(8) == INDEX_LIMIT
  {
  }
}
