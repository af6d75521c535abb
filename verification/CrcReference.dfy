/**
 * What a CRC32C is, apart from any shift register: section 12.1 of RFC 3720. A
 * message is a polynomial over the two-element field, its first bit the highest
 * coefficient. It is divided by the generator in long hand.
 */
module CrcReference {
  import opened ByteStrings
  import opened Crc32c

  type Bits = seq<bool>

  /** The exponents of the generator of Castagnoli, 0x11EDC6F41. */
  const EXPONENTS: set<nat> := {32, 28, 27, 26, 25, 23, 22, 20, 19, 18, 14, 13, 11, 10, 9, 8, 6, 0}

  /** Its coefficients, highest first. */
  function Generator(): Bits {
    seq(33, i requires 0 <= i < 33 => (32 - i) in EXPONENTS)
  }

  /** a minus b, which is also a plus b, aligned at the highest coefficient. */
  function Minus(a: Bits, b: Bits): (r: Bits)
    requires |b| <= |a|
    ensures |r| == |a|
  {
    seq(|a|, i requires 0 <= i < |a| => if i < |b| then a[i] != b[i] else a[i])
  }

  /** What long division by the generator leaves of a: the last 32 coefficients. */
  function Remainder(a: Bits): (r: Bits)
    requires |a| >= 32
    ensures |r| == 32
    decreases |a|
  {
    if |a| == 32 then a
    else if a[0] then Remainder(Minus(a, Generator())[1..])
    else Remainder(a[1..])
  }

  function Repeat(n: nat, b: bool): Bits {
    seq(n, i => b)
  }

  function Complement(a: Bits): Bits {
    Minus(a, Repeat(|a|, true))
  }

  /** Bit i of v, counting from the least significant. */
  function Bit(v: nat, i: nat): bool
    decreases i, v
  {
    if i == 0 then v % 2 == 1 else Bit(v / 2, i - 1)
  }

  /** The n low-order bits of v in the order of transmission, least significant first. */
  function BitsOf(n: nat, v: nat): (r: Bits)
    ensures |r| == n
  {
    seq(n, i requires 0 <= i < n => Bit(v, i))
  }

  function MessageBits(s: Bytes): (r: Bits)
    ensures |r| == 8 * |s|
    decreases |s|
  {
    if s == [] then [] else BitsOf(8, s[0]) + MessageBits(s[1..])
  }

  /** The message times x^32, with its first 32 coefficients complemented, divided; the remainder is complemented. */
  function Reference(s: Bytes): Bits {
    Complement(Remainder(Minus(MessageBits(s) + Repeat(32, false), Repeat(32, true))))
  }

  // ---- Bits ----

  lemma {:induction false} BitOfXor(a: nat, b: nat, i: nat)
    ensures Bit(Xor(a, b), i) == (Bit(a, i) != Bit(b, i))
    decreases i
  {
    XorStep(a, b);
    if i > 0 {
      BitOfXor(a / 2, b / 2, i - 1);
    }
  }

  lemma {:induction false} HighBit(v: nat, n: nat, i: nat)
    requires v < Pow2(n) && n <= i
    ensures !Bit(v, i)
    decreases i
  {
    if i > 0 {
      HighBit(v / 2, if n == 0 then 0 else n - 1, i - 1);
    }
  }

  /** The low n bits of v, and the rest. */
  lemma {:induction false} SplitBits(n: nat, a: nat, x: nat, i: nat)
    requires x < Pow2(n)
    ensures Bit(Pow2(n) * a + x, i) == if i < n then Bit(x, i) else Bit(a, i - n)
    decreases n
  {
    if n > 0 {
      var m := Pow2(n - 1) * a;
      assert Pow2(n) * a == 2 * m;
      assert (2 * m + x) / 2 == m + x / 2 && (2 * m + x) % 2 == x % 2;
      if i > 0 {
        SplitBits(n - 1, a, x / 2, i - 1);
      }
    }
  }

  /** The four digits of a 16-bit number. */
  lemma HexBits(a: nat, b: nat, c: nat, d: nat, i: nat)
    requires a < 16 && b < 16 && c < 16 && d < 16 && i < 16
    ensures var v := 4096 * a + 256 * b + 16 * c + d;
            Bit(v, i) == if i < 4 then Bit(d, i) else if i < 8 then Bit(c, i - 4)
                         else if i < 12 then Bit(b, i - 8) else Bit(a, i - 12)
  {
    hide Bit;
    assert Pow2(4) == 16;
    SplitBits(4, 256 * a + 16 * b + c, d, i);
    if i >= 4 {
      SplitBits(4, 16 * a + b, c, i - 4);
    }
    if i >= 8 {
      SplitBits(4, a, b, i - 8);
    }
  }

  /** The register's polynomial is the generator without its highest term. */
  lemma PolynomialBits(i: nat)
    requires i < 32
    ensures Bit(POLYNOMIAL, i) == ((31 - i) in EXPONENTS)
  {
    hide Bit;
    Powers();
    SplitBits(16, 0x82F6, 0x3B78, i);
    Nibbles();
    if i < 16 {
      HexBits(0x3, 0xB, 0x7, 0x8, i);
    } else {
      HexBits(0x8, 0x2, 0xF, 0x6, i - 16);
    }
  }

  lemma Nibbles()
    ensures !Bit(0x2, 0) && Bit(0x2, 1) && !Bit(0x2, 2) && !Bit(0x2, 3)
    ensures Bit(0x3, 0) && Bit(0x3, 1) && !Bit(0x3, 2) && !Bit(0x3, 3)
    ensures !Bit(0x6, 0) && Bit(0x6, 1) && Bit(0x6, 2) && !Bit(0x6, 3)
    ensures Bit(0x7, 0) && Bit(0x7, 1) && Bit(0x7, 2) && !Bit(0x7, 3)
    ensures !Bit(0x8, 0) && !Bit(0x8, 1) && !Bit(0x8, 2) && Bit(0x8, 3)
    ensures Bit(0xB, 0) && Bit(0xB, 1) && !Bit(0xB, 2) && Bit(0xB, 3)
    ensures Bit(0xF, 0) && Bit(0xF, 1) && Bit(0xF, 2) && Bit(0xF, 3)
  {
  }

  lemma GeneratorIs()
    ensures Generator() == [true] + BitsOf(32, POLYNOMIAL)
  {
    forall i | 0 <= i < 33
      ensures Generator()[i] == ([true] + BitsOf(32, POLYNOMIAL))[i]
    {
      if i > 0 {
        PolynomialBits(i - 1);
      }
    }
  }

  // ---- The register divides ----

  /** A register holds the highest coefficients of what is still to be divided, xored into what is still to come. */
  function Pending(c: nat, rest: Bits): (r: Bits)
    requires |rest| >= 32
    ensures |r| == |rest|
  {
    Minus(rest, BitsOf(32, c))
  }

  lemma BitOfShift(c: nat, i: nat)
    ensures Bit(Shift(c), i) == (Bit(c, i + 1) != (Bit(c, 0) && Bit(POLYNOMIAL, i)))
  {
    BitOfXor(c / 2, POLYNOMIAL, i);
  }

  /** One shift of the register is one step of the division. */
  lemma ShiftDivides(c: nat, rest: Bits)
    requires c < 0x1_0000_0000 && |rest| >= 32
    ensures Remainder(Pending(c, [false] + rest)) == Remainder(Pending(Shift(c), rest))
  {
    var a := Pending(c, [false] + rest);
    assert a[0] == Bit(c, 0);
    GeneratorIs();
    Powers();
    HighBit(c, 32, 32);
    var next := if a[0] then Minus(a, Generator())[1..] else a[1..];
    forall i | 0 <= i < |rest|
      ensures next[i] == Pending(Shift(c), rest)[i]
    {
      if i < 32 {
        BitOfShift(c, i);
      }
    }
    assert next == Pending(Shift(c), rest);
  }

  lemma {:induction false} ShiftsDivide(n: nat, c: nat, rest: Bits)
    requires c < 0x1_0000_0000 && |rest| >= 32
    ensures Remainder(Pending(c, Repeat(n, false) + rest)) == Remainder(Pending(Shifts(n, c), rest))
    decreases n
  {
    if n == 0 {
      assert Repeat(n, false) + rest == rest;
    } else {
      var more := Repeat(n - 1, false) + rest;
      assert Repeat(n, false) + rest == [false] + more;
      ShiftDivides(c, more);
      ShiftBounds(c);
      ShiftsDivide(n - 1, Shift(c), rest);
    }
  }

  lemma FeedDivides(c: nat, b: Byte, rest: Bits)
    requires c < 0x1_0000_0000 && |rest| >= 32
    ensures Remainder(Pending(c, BitsOf(8, b) + rest)) == Remainder(Pending(Feed(c, b), rest))
  {
    hide Remainder;
    var a, z := Pending(c, BitsOf(8, b) + rest), Pending(Xor(c, b), Repeat(8, false) + rest);
    Powers();
    forall i | 0 <= i < |a|
      ensures a[i] == z[i]
    {
      BitOfXor(c, b, i);
      if i >= 8 {
        HighBit(b, 8, i);
      }
    }
    assert a == z;
    XorBounds(32, c, b);
    ShiftsDivide(8, Xor(c, b), rest);
  }

  lemma {:induction false} FeedAllDivides(c: nat, s: Bytes)
    requires c < 0x1_0000_0000
    ensures Remainder(Pending(c, MessageBits(s) + Repeat(32, false))) == BitsOf(32, FeedAll(c, s))
    decreases |s|
  {
    var zeros := Repeat(32, false);
    if s == [] {
      assert MessageBits(s) + zeros == zeros;
      assert Pending(c, zeros) == BitsOf(32, c);
    } else {
      var rest := MessageBits(s[1..]) + zeros;
      assert MessageBits(s) + zeros == BitsOf(8, s[0]) + rest;
      FeedDivides(c, s[0], rest);
      FeedAllBound(c, [s[0]]);
      FeedAllDivides(Feed(c, s[0]), s[1..]);
    }
  }

  /** The 32 bits of the checksum, least significant first, are the coefficients of the reference, highest first. */
  lemma ChecksumIsRemainder(s: Bytes)
    ensures BitsOf(32, Checksum(s)) == Reference(s)
  {
    hide Remainder, MessageBits;
    AllOnes();
    var c := FeedAll(ALL_ONES, s);
    FeedAllDivides(ALL_ONES, s);
    forall i | 0 <= i < 32
      ensures BitsOf(32, Checksum(s))[i] == Complement(BitsOf(32, c))[i]
    {
      BitOfXor(c, ALL_ONES, i);
      assert BitsOf(32, ALL_ONES)[i];
    }
    assert BitsOf(32, Checksum(s)) == Complement(BitsOf(32, c));
  }

  lemma AllOnes()
    ensures BitsOf(32, ALL_ONES) == Repeat(32, true)
  {
    Powers();
    forall i: nat | i < 32 ensures Bit(ALL_ONES, i) {
      OnesBit(32, i);
    }
  }

  lemma {:induction false} OnesBit(n: nat, i: nat)
    requires i < n
    ensures Pow2(n) > 0 && Bit(Pow2(n) - 1, i)
    decreases n
  {
    Pow2Monotone(0, n - 1);
    if i > 0 {
      OnesBit(n - 1, i - 1);
      assert (Pow2(n) - 1) / 2 == Pow2(n - 1) - 1;
    }
  }

  /** No other number below 2^32 has those bits. */
  lemma {:induction false} BitsDetermine(n: nat, v: nat, w: nat)
    requires v < Pow2(n) && w < Pow2(n) && BitsOf(n, v) == BitsOf(n, w)
    ensures v == w
    decreases n
  {
    if n > 0 {
      assert Bit(v, 0) == BitsOf(n, v)[0] == BitsOf(n, w)[0] == Bit(w, 0);
      forall i: nat | i < n - 1
        ensures Bit(v / 2, i) == Bit(w / 2, i)
      {
        assert BitsOf(n, v)[i + 1] == BitsOf(n, w)[i + 1];
      }
      assert BitsOf(n - 1, v / 2) == BitsOf(n - 1, w / 2);
      BitsDetermine(n - 1, v / 2, w / 2);
    }
  }

  /** So the checksum is the one number below 2^32 with the bits of the reference. */
  lemma ChecksumIff(s: Bytes, w: Word)
    ensures w == Checksum(s) <==> BitsOf(32, w) == Reference(s)
  {
    hide Remainder, MessageBits, Checksum;
    Powers();
    ChecksumIsRemainder(s);
    if BitsOf(32, w) == Reference(s) {
      BitsDetermine(32, w, Checksum(s));
    }
  }
}
