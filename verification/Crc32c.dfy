/**
 * CRC32C (Castagnoli), as defined in section 12.1 of RFC 3720: the reflected
 * polynomial 0x82F63B78, an all-ones initial register and a final complement.
 * Registers are integers below 2^32, and exclusive or is defined digit by digit.
 */
module Crc32c {
  import opened ByteStrings

  const POLYNOMIAL: nat := 0x82F6_3B78
  const ALL_ONES: nat := 0xFFFF_FFFF

  /** Bitwise exclusive or. */
  function Xor(a: nat, b: nat): nat
    decreases a + b
  {
    if a + b == 0 then 0 else (if a % 2 == b % 2 then 0 else 1) + 2 * Xor(a / 2, b / 2)
  }

  /** One shift of the reflected register. */
  function Shift(c: nat): nat {
    if c % 2 == 1 then Xor(c / 2, POLYNOMIAL) else c / 2
  }

  function Shifts(n: nat, c: nat): nat
    decreases n, c
  {
    if n == 0 then c else Shifts(n - 1, Shift(c))
  }

  /** The register after one more byte. */
  function Feed(c: nat, b: Byte): nat {
    Shifts(8, Xor(c, b))
  }

  function FeedAll(c: nat, s: Bytes): nat
    decreases |s|
  {
    if s == [] then c else FeedAll(Feed(c, s[0]), s[1..])
  }

  /** The CRC32C of s. */
  function Checksum(s: Bytes): Word {
    ChecksumBound(s);
    Xor(FeedAll(ALL_ONES, s), ALL_ONES)
  }

  // ---- Exclusive or ----

  lemma {:induction false} XorZero(a: nat)
    ensures Xor(a, 0) == a
  {
    if a > 0 {
      XorZero(a / 2);
    }
  }

  lemma {:induction false} XorSelf(a: nat)
    ensures Xor(a, a) == 0
  {
    if a > 0 {
      XorSelf(a / 2);
    }
  }

  lemma {:induction false} XorCommutes(a: nat, b: nat)
    ensures Xor(a, b) == Xor(b, a)
    decreases a + b
  {
    if a + b > 0 {
      XorCommutes(a / 2, b / 2);
    }
  }

  /** The low bit and the rest of an exclusive or. */
  lemma XorStep(a: nat, b: nat)
    ensures Xor(a, b) % 2 == 0 <==> a % 2 == b % 2
    ensures Xor(a, b) / 2 == Xor(a / 2, b / 2)
  {
    if a + b == 0 {
      assert Xor(0, 0) == 0;
    }
  }

  lemma SameDigits(x: nat, y: nat)
    requires x / 2 == y / 2
    requires x % 2 == 0 <==> y % 2 == 0
    ensures x == y
  {
  }

  lemma {:induction false} XorAssociates(a: nat, b: nat, c: nat)
    ensures Xor(Xor(a, b), c) == Xor(a, Xor(b, c))
    decreases a + b + c
  {
    if a + b + c > 0 {
      XorAssociates(a / 2, b / 2, c / 2);
      XorStep(a, b);
      XorStep(b, c);
      XorStep(Xor(a, b), c);
      XorStep(a, Xor(b, c));
      SameDigits(Xor(Xor(a, b), c), Xor(a, Xor(b, c)));
    }
  }

  lemma XorExchange(a: nat, b: nat, c: nat, d: nat)
    ensures Xor(Xor(a, b), Xor(c, d)) == Xor(Xor(a, c), Xor(b, d))
  {
    XorAssociates(a, b, Xor(c, d));
    XorAssociates(b, c, d);
    XorCommutes(b, c);
    XorAssociates(c, b, d);
    XorAssociates(a, c, Xor(b, d));
  }

  lemma {:induction false} XorCancels(a: nat, b: nat)
    requires Xor(a, b) == 0
    ensures a == b
    decreases a + b
  {
    if a + b > 0 {
      XorStep(a, b);
      XorCancels(a / 2, b / 2);
      SameDigits(a, b);
    }
  }

  function Pow2(k: nat): nat {
    if k == 0 then 1 else 2 * Pow2(k - 1)
  }

  /** Exclusive or stays within k bits, and keeps a bit that only one side has. */
  lemma {:induction false} XorBounds(k: nat, a: nat, b: nat)
    requires b < Pow2(k)
    ensures a < Pow2(k) ==> Xor(a, b) < Pow2(k)
    ensures a >= Pow2(k) ==> Xor(a, b) >= Pow2(k)
    decreases k
  {
    if k == 0 {
      XorZero(a);
    } else {
      XorStep(a, b);
      XorBounds(k - 1, a / 2, b / 2);
    }
  }

  lemma Powers()
    ensures Pow2(8) == 0x100 && Pow2(16) == 0x1_0000 && Pow2(24) == 0x100_0000
    ensures Pow2(31) == 0x8000_0000 && Pow2(32) == 0x1_0000_0000
  {
    assert Pow2(8) == 0x100;
    assert Pow2(16) == 0x1_0000;
    assert Pow2(24) == 0x100_0000;
    assert Pow2(31) == 0x8000_0000;
  }

  // ---- Registers ----

  lemma ShiftBounds(c: nat)
    requires c < 0x1_0000_0000
    ensures c / 2 <= Shift(c) < 0x1_0000_0000
    ensures c % 2 == 1 ==> Shift(c) >= 0x8000_0000
  {
    Powers();
    XorCommutes(c / 2, POLYNOMIAL);
    XorBounds(31, POLYNOMIAL, c / 2);
    XorBounds(32, POLYNOMIAL, c / 2);
  }

  lemma ShiftLinear(c: nat, d: nat)
    ensures Xor(Shift(c), Shift(d)) == Shift(Xor(c, d))
  {
    var p := if c % 2 == 1 then POLYNOMIAL else 0;
    var q := if d % 2 == 1 then POLYNOMIAL else 0;
    XorZero(c / 2);
    XorZero(d / 2);
    XorExchange(c / 2, p, d / 2, q);
    XorStep(c, d);
    XorSelf(POLYNOMIAL);
    XorZero(POLYNOMIAL);
    XorCommutes(p, q);
    XorZero(Xor(c / 2, d / 2));
    assert Xor(0, 0) == 0;
  }

  lemma {:induction false} ShiftsLinear(n: nat, c: nat, d: nat)
    ensures Xor(Shifts(n, c), Shifts(n, d)) == Shifts(n, Xor(c, d))
  {
    if n > 0 {
      ShiftLinear(c, d);
      ShiftsLinear(n - 1, Shift(c), Shift(d));
    }
  }

  /** n shifts lower the leading bit by at most n places. */
  lemma {:induction false} ShiftsKeep(n: nat, k: nat, c: nat)
    requires Pow2(n + k) <= c < 0x1_0000_0000
    ensures Pow2(k) <= Shifts(n, c) < 0x1_0000_0000
  {
    if n > 0 {
      ShiftBounds(c);
      ShiftsKeep(n - 1, k, Shift(c));
    }
  }

  lemma {:induction false} ShiftsBound(n: nat, c: nat)
    requires c < 0x1_0000_0000
    ensures Shifts(n, c) < 0x1_0000_0000
  {
    if n > 0 {
      ShiftBounds(c);
      ShiftsBound(n - 1, Shift(c));
    }
  }

  /** A non-zero register below 2^n feeds back within n shifts, so it ends at 2^(32 - n) or above. */
  lemma {:induction false} ShiftsFeedBack(n: nat, k: nat, c: nat)
    requires 0 < c < Pow2(n) && n + k == 32
    ensures Pow2(k) <= Shifts(n, c) < 0x1_0000_0000
  {
    Powers();
    Pow2Monotone(n, 32);
    ShiftBounds(c);
    if c % 2 == 1 {
      ShiftsKeep(n - 1, k, Shift(c));
    } else {
      ShiftsFeedBack(n - 1, k + 1, c / 2);
    }
  }

  lemma {:induction false} Pow2Monotone(j: nat, k: nat)
    requires j <= k
    ensures 0 < Pow2(j) <= Pow2(k)
    decreases k
  {
    if j < k {
      Pow2Monotone(j, k - 1);
    } else if j > 0 {
      Pow2Monotone(j - 1, k - 1);
    }
  }

  lemma {:induction false} ShiftsNonZero(n: nat, c: nat)
    requires 0 < c < 0x1_0000_0000
    ensures 0 < Shifts(n, c) < 0x1_0000_0000
  {
    if n > 0 {
      ShiftBounds(c);
      ShiftsNonZero(n - 1, Shift(c));
    }
  }

  // ---- Bytes: how the difference of two registers evolves ----

  lemma FeedDifference(c: nat, d: nat, a: Byte, b: Byte)
    ensures Xor(Feed(c, a), Feed(d, b)) == Shifts(8, Xor(Xor(c, d), Xor(a, b)))
  {
    ShiftsLinear(8, Xor(c, a), Xor(d, b));
    XorExchange(c, a, d, b);
  }

  lemma XorByte(a: Byte, b: Byte)
    ensures Xor(a, b) < Pow2(8)
    ensures Xor(a, b) == 0 <==> a == b
  {
    Powers();
    XorBounds(8, a, b);
    XorSelf(a);
    if Xor(a, b) == 0 {
      XorCancels(a, b);
    }
  }

  /** A difference of more than 8 * |s| bits outlives any |s| bytes, equal or not. */
  lemma {:induction false} DifferenceSurvives(c: nat, d: nat, s: Bytes, t: Bytes)
    requires |s| == |t|
    requires Pow2(8 * |s|) <= Xor(c, d) < 0x1_0000_0000
    ensures FeedAll(c, s) != FeedAll(d, t)
    decreases |s|
  {
    if s == [] {
      XorSelf(c);
    } else {
      var k := 8 * |s[1..]|;
      FeedDifference(c, d, s[0], t[0]);
      XorByte(s[0], t[0]);
      Pow2Monotone(8, 8 * |s|);
      XorBounds(8 * |s|, Xor(c, d), Xor(s[0], t[0]));
      Powers();
      XorBounds(32, Xor(c, d), Xor(s[0], t[0]));
      ShiftsKeep(8, k, Xor(Xor(c, d), Xor(s[0], t[0])));
      DifferenceSurvives(Feed(c, s[0]), Feed(d, t[0]), s[1..], t[1..]);
    }
  }

  /** Different strings of at most four bytes leave different registers. */
  lemma {:induction false} ShortStringsDiffer(c: nat, s: Bytes, t: Bytes)
    requires |s| == |t| <= 4 && s != t
    ensures FeedAll(c, s) != FeedAll(c, t)
    decreases |s|
  {
    if s[0] == t[0] {
      assert s[1..] != t[1..] by {
        assert s == [s[0]] + s[1..] && t == [t[0]] + t[1..];
      }
      ShortStringsDiffer(Feed(c, s[0]), s[1..], t[1..]);
    } else {
      FeedDifference(c, c, s[0], t[0]);
      XorSelf(c);
      XorByte(s[0], t[0]);
      XorCommutes(0, Xor(s[0], t[0]));
      XorZero(Xor(s[0], t[0]));
      ShiftsFeedBack(8, 24, Xor(s[0], t[0]));
      Pow2Monotone(8 * |s[1..]|, 24);
      DifferenceSurvives(Feed(c, s[0]), Feed(c, t[0]), s[1..], t[1..]);
    }
  }

  lemma {:induction false} FeedAllBound(c: nat, s: Bytes)
    requires c < 0x1_0000_0000
    ensures FeedAll(c, s) < 0x1_0000_0000
    decreases |s|
  {
    if s != [] {
      Powers();
      XorBounds(32, c, s[0]);
      ShiftsBound(8, Xor(c, s[0]));
      FeedAllBound(Feed(c, s[0]), s[1..]);
    }
  }

  /** The same bytes keep different registers different. */
  lemma {:induction false} FeedAllInjective(c: nat, d: nat, s: Bytes)
    requires c != d && c < 0x1_0000_0000 && d < 0x1_0000_0000
    ensures FeedAll(c, s) != FeedAll(d, s)
    decreases |s|
  {
    if s != [] {
      FeedDifference(c, d, s[0], s[0]);
      XorSelf(s[0]);
      XorZero(Xor(c, d));
      if Xor(c, d) == 0 {
        XorCancels(c, d);
      }
      Powers();
      XorBounds(32, c, d);
      ShiftsNonZero(8, Xor(c, d));
      XorSelf(Feed(c, s[0]));
      FeedAllBound(c, [s[0]]);
      FeedAllBound(d, [s[0]]);
      FeedAllInjective(Feed(c, s[0]), Feed(d, s[0]), s[1..]);
    }
  }

  lemma {:induction false} FeedAllConcat(c: nat, s: Bytes, t: Bytes)
    ensures FeedAll(c, s + t) == FeedAll(FeedAll(c, s), t)
    decreases |s|
  {
    if s == [] {
      assert s + t == t;
    } else {
      assert (s + t)[1..] == s[1..] + t;
      FeedAllConcat(Feed(c, s[0]), s[1..], t);
    }
  }

  // ---- The checksum ----

  lemma ChecksumBound(s: Bytes)
    ensures Xor(FeedAll(ALL_ONES, s), ALL_ONES) < 0x1_0000_0000
  {
    FeedAllBound(ALL_ONES, s);
    Powers();
    XorBounds(32, FeedAll(ALL_ONES, s), ALL_ONES);
  }

  /** Any change confined to four consecutive bytes changes the checksum. */
  lemma BurstChangesChecksum(s: Bytes, t: Bytes, k: nat)
    requires |s| == |t| && k + 4 <= |s|
    requires s[..k] == t[..k] && s[k + 4..] == t[k + 4..]
    requires s != t
    ensures Checksum(s) != Checksum(t)
  {
    var x, y, z := s[k..k + 4], t[k..k + 4], s[k + 4..];
    assert s == s[..k] + (x + z) && t == s[..k] + (y + z);
    var c := FeedAll(ALL_ONES, s[..k]);
    FeedAllConcat(ALL_ONES, s[..k], x + z);
    FeedAllConcat(ALL_ONES, s[..k], y + z);
    FeedAllConcat(c, x, z);
    FeedAllConcat(c, y, z);
    ShortStringsDiffer(c, x, y);
    FeedAllBound(ALL_ONES, s[..k]);
    FeedAllBound(c, x);
    FeedAllBound(c, y);
    FeedAllInjective(FeedAll(c, x), FeedAll(c, y), z);
    ComplementInjective(FeedAll(ALL_ONES, s), FeedAll(ALL_ONES, t));
  }

  lemma ComplementInjective(v: nat, w: nat)
    requires v != w
    ensures Xor(v, ALL_ONES) != Xor(w, ALL_ONES)
  {
    XorExchange(v, ALL_ONES, w, ALL_ONES);
    XorSelf(ALL_ONES);
    XorZero(Xor(v, w));
    XorSelf(Xor(v, ALL_ONES));
    if Xor(v, w) == 0 {
      XorCancels(v, w);
    }
  }
}
