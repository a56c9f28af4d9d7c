// 64-bit two's complement arithmetic as the cache's size accounting uses it
// (cache/disk/lru.go): wrapping sums, the mask form of rounding up to a block
// of 4096 bytes, and the overflow-aware comparison used by Reserve.
//
// Numerals are written out instead of named so that division by them stays
// linear for the verifier.
module Int64 {
  type int64 = x: int | -0x8000_0000_0000_0000 <= x < 0x8000_0000_0000_0000

  // The largest size that RoundUp4k rounds without wrapping: 2^63 - 4096.
  const MAX_ROUNDABLE: int := 0x7FFF_FFFF_FFFF_F000

  // Accounting is exact for caches smaller than this: 2^62.
  const HALF_RANGE: int := 0x4000_0000_0000_0000

  // The value that 64-bit arithmetic leaves of the mathematical result x: the
  // one in range that differs from x by a multiple of 2^64.
  function Wrap(x: int): (r: int64)
    ensures -0x8000_0000_0000_0000 <= x < 0x8000_0000_0000_0000 ==> r == x
    decreases if x < 0 then -2 * x else 2 * x + 1
  {
    if x >= 0x8000_0000_0000_0000 then Wrap(x - 0x1_0000_0000_0000_0000)
    else if x < -0x8000_0000_0000_0000 then Wrap(x + 0x1_0000_0000_0000_0000)
    else x
  }

  lemma {:induction false} WrapShift(x: int, k: int)
    ensures Wrap(x + 0x1_0000_0000_0000_0000 * k) == Wrap(x)
    decreases if k < 0 then -k else k
  {
    if k > 0 {
      WrapTurn(x + 0x1_0000_0000_0000_0000 * (k - 1));
      WrapShift(x, k - 1);
    } else if k < 0 {
      WrapTurn(x + 0x1_0000_0000_0000_0000 * k);
      WrapShift(x, k + 1);
    }
  }

  lemma WrapTurn(x: int)
    ensures Wrap(x + 0x1_0000_0000_0000_0000) == Wrap(x)
  {
  }

  lemma {:induction false} WrapCarry(x: int) returns (k: int)
    ensures Wrap(x) == x + 0x1_0000_0000_0000_0000 * k
    decreases if x < 0 then -2 * x else 2 * x + 1
  {
    if x >= 0x8000_0000_0000_0000 {
      k := WrapCarry(x - 0x1_0000_0000_0000_0000);
      k := k - 1;
    } else if x < -0x8000_0000_0000_0000 {
      k := WrapCarry(x + 0x1_0000_0000_0000_0000);
      k := k + 1;
    } else {
      k := 0;
    }
  }

  // Wrapping an operand first makes no difference.
  lemma WrapLeft(x: int, y: int)
    ensures Wrap(Wrap(x) + y) == Wrap(x + y)
    ensures Wrap(Wrap(x) - y) == Wrap(x - y)
  {
    var k := WrapCarry(x);
    WrapShift(x + y, k);
    WrapShift(x - y, k);
  }

  lemma WrapRight(x: int, y: int)
    ensures Wrap(x + Wrap(y)) == Wrap(x + y)
    ensures Wrap(x - Wrap(y)) == Wrap(x - y)
  {
    var k := WrapCarry(y);
    WrapShift(x + y, k);
    WrapShift(x - y, -k);
  }

  lemma WrapBoth(x: int, y: int)
    ensures Wrap(Wrap(x) + Wrap(y)) == Wrap(x + y)
    ensures Wrap(Wrap(x) - Wrap(y)) == Wrap(x - y)
  {
    WrapLeft(x, Wrap(y));
    WrapRight(x, y);
  }

  // Bitwise conjunction of the low w bits of x and y.
  function AndBits(x: nat, y: nat, w: nat): nat {
    if w == 0 then 0
    else (if x % 2 == 1 && y % 2 == 1 then 1 else 0) + 2 * AndBits(x / 2, y / 2, w - 1)
  }

  // The bit pattern of a 64-bit value, read as an unsigned number.
  function Unsigned(x: int64): nat {
    if x < 0 then x + 0x1_0000_0000_0000_0000 else x
  }

  // Bitwise conjunction of two 64-bit values.
  function And64(x: int64, y: int64): int64 {
    Wrap(AndBits(Unsigned(x), Unsigned(y), 64))
  }

  function Shl(x: nat, k: nat): nat {
    if k == 0 then x else 2 * Shl(x, k - 1)
  }

  function Shr(x: nat, k: nat): nat {
    if k == 0 then x else Shr(x / 2, k - 1)
  }

  lemma {:induction false} AndOnes(x: nat, w: nat)
    requires x < Shl(1, w)
    ensures AndBits(x, Shl(1, w) - 1, w) == x
  {
    if w > 0 {
      assert (Shl(1, w) - 1) / 2 == Shl(1, w - 1) - 1;
      AndOnes(x / 2, w - 1);
    }
  }

  lemma {:induction false} AndShifted(x: nat, m: nat, w: nat, k: nat)
    ensures AndBits(x, Shl(m, k), w + k) == Shl(AndBits(Shr(x, k), m, w), k)
  {
    if k > 0 {
      AndShifted(x / 2, m, w, k - 1);
    }
  }

  lemma {:induction false} ShlSplit(x: nat, j: nat, k: nat)
    ensures Shl(x, j + k) == Shl(Shl(x, j), k)
  {
    if k > 0 { ShlSplit(x, j, k - 1); }
  }

  lemma {:induction false} ShrSplit(x: nat, j: nat, k: nat)
    ensures Shr(x, j + k) == Shr(Shr(x, j), k)
  {
    if j > 0 { ShrSplit(x / 2, j - 1, k); }
  }

  lemma ShiftByFour(x: nat)
    ensures Shl(x, 4) == 16 * x
    ensures Shr(x, 4) == x / 16
  {
    assert Shl(x, 1) == 2 * x;
    assert Shl(x, 2) == 4 * x;
    assert Shl(x, 3) == 8 * x;
    assert Shr(x / 2 / 2 / 2, 1) == x / 16;
    assert Shr(x / 2 / 2, 2) == x / 16;
    assert Shr(x / 2, 3) == x / 16;
  }

  lemma ShiftByTwelve(x: nat)
    ensures Shl(x, 12) == 4096 * x
    ensures Shr(x, 12) == x / 4096
  {
    ShlSplit(x, 4, 4);
    ShlSplit(x, 8, 4);
    ShrSplit(x, 4, 4);
    ShrSplit(x, 8, 4);
    ShiftByFour(x);
    ShiftByFour(16 * x);
    ShiftByFour(256 * x);
    ShiftByFour(x / 16);
    ShiftByFour(x / 16 / 16);
  }

  lemma OneShiftedBy52()
    ensures Shl(1, 52) == 0x10_0000_0000_0000
  {
    ShiftByTwelve(1);
    ShlSplit(1, 12, 12);
    ShiftByTwelve(0x1000);
    ShlSplit(1, 24, 12);
    ShiftByTwelve(0x100_0000);
    ShlSplit(1, 36, 12);
    ShiftByTwelve(0x10_0000_0000);
    ShlSplit(1, 48, 4);
    ShiftByFour(0x1_0000_0000_0000);
  }

  lemma MaskUnsigned(u: nat)
    requires u < 0x1_0000_0000_0000_0000
    ensures AndBits(u, 0xFFFF_FFFF_FFFF_F000, 64) == u / 4096 * 4096
  {
    var high := u / 4096;
    OneShiftedBy52();
    ShiftByTwelve(0xF_FFFF_FFFF_FFFF);
    ShiftByTwelve(u);
    ShiftByTwelve(high);
    AndShifted(u, 0xF_FFFF_FFFF_FFFF, 52, 12);
    AndOnes(high, 52);
  }

  lemma ClearLow(x: int)
    ensures (x + 0x1_0000_0000_0000_0000) / 4096 * 4096 == x / 4096 * 4096 + 0x1_0000_0000_0000_0000
  {
    assert (x + 4096 * 0x10_0000_0000_0000) / 4096 == x / 4096 + 0x10_0000_0000_0000;
  }

  lemma BlockFloor(x: int64)
    ensures -0x8000_0000_0000_0000 <= x / 4096 * 4096 <= x
  {
    assert -0x8_0000_0000_0000 <= x / 4096;
  }

  // Masking with -4096 clears the low twelve bits.
  lemma MaskClearsBlock(x: int64)
    ensures And64(x, -4096) == x / 4096 * 4096
  {
    MaskUnsigned(Unsigned(x));
    ClearLow(x);
    BlockFloor(x);
    WrapTurn(x / 4096 * 4096);
  }

  // A size rounded up to whole blocks, without any width.
  function RoundUp(n: int): (r: nat)
    ensures n <= r && (0 <= n ==> r < n + 4096)
    decreases n
  {
    if n <= 0 then 0 else 4096 + RoundUp(n - 4096)
  }

  lemma {:induction false} RoundUpDivides(n: int)
    requires -4096 < n
    ensures RoundUp(n) == (n + 4095) / 4096 * 4096
    decreases n
  {
    if n > 0 { RoundUpDivides(n - 4096); }
  }

  // The mask form of rounding up that the program executes.
  function RoundUp4k(n: int64): int64 {
    And64(Wrap(n + 4096 - 1), -4096)
  }

  // For sizes, which are never negative, the mask form agrees with rounding up
  // modulo 2^64.
  lemma RoundUp4kWraps(n: int64)
    requires 0 <= n
    ensures RoundUp4k(n) == Wrap(RoundUp(n))
  {
    RoundUpDivides(n);
    var s := Wrap(n + 4096 - 1);
    MaskClearsBlock(s);
    if n + 4095 >= 0x8000_0000_0000_0000 {
      WrapTurn(s);
      ClearLow(s);
      WrapTurn(s / 4096 * 4096);
    }
  }

  // A size is at most 2^63 - 4096 exactly when it still is after rounding up.
  lemma RoundUpRange(n: int64)
    requires 0 <= n
    ensures 0 <= RoundUp(n) <= 0x8000_0000_0000_0000
    ensures RoundUp(n) < 0x8000_0000_0000_0000 <==> n <= MAX_ROUNDABLE
  {
    RoundUpDivides(n);
    var q := (n + 4095) / 4096;
    assert q < 0x8_0000_0000_0000 <==> n + 4095 < 4096 * 0x8_0000_0000_0000;
  }

  // It is exact on precisely the sizes up to 2^63 - 4096.
  lemma RoundUp4kExact(n: int64)
    requires 0 <= n
    ensures RoundUp4k(n) == RoundUp(n) <==> n <= MAX_ROUNDABLE
  {
    RoundUp4kWraps(n);
    RoundUpRange(n);
  }

  // The overflow-aware test a + b > c, evaluated on the wrapped sum.
  predicate SumLargerThan(a: int64, b: int64, c: int64) {
    var sum := Wrap(a + b);
    sum > c || sum <= 0
  }

  // Under the assumptions the program states for it, the test is the
  // mathematical comparison, whether or not the 64-bit sum overflowed.
  lemma SumLargerThanExact(a: int64, b: int64, c: int64)
    requires a > 0 && b >= 0 && c > 0
    ensures SumLargerThan(a, b, c) <==> a + b > c
  {
  }

  // The two helpers as the index calls them.
  method RoundUpBlocks(n: int64) returns (r: int64)
    requires 0 <= n
    ensures r == Wrap(RoundUp(n))
    ensures n <= MAX_ROUNDABLE ==> r == RoundUp(n)
  {
    r := RoundUp4k(n);
    RoundUp4kWraps(n);
    RoundUp4kExact(n);
  }

  method Exceeds(a: int64, b: int64, c: int64) returns (larger: bool)
    requires a > 0 && b >= 0 && c > 0
    ensures larger <==> a + b > c
  {
    larger := SumLargerThan(a, b, c);
  }
}
