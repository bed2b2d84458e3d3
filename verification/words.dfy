/**
 Unsigned machine words as naturals: bitwise operators, 32-bit wrap-around, and
 the power-of-two helpers of include/ggmk/platform.h.
 */
module Words {

  const TWO31: int := 0x8000_0000
  const TWO32: int := 0x1_0000_0000

  function Pow2(k: nat): (r: nat)
    ensures r >= 1
  {
    if k == 0 then 1 else 2 * Pow2(k - 1)
  }

  function And(a: nat, b: nat): nat {
    if a == 0 || b == 0 then 0
    else 2 * And(a / 2, b / 2) + (if a % 2 == 1 && b % 2 == 1 then 1 else 0)
  }

  function Or(a: nat, b: nat): nat {
    if a == 0 then b else if b == 0 then a
    else 2 * Or(a / 2, b / 2) + (if a % 2 == 1 || b % 2 == 1 then 1 else 0)
  }

  predicate Bit(a: nat, k: nat) {
    if k == 0 then a % 2 == 1 else Bit(a / 2, k - 1)
  }

  /** a >> k */
  function Shr(a: nat, k: nat): nat {
    if k == 0 then a else Shr(a / 2, k - 1)
  }

  /** The low k bits of a. */
  function Low(a: nat, k: nat): nat {
    if k == 0 then 0 else 2 * Low(a / 2, k - 1) + a % 2
  }

  // ---- shifts and masks as division and remainder ------------------------

  lemma Doubled(x: nat, y: nat)
    ensures x * (2 * y) == 2 * (x * y) == (2 * x) * y
  {
  }

  lemma {:induction false} Split(a: nat, k: nat)
    ensures a == Shr(a, k) * Pow2(k) + Low(a, k)
    ensures Low(a, k) < Pow2(k)
  {
    if k > 0 {
      Split(a / 2, k - 1);
      Doubled(Shr(a / 2, k - 1), Pow2(k - 1));
    }
  }

  lemma DivModUnique(a: int, q: int, d: int, r: int)
    requires d > 0 && a == q * d + r && 0 <= r < d
    ensures a / d == q && a % d == r
  {
    assert a == (a / d) * d + a % d;
    var e := a / d - q;
    assert e * d == r - a % d by { assert (a / d) * d == q * d + e * d; }
    if e != 0 { MultipleIsFar(e, d); }
  }

  lemma MulAdd(i: int, e: int, d: int)
    ensures (i + e) * d == i * d + e * d
  {
  }

  lemma MulAtLeast(e: nat, d: nat)
    requires e > 0
    ensures e * d >= d
  {
  }

  lemma MultipleIsFar(e: int, d: int)
    requires d > 0 && e != 0
    ensures e * d >= d || e * d <= -d
  {
  }

  /** Distinct numbers with equal remainders are at least the modulus apart. */
  lemma ModGap(p: nat, q: nat, d: nat)
    requires d > 0 && p < q && p % d == q % d
    ensures p + d <= q
  {
    var e := q / d - p / d;
    assert q - p == e * d by { assert q == (q / d) * d + q % d && p == (p / d) * d + p % d; }
    if e != 0 { MultipleIsFar(e, d); }
  }

  lemma ModAddSelf(p: nat, d: nat)
    requires d > 0
    ensures (p + d) % d == p % d
  {
    DivModUnique(p + d, p / d + 1, d, p % d);
  }

  lemma ShiftIsDivision(a: nat, k: nat)
    ensures Shr(a, k) == a / Pow2(k) && Low(a, k) == a % Pow2(k)
  {
    Split(a, k);
    DivModUnique(a, Shr(a, k), Pow2(k), Low(a, k));
  }

  lemma {:induction false} AndAtMost(a: nat, b: nat)
    ensures And(a, b) <= b
  {
    if a > 0 && b > 0 { AndAtMost(a / 2, b / 2); }
  }

  lemma {:induction false} AndOnes(a: nat, k: nat)
    ensures And(a, Pow2(k) - 1) == Low(a, k)
  {
    if k > 0 {
      AndOnes(a / 2, k - 1);
      assert (Pow2(k) - 1) / 2 == Pow2(k - 1) - 1 && (Pow2(k) - 1) % 2 == 1;
      if a == 0 { LowZero(k); }
    }
  }

  lemma {:induction false} LowZero(k: nat)
    ensures Low(0, k) == 0
  {
    if k > 0 { LowZero(k - 1); }
  }

  /** `x & (cap - 1)` is `x mod cap` when cap is a power of two: every ring index. */
  lemma MaskIsMod(x: nat, cap: nat)
    requires IsPowerOfTwo(cap)
    ensures And(x, cap - 1) == x % cap
  {
    var k := PowerOfTwoExponent(cap);
    AndOnes(x, k);
    ShiftIsDivision(x, k);
  }

  // ---- bits of the operators ----------------------------------------------

  lemma {:induction false} BitOfAnd(a: nat, b: nat, k: nat)
    ensures Bit(And(a, b), k) == (Bit(a, k) && Bit(b, k))
  {
    if a == 0 || b == 0 { NoBits(k); }
    else if k > 0 {
      BitOfAnd(a / 2, b / 2, k - 1);
      assert And(a, b) / 2 == And(a / 2, b / 2);
    }
  }

  lemma {:induction false} BitOfOr(a: nat, b: nat, k: nat)
    ensures Bit(Or(a, b), k) == (Bit(a, k) || Bit(b, k))
  {
    if a == 0 || b == 0 { NoBits(k); }
    else if k > 0 {
      BitOfOr(a / 2, b / 2, k - 1);
      assert Or(a, b) / 2 == Or(a / 2, b / 2);
    }
  }

  lemma {:induction false} NoBits(k: nat)
    ensures !Bit(0, k)
  {
    if k > 0 { NoBits(k - 1); }
  }

  lemma {:induction false} BitOfPow2(j: nat, k: nat)
    ensures Bit(Pow2(j), k) == (j == k)
  {
    if j > 0 && k > 0 { BitOfPow2(j - 1, k - 1); }
    else if k > 0 { NoBits(k - 1); }
  }

  /** Complement within an n-bit word. */
  function Not(a: nat, n: nat): nat
    requires a < Pow2(n)
  {
    Pow2(n) - 1 - a
  }

  lemma {:induction false} BitOfNot(a: nat, n: nat, k: nat)
    requires a < Pow2(n) && k < n
    ensures Bit(Not(a, n), k) == !Bit(a, k)
  {
    if k > 0 {
      BitOfNot(a / 2, n - 1, k - 1);
      assert Not(a, n) / 2 == Not(a / 2, n - 1);
    }
  }

  lemma {:induction false} Pow2Monotone(j: nat, k: nat)
    requires j <= k
    ensures Pow2(j) <= Pow2(k)
    ensures j < k ==> Pow2(j) < Pow2(k)
  {
    if j < k { Pow2Monotone(j, k - 1); }
  }

  lemma {:induction false} Pow2Add(j: nat, k: nat)
    ensures Pow2(j + k) == Pow2(j) * Pow2(k)
  {
    if j > 0 {
      Pow2Add(j - 1, k);
      assert Pow2(j + k) == 2 * Pow2(j - 1 + k);
      Doubled(Pow2(j - 1), Pow2(k));
    }
  }

  lemma Pow2Words()
    ensures Pow2(12) == 4096 && Pow2(16) == 65536 && Pow2(31) == TWO31 && Pow2(32) == TWO32
  {
    assert Pow2(4) == 16;
    Pow2Add(4, 4);
    Pow2Add(8, 4);
    Pow2Add(8, 8);
    Pow2Add(16, 16);
    assert Pow2(32) == 2 * Pow2(31);
  }

  // ---- OR at a bit boundary -------------------------------------------------

  lemma OrSplit(a: nat, b: nat, k: nat)
    ensures Shr(Or(a, b), k) == Or(Shr(a, k), Shr(b, k))
    ensures Low(Or(a, b), k) == Or(Low(a, k), Low(b, k))
  {
    OrShr(a, b, k);
    OrLow(a, b, k);
  }

  lemma OrHalves(a: nat, b: nat)
    ensures Or(a, b) / 2 == Or(a / 2, b / 2)
    ensures Or(a, b) % 2 == if a % 2 == 1 || b % 2 == 1 then 1 else 0
  {
  }

  lemma {:induction false} OrShr(a: nat, b: nat, k: nat)
    ensures Shr(Or(a, b), k) == Or(Shr(a, k), Shr(b, k))
  {
    hide Or;
    if k > 0 {
      OrShr(a / 2, b / 2, k - 1);
      OrHalves(a, b);
    }
  }

  lemma {:induction false} OrLow(a: nat, b: nat, k: nat)
    ensures Low(Or(a, b), k) == Or(Low(a, k), Low(b, k))
  {
    hide Or;
    OrNone();
    if k > 0 {
      OrLow(a / 2, b / 2, k - 1);
      OrHalves(a, b);
      OrDouble(Low(a / 2, k - 1), a % 2, Low(b / 2, k - 1), b % 2);
    }
  }

  lemma OrNone()
    ensures Or(0, 0) == 0
  {
  }

  lemma OrDouble(x: nat, p: nat, y: nat, q: nat)
    requires p < 2 && q < 2
    ensures Or(2 * x + p, 2 * y + q) == 2 * Or(x, y) + (if p == 1 || q == 1 then 1 else 0)
  {
    assert (2 * x + p) / 2 == x && (2 * y + q) / 2 == y;
  }

  /** OR of a multiple of 2^k with a k-bit value is their sum. */
  lemma OrIsSum(a: nat, b: nat, k: nat)
    requires a % Pow2(k) == 0 && b < Pow2(k)
    ensures Or(a, b) == a + b
  {
    OrSplit(a, b, k);
    ShiftIsDivision(a, k); ShiftIsDivision(b, k);
    Split(a, k); Split(b, k); Split(Or(a, b), k);
    DivModUnique(b, 0, Pow2(k), b);
  }

  /** OR with a k-bit value leaves the bits from k up alone; m is 2^k. */
  lemma OrInto(a: nat, q: nat, r: nat, b: nat, k: nat, m: nat)
    requires m == Pow2(k) && r < m && b < m && a == q * m + r
    ensures Or(a, b) == q * m + Or(r, b)
  {
    OrSplit(a, b, k);
    ShiftIsDivision(a, k); ShiftIsDivision(b, k);
    DivModUnique(a, q, m, r);
    DivModUnique(b, 0, m, b);
    Split(Or(a, b), k);
  }

  /** OR with a value shifted up by k touches only the bits from k up; m is 2^k. */
  lemma OrShifted(a: nat, p: nat, b: nat, bq: nat, br: nat, k: nat, m: nat)
    requires m == Pow2(k) && a == p * m && b == bq * m + br && br < m
    ensures Or(a, b) == Or(p, bq) * m + br
  {
    OrSplit(a, b, k);
    ShiftIsDivision(a, k); ShiftIsDivision(b, k);
    DivModUnique(a, p, m, 0);
    DivModUnique(b, bq, m, br);
    Split(Or(a, b), k);
  }

  lemma OrBelow(a: nat, b: nat, k: nat)
    requires a < Pow2(k) && b < Pow2(k)
    ensures Or(a, b) < Pow2(k)
  {
    OrSplit(a, b, k);
    ShiftIsDivision(a, k); ShiftIsDivision(b, k);
    Split(Or(a, b), k);
    DivModUnique(a, 0, Pow2(k), a); DivModUnique(b, 0, Pow2(k), b);
  }

  // ---- gmk_is_power_of_two -------------------------------------------------

  predicate IsPowerOfTwo(x: nat) {
    x != 0 && And(x, x - 1) == 0
  }

  lemma {:induction false} Pow2IsPowerOfTwo(k: nat)
    ensures IsPowerOfTwo(Pow2(k))
  {
    AndOnes(Pow2(k), k);
    ShiftIsDivision(Pow2(k), k);
    DivModUnique(Pow2(k), 1, Pow2(k), 0);
  }

  lemma {:induction false} PowerOfTwoExponent(x: nat) returns (k: nat)
    requires IsPowerOfTwo(x)
    ensures x == Pow2(k)
  {
    if x == 1 {
      k := 0;
    } else if x % 2 == 1 {
      k := 0;
      assert And(x, x - 1) == 2 * And(x / 2, x / 2);
      AndSelf(x / 2);
    } else {
      assert (x - 1) / 2 == x / 2 - 1;
      k := PowerOfTwoExponent(x / 2);
      k := k + 1;
    }
  }

  lemma {:induction false} AndSelf(x: nat)
    ensures And(x, x) == x
  {
    if x > 0 { AndSelf(x / 2); }
  }

  /** gmk_is_power_of_two accepts exactly the powers of two. */
  lemma PowerOfTwoTest(x: nat)
    ensures IsPowerOfTwo(x) <==> exists k: nat :: x == Pow2(k)
  {
    if IsPowerOfTwo(x) { var k := PowerOfTwoExponent(x); }
    if k: nat :| x == Pow2(k) { Pow2IsPowerOfTwo(k); }
  }

  // ---- gmk_next_pow2 -------------------------------------------------------

  function Smear(x: nat, m: nat): nat {
    Or(x, Shr(x, m))
  }

  /** The five shift-and-OR steps (m = 1, 2, 4, 8, 16) set every bit below the highest one. */
  function Fill(x: nat, m: nat): nat
    decreases 32 - m
  {
    if m == 0 || m >= 32 then x else Fill(Smear(x, m), 2 * m)
  }

  /** gmk_next_pow2 on 32-bit words; the final `x + 1` wraps. */
  function NextPow2(x: nat): nat
    requires x < TWO32
  {
    if x <= 1 then 1
    else Wrap(Fill(x - 1, 1) + 1)
  }

  ghost predicate AnyBit(x: nat, lo: nat, n: nat) {
    exists j: nat :: lo <= j < lo + n && Bit(x, j)
  }

  lemma {:induction false} BitOfShr(x: nat, m: nat, k: nat)
    ensures Bit(Shr(x, m), k) == Bit(x, k + m)
  {
    if m > 0 { BitOfShr(x / 2, m - 1, k); }
  }

  lemma SmearDoubles(x: nat, y: nat, m: nat)
    requires forall i: nat :: Bit(y, i) == AnyBit(x, i, m)
    ensures forall i: nat :: Bit(Smear(y, m), i) == AnyBit(x, i, 2 * m)
  {
    forall i: nat ensures Bit(Smear(y, m), i) == AnyBit(x, i, 2 * m) {
      BitOfOr(y, Shr(y, m), i);
      BitOfShr(y, m, i);
      assert AnyBit(x, i, m) || AnyBit(x, i + m, m) <==> AnyBit(x, i, 2 * m);
    }
  }

  lemma {:induction false} TopBit(x: nat) returns (h: nat)
    requires x > 0
    ensures Pow2(h) <= x < Pow2(h + 1)
    ensures Bit(x, h) && forall j: nat :: j > h ==> !Bit(x, j)
  {
    if x == 1 {
      h := 0;
      forall j: nat | j > 0 ensures !Bit(x, j) { NoBits(j - 1); }
    } else {
      h := TopBit(x / 2);
      h := h + 1;
    }
  }

  lemma {:induction false} AllOnes(y: nat, n: nat)
    requires forall i: nat :: Bit(y, i) == (i < n)
    ensures y == Pow2(n) - 1
  {
    assert Bit(y, 0) == (0 < n);
    if n == 0 {
      if y > 0 { var h := TopBit(y); }
    } else {
      forall i: nat ensures Bit(y / 2, i) == (i < n - 1) { assert Bit(y, i + 1) == (i + 1 < n); }
      AllOnes(y / 2, n - 1);
    }
  }

  lemma {:induction false} FillBits(x: nat, y: nat, m: nat)
    requires m in {1, 2, 4, 8, 16, 32}
    requires forall i: nat :: Bit(y, i) == AnyBit(x, i, m)
    ensures forall i: nat :: Bit(Fill(y, m), i) == AnyBit(x, i, 32)
    decreases 32 - m
  {
    if m < 32 {
      SmearDoubles(x, y, m);
      FillBits(x, Smear(y, m), 2 * m);
    }
  }

  lemma OneBitWindow(x: nat, i: nat)
    ensures Bit(x, i) == AnyBit(x, i, 1)
  {
    hide Bit;
    if AnyBit(x, i, 1) { var j: nat :| i <= j < i + 1 && Bit(x, j); }
  }

  /** A window of 32 bits from i sees the top bit h exactly when i does not lie above it. */
  lemma WordWindow(x: nat, h: nat, i: nat)
    requires h < 32 && Bit(x, h) && forall j: nat :: j > h ==> !Bit(x, j)
    ensures AnyBit(x, i, 32) == (i < h + 1)
  {
    hide Bit;
  }

  lemma FillIsOnes(x: nat) returns (h: nat)
    requires 0 < x < TWO32
    ensures h <= 31 && Pow2(h) <= x < Pow2(h + 1) && Fill(x, 1) == Pow2(h + 1) - 1
  {
    hide Fill, Bit, Pow2, AnyBit;
    h := TopBit(x);
    Pow2Words();
    if h >= 32 { Pow2Monotone(32, h); }
    forall i: nat ensures Bit(x, i) == AnyBit(x, i, 1) { OneBitWindow(x, i); }
    FillBits(x, x, 1);
    var y := Fill(x, 1);
    forall i: nat ensures Bit(y, i) == (i < h + 1) { WordWindow(x, h, i); }
    AllOnes(y, h + 1);
  }

  lemma LeastPow2Above(x: nat, h: nat)
    requires 1 < x < TWO32 && h <= 31 && Pow2(h) < x <= Pow2(h + 1)
    ensures x <= TWO31 ==> h < 31 && IsPowerOfTwo(Pow2(h + 1)) && Pow2(h + 1) <= TWO31
    ensures forall k: nat :: x <= Pow2(k) ==> Pow2(h + 1) <= Pow2(k)
    ensures x > TWO31 ==> h == 31 && Pow2(h + 1) == TWO32
  {
    Pow2Words();
    if h < 31 { Pow2Monotone(h + 1, 31); }
    Pow2IsPowerOfTwo(h + 1);
    forall k: nat | x <= Pow2(k) ensures Pow2(h + 1) <= Pow2(k) {
      if k <= h { Pow2Monotone(k, h); } else { Pow2Monotone(h + 1, k); }
    }
  }

  ghost predicate IsLeastPow2Above(r: nat, x: nat) {
    IsPowerOfTwo(r) && x <= r && forall k: nat :: x <= Pow2(k) ==> r <= Pow2(k)
  }

  lemma NextPow2Value(x: nat) returns (h: nat)
    requires 1 < x < TWO32
    ensures h <= 31 && Pow2(h) < x <= Pow2(h + 1) && NextPow2(x) == Wrap(Pow2(h + 1))
  {
    hide Fill, Pow2, Wrap;
    h := FillIsOnes(x - 1);
  }

  lemma NextPow2Small(x: nat)
    requires x <= 1
    ensures NextPow2(x) == 1 && IsLeastPow2Above(1, x)
  {
    assert Pow2(0) == 1;
    Pow2IsPowerOfTwo(0);
  }

  /** gmk_next_pow2 is the least power of two not below its argument, and 0 when that needs 33 bits. */
  lemma NextPow2Least(x: nat)
    requires x < TWO32
    ensures x <= TWO31 ==> NextPow2(x) <= TWO31 && IsLeastPow2Above(NextPow2(x), x)
    ensures x > TWO31 ==> NextPow2(x) == 0
  {
    hide NextPow2, Pow2, IsPowerOfTwo;
    if x > 1 {
      var h := NextPow2Value(x);
      LeastPow2Above(x, h);
    } else {
      NextPow2Small(x);
    }
  }

  // ---- 32-bit wrap-around --------------------------------------------------

  function Wrap(x: int): (r: nat)
    ensures r < TWO32
  {
    x % 0x1_0000_0000
  }

  /** `(int32_t)a - (int32_t)b`, read as two's complement. */
  function Diff32(a: nat, b: nat): (d: int)
    ensures -TWO31 <= d < TWO31
  {
    var d := Wrap(a - b);
    if d < TWO31 then d else d - TWO32
  }

  lemma WrapDifference(a: int, b: int)
    ensures Wrap(Wrap(a) - Wrap(b)) == Wrap(a - b)
  {
    var k := (a - Wrap(a)) / TWO32 - (b - Wrap(b)) / TWO32;
    assert a - b == Wrap(a) - Wrap(b) + k * TWO32;
    ModShift(Wrap(a) - Wrap(b), k);
  }

  lemma ModShift(x: int, k: int)
    ensures Wrap(x + k * TWO32) == Wrap(x)
  {
    DivModUnique(x + k * TWO32, x / TWO32 + k, TWO32, x % TWO32);
  }

  /** Unsigned subtraction of two counters is exact while they are less than 2^32 apart. */
  lemma CounterDistance(a: int, b: int)
    requires 0 <= a - b < TWO32
    ensures Wrap(Wrap(a) - Wrap(b)) == a - b
  {
    WrapDifference(a, b);
  }

  /** The signed reading is exact while they are less than 2^31 apart. */
  lemma SignedDistance(a: int, b: int)
    requires -TWO31 <= a - b < TWO31
    ensures Diff32(Wrap(a), Wrap(b)) == a - b
  {
    WrapDifference(a, b);
    if a < b { ModShift(a - b, 1); }
  }

  lemma WrapInjective(a: int, b: int)
    requires -TWO32 < a - b < TWO32 && Wrap(a) == Wrap(b)
    ensures a == b
  {
    WrapDifference(a, b);
    if a < b { ModShift(a - b, 1); }
  }

  lemma WrapAdd(a: int, b: int)
    ensures Wrap(Wrap(a) + b) == Wrap(a + b)
  {
    var k := (a - Wrap(a)) / TWO32;
    assert a + b == Wrap(a) + b + k * TWO32;
    ModShift(Wrap(a) + b, k);
  }
}
