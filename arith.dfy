// Integer arithmetic and two's-complement bit operations on unbounded
// integers, as Python's `<<`, `>>`, `&`, `|`, `^` and `~` behave on `int`.
// `x >> k` is floor division by 2^k (Dafny's `/` floors for a positive
// divisor) and `x << k` is multiplication by 2^k.
module Arith {

  function Pow2(n: nat): (r: nat)
    ensures r >= 1
  {
    if n == 0 then 1 else 2 * Pow2(n - 1)
  }

  function Pow(b: nat, n: nat): nat
  {
    if n == 0 then 1 else b * Pow(b, n - 1)
  }

  lemma {:induction false} PowPositive(b: nat, n: nat)
    requires b > 0
    ensures Pow(b, n) > 0
  {
    if n > 0 {
      PowPositive(b, n - 1);
    }
  }

  lemma {:induction false} Pow2Add(a: nat, b: nat)
    ensures Pow2(a + b) == Pow2(a) * Pow2(b)
  {
    if a > 0 {
      Pow2Add(a - 1, b);
    }
  }

  lemma {:induction false} Pow2Monotone(a: nat, b: nat)
    requires a <= b
    ensures Pow2(a) <= Pow2(b)
  {
    if a < b {
      Pow2Monotone(a, b - 1);
    }
  }

  const U32: nat := 0x1_0000_0000

  lemma Pow2Of32()
    ensures Pow2(32) == U32
  {
    assert Pow2(8) == 256;
    Pow2Add(8, 8);
    Pow2Add(16, 16);
  }

  /** Quotient and remainder are determined by x == d*q + r with 0 <= r < d. */
  lemma DivModUnique(x: int, d: int, q: int, r: int)
    requires d > 0 && 0 <= r < d && x == d * q + r
    ensures x / d == q && x % d == r
  {
    var q0, r0 := x / d, x % d;
    assert x == d * q0 + r0;
    if q0 > q {
      MulAtLeast(d, q0 - q);
    } else if q0 < q {
      MulAtLeast(d, q - q0);
    }
  }

  lemma MulAtLeast(d: int, k: int)
    requires d > 0 && k >= 1
    ensures d * k >= d
  {
    assert d * k == d + d * (k - 1);
    assert d * (k - 1) >= 0;
  }

  lemma DivDiv(x: int, a: int, b: int)
    requires a > 0 && b > 0
    ensures x / a / b == x / (a * b)
    ensures x % (a * b) == a * ((x / a) % b) + x % a
  {
    var q1, r1 := x / a, x % a;
    var q2, r2 := q1 / b, q1 % b;
    MulDistrib(a, b * q2, r2);
    MulAssoc(a, b, q2);
    MulBelow(a, b, r2);
    DivModUnique(x, a * b, q2, a * r2 + r1);
  }

  /** Reducing modulo a*b and then modulo a is reducing modulo a. */
  lemma ModOfMod(x: int, a: int, b: int)
    requires a > 0 && b > 0
    ensures (x % (a * b)) % a == x % a
  {
    DivDiv(x, a, b);
    DivModUnique(x % (a * b), a, (x / a) % b, x % a);
  }

  lemma MulDistrib(a: int, b: int, c: int)
    ensures a * (b + c) == a * b + a * c
  {
  }

  lemma MulAssoc(a: int, b: int, c: int)
    ensures a * (b * c) == (a * b) * c
  {
  }

  lemma MulBelow(a: int, b: int, r: int)
    requires a > 0 && 0 <= r < b
    ensures a * r <= a * b - a
  {
    MulDistrib(a, r, b - 1 - r);
    assert a * (b - 1 - r) >= 0;
    MulDistrib(a, b - 1, 1);
  }

  lemma DivBelow(x: int, d: int, n: int)
    requires d > 0 && 0 <= x < d * n
    ensures 0 <= x / d < n
  {
    var q := x / d;
    MulDistrib(d, n, -q);
    assert d * (n - q) > 0;
  }

  lemma MulDivCancel(x: int, d: int)
    requires d > 0
    ensures (x * d) / d == x && (x * d) % d == 0
  {
    DivModUnique(x * d, d, x, 0);
  }

  lemma AddMulDiv(x: int, q: int, d: int)
    requires d > 0
    ensures (x + q * d) / d == x / d + q && (x + q * d) % d == x % d
  {
    DivModUnique(x + q * d, d, x / d + q, x % d);
  }

  // ---------------------------------------------------------------------
  // Bits of an integer in two's complement (infinite sign extension).

  /** Bit i of x, i.e. Python's `(x >> i) & 1`. */
  function Bit(x: int, i: nat): nat
    decreases i
  {
    if i == 0 then x % 2 else Bit(x / 2, i - 1)
  }

  /** Distance from the fixed points 0 and -1 of halving. */
  function Size(a: int): nat
  {
    if a >= 0 then a else -a - 1
  }

  function BitAnd(a: int, b: int): int
    decreases Size(a) + Size(b)
  {
    if Size(a) == 0 && Size(b) == 0 then
      (if a == -1 && b == -1 then -1 else 0)
    else
      2 * BitAnd(a / 2, b / 2) + (if a % 2 == 1 && b % 2 == 1 then 1 else 0)
  }

  function BitOr(a: int, b: int): int
    decreases Size(a) + Size(b)
  {
    if Size(a) == 0 && Size(b) == 0 then
      (if a == -1 || b == -1 then -1 else 0)
    else
      2 * BitOr(a / 2, b / 2) + (if a % 2 == 1 || b % 2 == 1 then 1 else 0)
  }

  function BitXor(a: int, b: int): int
    decreases Size(a) + Size(b)
  {
    if Size(a) == 0 && Size(b) == 0 then
      (if a != b then -1 else 0)
    else
      2 * BitXor(a / 2, b / 2) + (if a % 2 != b % 2 then 1 else 0)
  }

  /** Python's `~x`. */
  function BitNot(a: int): int
  {
    -a - 1
  }

  /** Halving a number drops its low bit `c`. */
  lemma Halve(x: int, c: int)
    requires 0 <= c < 2
    ensures (2 * x + c) / 2 == x && (2 * x + c) % 2 == c
  {
  }

  /** The bitwise operations commute with halving; their low bit is the operation on the low bits. */
  lemma BitAndHalf(a: int, b: int)
    ensures BitAnd(a, b) / 2 == BitAnd(a / 2, b / 2)
    ensures BitAnd(a, b) % 2 == if a % 2 == 1 && b % 2 == 1 then 1 else 0
  {
    if Size(a) != 0 || Size(b) != 0 {
      Halve(BitAnd(a / 2, b / 2), if a % 2 == 1 && b % 2 == 1 then 1 else 0);
    }
  }

  lemma BitOrHalf(a: int, b: int)
    ensures BitOr(a, b) / 2 == BitOr(a / 2, b / 2)
    ensures BitOr(a, b) % 2 == if a % 2 == 1 || b % 2 == 1 then 1 else 0
  {
    if Size(a) != 0 || Size(b) != 0 {
      Halve(BitOr(a / 2, b / 2), if a % 2 == 1 || b % 2 == 1 then 1 else 0);
    }
  }

  lemma BitXorHalf(a: int, b: int)
    ensures BitXor(a, b) / 2 == BitXor(a / 2, b / 2)
    ensures BitXor(a, b) % 2 == if a % 2 != b % 2 then 1 else 0
  {
    if Size(a) != 0 || Size(b) != 0 {
      Halve(BitXor(a / 2, b / 2), if a % 2 != b % 2 then 1 else 0);
    }
  }

  lemma {:induction false} BitOfAnd(a: int, b: int, i: nat)
    ensures Bit(BitAnd(a, b), i) == if Bit(a, i) == 1 && Bit(b, i) == 1 then 1 else 0
    decreases i
  {
    BitAndHalf(a, b);
    if i > 0 {
      BitOfAnd(a / 2, b / 2, i - 1);
    }
  }

  lemma {:induction false} BitOfOr(a: int, b: int, i: nat)
    ensures Bit(BitOr(a, b), i) == if Bit(a, i) == 1 || Bit(b, i) == 1 then 1 else 0
    decreases i
  {
    BitOrHalf(a, b);
    if i > 0 {
      BitOfOr(a / 2, b / 2, i - 1);
    }
  }

  lemma {:induction false} BitOfXor(a: int, b: int, i: nat)
    ensures Bit(BitXor(a, b), i) == if Bit(a, i) != Bit(b, i) then 1 else 0
    decreases i
  {
    BitXorHalf(a, b);
    if i > 0 {
      BitOfXor(a / 2, b / 2, i - 1);
    }
  }

  lemma {:induction false} BitOfNot(a: int, i: nat)
    ensures Bit(BitNot(a), i) == 1 - Bit(a, i)
    decreases i
  {
    if i > 0 {
      assert BitNot(a) / 2 == BitNot(a / 2);
      BitOfNot(a / 2, i - 1);
    }
  }

  /** Bit i of x << k. */
  lemma {:induction false} BitOfShl(x: int, k: nat, i: nat)
    ensures Bit(x * Pow2(k), i) == if i < k then 0 else Bit(x, i - k)
    decreases k
  {
    if k > 0 {
      var y := x * Pow2(k - 1);
      assert x * Pow2(k) == 2 * y;
      MulDivCancel(y, 2);
      if i > 0 {
        BitOfShl(x, k - 1, i - 1);
      }
    }
  }

  /** Bit i of x >> k. */
  lemma {:induction false} BitOfShr(x: int, k: nat, i: nat)
    ensures Bit(x / Pow2(k), i) == Bit(x, i + k)
    decreases k
  {
    if k > 0 {
      DivDiv(x, 2, Pow2(k - 1));
      BitOfShr(x / 2, k - 1, i);
    }
  }

  /** Bit i of 2^n - 1. */
  lemma {:induction false} BitOfOnes(n: nat, i: nat)
    ensures Bit(Pow2(n) - 1, i) == if i < n then 1 else 0
    decreases n
  {
    if n == 0 {
      BitOfZero(i);
    } else if i > 0 {
      assert (Pow2(n) - 1) / 2 == Pow2(n - 1) - 1;
      BitOfOnes(n - 1, i - 1);
    }
  }

  lemma {:induction false} BitOfZero(i: nat)
    ensures Bit(0, i) == 0
  {
    if i > 0 {
      BitOfZero(i - 1);
    }
  }

  /** Two integers with the same bits are equal. */
  lemma {:induction false} BitsExtensional(a: int, b: int)
    requires forall i: nat :: Bit(a, i) == Bit(b, i)
    ensures a == b
    decreases Size(a) + Size(b)
  {
    assert Bit(a, 0) == Bit(b, 0);
    if Size(a) == 0 && Size(b) == 0 {
    } else {
      forall i: nat ensures Bit(a / 2, i) == Bit(b / 2, i) {
        assert Bit(a, i + 1) == Bit(b, i + 1);
      }
      BitsExtensional(a / 2, b / 2);
    }
  }

  /** The low bits of a nonnegative x below 2^n determine it. */
  lemma {:induction false} BitsBelow(x: int, n: nat, i: nat)
    requires 0 <= x < Pow2(n) && i >= n
    ensures Bit(x, i) == 0
    decreases i
  {
    if i > 0 {
      if n > 0 {
        BitsBelow(x / 2, n - 1, i - 1);
      } else {
        BitsBelow(x / 2, 0, i - 1);
      }
    }
  }

  lemma {:induction false} BitAndZero(a: int)
    ensures BitAnd(a, 0) == 0
    decreases Size(a)
  {
    if Size(a) > 0 {
      BitAndZero(a / 2);
    }
  }

  lemma {:induction false} BitOrZero(b: int)
    ensures BitOr(0, b) == b
    decreases Size(b)
  {
    if Size(b) > 0 {
      BitOrZero(b / 2);
    }
  }

  /** `a & (2^n - 1)` is `a mod 2^n`, also for negative a. */
  lemma {:induction false} BitAndLowMask(a: int, n: nat)
    ensures BitAnd(a, Pow2(n) - 1) == a % Pow2(n)
    decreases n
  {
    if n == 0 {
      BitAndZero(a);
    } else {
      BitAndLowMask(a / 2, n - 1);
      DivDiv(a, 2, Pow2(n - 1));
    }
  }

  lemma {:induction false} BitOrCommutes(a: int, b: int)
    ensures BitOr(a, b) == BitOr(b, a)
    decreases Size(a) + Size(b)
  {
    if Size(a) > 0 || Size(b) > 0 {
      BitOrCommutes(a / 2, b / 2);
    }
  }

  /** `a | b` is `a + b` when the set bits of a lie below 2^k and those of b above. */
  lemma {:induction false} BitOrDisjoint(a: int, b: int, k: nat)
    requires 0 <= a < Pow2(k) && b >= 0 && b % Pow2(k) == 0
    ensures BitOr(a, b) == a + b
    decreases k
  {
    if k == 0 {
      BitOrZero(b);
    } else if Size(a) == 0 && Size(b) == 0 {
    } else {
      DivDiv(b, 2, Pow2(k - 1));
      BitOrDisjoint(a / 2, b / 2, k - 1);
    }
  }

  /** `a | b` of two k-bit values is a k-bit value. */
  lemma {:induction false} BitOrBelow(a: int, b: int, k: nat)
    requires 0 <= a < Pow2(k) && 0 <= b < Pow2(k)
    ensures 0 <= BitOr(a, b) < Pow2(k)
    decreases k
  {
    if Size(a) == 0 && Size(b) == 0 {
    } else {
      BitOrBelow(a / 2, b / 2, k - 1);
    }
  }

  /** `(x << k) mod 2^k == 0`, so a shifted field never overlaps the bits below it. */
  lemma ShiftedIsMultiple(x: int, k: nat)
    ensures (x * Pow2(k)) % Pow2(k) == 0 && (x * Pow2(k)) / Pow2(k) == x
  {
    MulDivCancel(x, Pow2(k));
  }

  lemma DivNat(a: nat, b: nat)
    requires b > 0
    ensures a / b >= 0 && 0 <= a % b < b && a == a / b * b + a % b
  {
  }

  lemma ConcatAssoc<T>(a: seq<T>, b: seq<T>, c: seq<T>)
    ensures a + (b + c) == (a + b) + c
  {
  }

  lemma DivIsZero(a: nat, b: nat)
    requires b > 0
    ensures a / b == 0 <==> a < b
  {
    DivNat(a, b);
    if a < b {
      DivModUnique(a, b, 0, a);
    }
  }
}
