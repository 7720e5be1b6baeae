/**
 * `prng`: a 33-bit linear feedback shift register. Each step shifts the
 * state left by one within 33 bits and feeds back bit 32 xor bit 13; the
 * generator yields the low `bits` bits of every new state, endlessly or
 * until `len` values have been given.
 */
module Prng {
  import opened Wrappers
  import opened Arith

  /** The state the register starts from. */
  const SEED: int := 0x14d5ba65

  /** `0xffffffff >> (32 - bits)` raises this for `bits > 32`. */
  const NEGATIVE_SHIFT: string := "negative shift count"

  /** The update as the source writes it: `((v << 1) & 0x1ffffffff) | ((v >> 32) ^ ((v >> 13) & 0x1))`. */
  function SourceStep(v: int): int
  {
    BitOr(BitAnd(v * 2, 0x1_ffff_ffff), BitXor(v / Pow2(32), BitAnd(v / Pow2(13), 1)))
  }

  /** The update in arithmetic: shift left within 33 bits, bit 32 xor bit 13 into bit 0. */
  function Step(v: int): int
  {
    (2 * v) % Pow2(33) + (if (v / Pow2(32)) % 2 != (v / Pow2(13)) % 2 then 1 else 0)
  }

  /** The state after `n` steps from the seed. */
  function StateAt(n: nat): int
  {
    if n == 0 then SEED else Step(StateAt(n - 1))
  }

  /** `0xffffffff >> (32 - bits)`: the mask of the low `bits` bits, or the error of a negative shift. */
  function Mask(bits: int): Result<int>
  {
    if bits > 32 then Err(NEGATIVE_SHIFT) else Ok(0xffff_ffff / Pow2(32 - bits))
  }

  /** How many values the generator gives a consumer that asks for `draws`: `len` stops it after at least one. */
  function Count(len: Option<int>, draws: nat): nat
  {
    if len.None? then draws
    else var n := if len.value < 1 then 1 else len.value;
      if draws < n then draws else n
  }

  /** The values `prng(bits, len)` gives a consumer that asks for `draws` values. */
  function Yields(bits: int, len: Option<int>, draws: nat): Result<seq<int>>
  {
    if Count(len, draws) == 0 then Ok([])
    else match Mask(bits)
      case Err(e) => Err(e)
      case Ok(mask) => Ok(Values(Count(len, draws), mask))
  }

  /** The first `n` values: the states after one step, two steps, ..., each masked. */
  function Values(n: nat, mask: int): (r: seq<int>)
    ensures |r| == n && forall k :: 0 <= k < n ==> r[k] == BitAnd(StateAt(k + 1), mask)
  {
    if n == 0 then [] else Values(n - 1, mask) + [BitAnd(StateAt(n), mask)]
  }

  /**
   * `prng(bits, len)` run by a consumer that asks for up to `draws`
   * values; the loop of the generator stops when `len` is reached, the
   * consumer's `draws` stand for it stopping to ask.
   */
  method Generate(bits: int, len: Option<int>, draws: nat) returns (r: Result<seq<int>>)
    ensures r == Yields(bits, len, draws)
  {
    var v := SEED;
    var l := 0;
    var out: seq<int> := [];
    while l < draws
      invariant 0 <= l <= Count(len, draws) && |out| == l && v == StateAt(l)
      invariant l > 0 ==> Mask(bits).Ok? && out == Values(l, Mask(bits).value)
      invariant l > 0 && len.Some? ==> l < len.value
      decreases draws - l
    {
      v := Step(v);
      if bits > 32 {
        return Err(NEGATIVE_SHIFT);
      }
      var mask := 0xffff_ffff / Pow2(32 - bits);
      assert Mask(bits) == Ok(mask);
      assert v == StateAt(l + 1);
      assert out + [BitAnd(v, mask)] == Values(l + 1, mask);
      out := out + [BitAnd(v, mask)];
      l := l + 1;
      if len.Some? && l >= len.value {
        break;
      }
    }
    assert l == Count(len, draws);
    r := Ok(out);
  }

  /** On every state below 2^33, the source's expression is the arithmetic step. */
  lemma StepMatchesSource(v: int)
    requires 0 <= v < Pow2(33)
    ensures SourceStep(v) == Step(v)
  {
    var shifted := BitAnd(v * 2, 0x1_ffff_ffff);
    var fb := BitXor(v / Pow2(32), BitAnd(v / Pow2(13), 1));
    assert shifted == (2 * v) % Pow2(33) && shifted >= 0 && shifted % Pow2(1) == 0 by {
      ShiftedValue(v);
    }
    assert fb == if (v / Pow2(32)) % 2 != (v / Pow2(13)) % 2 then 1 else 0 by {
      FeedbackValue(v);
    }
    assert BitOr(shifted, fb) == shifted + fb by {
      BitOrDisjoint(fb, shifted, 1);
      BitOrCommutes(fb, shifted);
    }
  }

  /** Every state of the generator follows from the one before by the source's own expression. */
  lemma StatesFollowSource(n: nat)
    ensures StateAt(n + 1) == SourceStep(StateAt(n))
  {
    StateBelow(n);
    StepMatchesSource(StateAt(n));
  }

  /** `(v << 1) & 0x1ffffffff` is twice `v` modulo 2^33, an even number. */
  lemma ShiftedValue(v: int)
    ensures BitAnd(v * 2, 0x1_ffff_ffff) == (2 * v) % Pow2(33)
    ensures 0 <= (2 * v) % Pow2(33) && ((2 * v) % Pow2(33)) % Pow2(1) == 0
  {
    Pow2Of33();
    BitAndLowMask(v * 2, 33);
    ModOfMod(2 * v, 2, 0x1_0000_0000);
  }

  /** For a state below 2^33, `(v >> 32) ^ ((v >> 13) & 1)` is 1 exactly when bits 32 and 13 differ. */
  lemma FeedbackValue(v: int)
    requires 0 <= v < Pow2(33)
    ensures BitXor(v / Pow2(32), BitAnd(v / Pow2(13), 1)) == if (v / Pow2(32)) % 2 != (v / Pow2(13)) % 2 then 1 else 0
  {
    var top, mid := v / Pow2(32), v / Pow2(13);
    assert top % 2 == top by {
      Pow2Of33();
      DivBelow(v, 0x1_0000_0000, 2);
    }
    var low := BitAnd(mid, 1);
    assert low == mid % 2 by {
      BitAndLowMask(mid, 1);
    }
    BitXorOfBits(top, low);
  }

  /** 2^33, one more bit than 2^32. */
  lemma Pow2Of33()
    ensures Pow2(32) == 0x1_0000_0000 && Pow2(33) == 0x2_0000_0000
  {
    Pow2Of32();
    Pow2Add(32, 1);
  }

  /** Two bits xor to a bit. */
  lemma BitXorOfBits(a: int, b: int)
    requires 0 <= a < 2 && 0 <= b < 2
    ensures BitXor(a, b) == if a != b then 1 else 0
  {
    BitXorHalf(a, b);
    assert BitXor(0, 0) == 0;
  }

  /** A step keeps a state below 2^33 there. */
  lemma StepBelow(v: int)
    requires 0 <= v < Pow2(33)
    ensures 0 <= Step(v) < Pow2(33)
  {
    Pow2Of33();
    var m := (2 * v) % 0x2_0000_0000;
    assert m % 2 == 0 by {
      ModOfMod(2 * v, 2, 0x1_0000_0000);
    }
    assert m + 1 < 0x2_0000_0000;
  }

  /** The state stays below 2^33 at every step. */
  lemma {:induction false} StateBelow(n: nat)
    ensures 0 <= StateAt(n) < Pow2(33)
  {
    Pow2Of33();
    if n > 0 {
      StateBelow(n - 1);
      StepBelow(StateAt(n - 1));
    }
  }

  /** For `bits` up to 32 the mask is `2^bits - 1`; for `bits` of 0 or less it is 0. */
  lemma MaskValue(bits: int)
    requires bits <= 32
    ensures Mask(bits) == Ok(if bits <= 0 then 0 else Pow2(bits) - 1)
  {
    if bits >= 0 {
      LowMask(bits);
    } else {
      Pow2Of32();
      Pow2Monotone(32, 32 - bits);
      DivModUnique(0xffff_ffff, Pow2(32 - bits), 0, 0xffff_ffff);
    }
  }

  /** `0xffffffff >> (32 - bits)` is `2^bits - 1`. */
  lemma LowMask(bits: nat)
    requires bits <= 32
    ensures 0xffff_ffff / Pow2(32 - bits) == Pow2(bits) - 1
  {
    var k: nat := 32 - bits;
    var a, b := Pow2(bits), Pow2(k);
    assert a * b == 0x1_0000_0000 by {
      Pow2Of32();
      Pow2Add(bits, k);
    }
    assert 0xffff_ffff == b * (a - 1) + (b - 1) by {
      MulDistrib(b, a, -1);
    }
    DivModUnique(0xffff_ffff, b, a - 1, b - 1);
  }

  /** Each value yielded is the state modulo `2^bits`, and 0 for a negative `bits`. */
  lemma YieldValue(v: int, bits: int)
    requires bits <= 32
    ensures BitAnd(v, Mask(bits).value) == if bits < 0 then 0 else v % Pow2(bits)
  {
    MaskValue(bits);
    if bits < 0 {
      BitAndZero(v);
    } else {
      BitAndLowMask(v, bits);
    }
  }

  /**
   * What the generator gives: an error, raised by the first value, when
   * `bits` exceeds 32; otherwise exactly `len` values when `len` is at
   * least 1 (as many as asked for without `len`), each below `2^bits` and
   * the low bits of the successive states.
   */
  lemma YieldsFacts(bits: int, len: Option<int>, draws: nat)
    ensures Yields(bits, len, draws).Err? <==> bits > 32 && draws > 0
    ensures Yields(bits, len, draws).Ok? ==>
      var vs := Yields(bits, len, draws).value;
      |vs| == (if len.Some? && 1 <= len.value <= draws then len.value else Count(len, draws)) &&
      forall k :: 0 <= k < |vs| ==> 0 <= vs[k] < Pow2(if bits < 0 then 0 else bits) && vs[k] == (if bits < 0 then 0 else StateAt(k + 1) % Pow2(bits))
  {
    if Yields(bits, len, draws).Ok? && Count(len, draws) > 0 {
      var vs := Yields(bits, len, draws).value;
      forall k | 0 <= k < |vs|
        ensures 0 <= vs[k] < Pow2(if bits < 0 then 0 else bits) && vs[k] == (if bits < 0 then 0 else StateAt(k + 1) % Pow2(bits))
      {
        StateBelow(k + 1);
        YieldValue(StateAt(k + 1), bits);
      }
    }
  }

  /** A count of 0 still gives one value: the loop yields before it checks `len`. */
  lemma ZeroLengthYieldsOne()
    ensures Yields(16, Some(0), 5).Ok? && |Yields(16, Some(0), 5).value| == 1
  {
    assert Count(Some(0), 5) == 1;
  }

  /** The number of values `prng` is evidently meant to give: `len` of them, none for a `len` of 0 or less. */
  function CountIntended(len: Option<int>, draws: nat): nat
  {
    if len.None? then draws
    else var n := if len.value < 0 then 0 else len.value;
      if draws < n then draws else n
  }

  /** The values of `prng` with the count checked before each value rather than after. */
  function YieldsIntended(bits: int, len: Option<int>, draws: nat): Result<seq<int>>
  {
    if CountIntended(len, draws) == 0 then Ok([])
    else match Mask(bits)
      case Err(e) => Err(e)
      case Ok(mask) => Ok(Values(CountIntended(len, draws), mask))
  }

  /** `prng` with the count checked at the top of its loop. */
  method GenerateIntended(bits: int, len: Option<int>, draws: nat) returns (r: Result<seq<int>>)
    ensures r == YieldsIntended(bits, len, draws)
  {
    var v := SEED;
    var l := 0;
    var out: seq<int> := [];
    while l < draws && (len.None? || l < len.value)
      invariant 0 <= l <= CountIntended(len, draws) && |out| == l && v == StateAt(l)
      invariant l > 0 ==> Mask(bits).Ok? && out == Values(l, Mask(bits).value)
      decreases draws - l
    {
      v := Step(v);
      if bits > 32 {
        return Err(NEGATIVE_SHIFT);
      }
      var mask := 0xffff_ffff / Pow2(32 - bits);
      assert Mask(bits) == Ok(mask);
      assert v == StateAt(l + 1);
      assert out + [BitAnd(v, mask)] == Values(l + 1, mask);
      out := out + [BitAnd(v, mask)];
      l := l + 1;
    }
    assert l == CountIntended(len, draws);
    r := Ok(out);
  }

  /** With the count checked first, exactly `len` values come for every `len` of 0 or more that the consumer waits for. */
  lemma IntendedCount(bits: int, len: int, draws: nat)
    requires bits <= 32 && 0 <= len <= draws
    ensures YieldsIntended(bits, Some(len), draws).Ok? && |YieldsIntended(bits, Some(len), draws).value| == len
  {
  }
}
