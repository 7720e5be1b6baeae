/**
 * The bit-field helpers of `bilib.fn`: intervals of bit positions, masks and
 * field selection on Python's unbounded integers, the `Packer` that lays
 * fields side by side in one integer, and `uniqueName`.
 */
module Fn {
  import opened Wrappers
  import opened Arith
  import opened Decimal

  // ---------------------------------------------------------------------
  // Intervals
  // ---------------------------------------------------------------------

  /** An inclusive range of bit positions. */
  datatype Interval = Interval(low: int, hi: int)

  /** `Interval(b1, b2)`: the two bounds in either order. */
  function Span(b1: int, b2: int): (iv: Interval)
    ensures iv.low <= iv.hi
    ensures (iv.low == b1 && iv.hi == b2) || (iv.low == b2 && iv.hi == b1)
  {
    Interval(if b1 <= b2 then b1 else b2, if b1 <= b2 then b2 else b1)
  }

  /** `len(iv)`; negative for an interval built with a negative size. */
  function Len(iv: Interval): int
  {
    iv.hi - iv.low + 1
  }

  /** `Interval(b1, size=s)`: `s` positions from `b1` on. */
  function Sized(b1: int, size: int): (iv: Interval)
    ensures iv.low == b1 && Len(iv) == size
  {
    Interval(b1, b1 + size - 1)
  }

  /** `Interval.contains`: inclusive at both ends. */
  predicate Contains(iv: Interval, v: int)
  {
    iv.low <= v <= iv.hi
  }

  /** The span of positions both intervals contain, whether or not it is empty. */
  function Clip(a: Interval, b: Interval): Interval
  {
    Interval(if a.low >= b.low then a.low else b.low, if a.hi <= b.hi then a.hi else b.hi)
  }

  lemma ClipIsIntersection(a: Interval, b: Interval, v: int)
    ensures Contains(Clip(a, b), v) <==> Contains(a, v) && Contains(b, v)
  {
  }

  /**
   * `Interval.overlap` as written: no interval when the clipped bounds
   * satisfy `low >= hi`, which also drops an overlap of a single position.
   */
  function Overlap(a: Interval, b: Interval): (r: Option<Interval>)
    ensures r.None? <==> Clip(a, b).low >= Clip(a, b).hi
    ensures r.Some? ==> forall v :: Contains(r.value, v) <==> Contains(a, v) && Contains(b, v)
  {
    var c := Clip(a, b);
    if c.low >= c.hi then None else Some(Interval(c.low, c.hi))
  }

  /** Two equal one-position intervals share that position, yet `overlap` finds none. */
  lemma OverlapMissesSinglePosition()
    ensures var iv := Sized(5, 1);
      Contains(iv, 5) && Len(iv) == 1 && Overlap(iv, iv) == None
  {
  }

  /** `overlap` as evidently intended: `None` exactly when no position is shared. */
  function OverlapIntended(a: Interval, b: Interval): (r: Option<Interval>)
    ensures r.None? <==> forall v :: !(Contains(a, v) && Contains(b, v))
    ensures r.Some? ==> forall v :: Contains(r.value, v) <==> Contains(a, v) && Contains(b, v)
  {
    var c := Clip(a, b);
    if c.low > c.hi then
      None
    else
      assert Contains(a, c.low) && Contains(b, c.low);
      Some(c)
  }

  // ---------------------------------------------------------------------
  // Masks
  // ---------------------------------------------------------------------

  const NEGATIVE_LEN: string := "__len__() should return >= 0"
  const NEGATIVE_SHIFT: string := "negative shift count"

  /** An interval `mkmask` accepts: `len` is not negative and the shift is not negative. */
  predicate Maskable(iv: Interval)
  {
    Len(iv) >= 0 && iv.low >= 0
  }

  /** The mask of an interval: `len` ones shifted up to `low`. */
  function Mask(iv: Interval): int
    requires Maskable(iv)
  {
    (Pow2(Len(iv)) - 1) * Pow2(iv.low)
  }

  lemma ShlOrOne(x: nat)
    ensures BitOr(x * 2, 1) == x * 2 + 1
  {
    assert Pow2(1) == 2;
    BitOrDisjoint(1, x * 2, 1);
    BitOrCommutes(1, x * 2);
  }

  /** `mkmask`: one bit is shifted in per position, then the ones move up to `low`. */
  method MkMask(iv: Interval) returns (r: Result<int>)
    ensures Len(iv) < 0 ==> r == Err(NEGATIVE_LEN)
    ensures Len(iv) >= 0 && iv.low < 0 ==> r == Err(NEGATIVE_SHIFT)
    ensures Maskable(iv) ==> r == Ok(Mask(iv))
  {
    if Len(iv) < 0 {
      return Err(NEGATIVE_LEN);
    }
    var ret: nat := 0;
    var k := 0;
    while k < Len(iv)
      invariant 0 <= k <= Len(iv)
      invariant ret == Pow2(k) - 1
    {
      ShlOrOne(ret);
      ret := BitOr(ret * 2, 1);
      k := k + 1;
    }
    if iv.low < 0 {
      return Err(NEGATIVE_SHIFT);
    }
    r := Ok(ret * Pow2(iv.low));
  }

  /** The mask has a one exactly at the positions of the interval. */
  lemma MaskBits(iv: Interval, i: nat)
    requires Maskable(iv)
    ensures Bit(Mask(iv), i) == if Contains(iv, i) then 1 else 0
  {
    BitOfShl(Pow2(Len(iv)) - 1, iv.low, i);
    if i >= iv.low {
      BitOfOnes(Len(iv), i - iv.low);
    }
  }

  /** `bitsel`: the bits of the interval, moved down to position 0. */
  function BitSel(v: int, iv: Interval): (r: Result<int>)
    ensures r.Err? <==> !Maskable(iv)
  {
    if Len(iv) < 0 then Err(NEGATIVE_LEN)
    else if iv.low < 0 then Err(NEGATIVE_SHIFT)
    else Ok(BitAnd(v, Mask(iv)) / Pow2(iv.low))
  }

  /** `bitsel(v, iv) == (v >> low) mod 2^len`. */
  lemma BitSelIsField(v: int, iv: Interval)
    requires Maskable(iv)
    ensures BitSel(v, iv) == Ok((v / Pow2(iv.low)) % Pow2(Len(iv)))
  {
    var a := BitAnd(v, Mask(iv)) / Pow2(iv.low);
    var b := BitAnd(v / Pow2(iv.low), Pow2(Len(iv)) - 1);
    forall i: nat
      ensures Bit(a, i) == Bit(b, i)
    {
      BitOfShr(BitAnd(v, Mask(iv)), iv.low, i);
      BitOfAnd(v, Mask(iv), i + iv.low);
      MaskBits(iv, i + iv.low);
      BitOfAnd(v / Pow2(iv.low), Pow2(Len(iv)) - 1, i);
      BitOfOnes(Len(iv), i);
      BitOfShr(v, iv.low, i);
    }
    BitsExtensional(a, b);
    BitAndLowMask(v / Pow2(iv.low), Len(iv));
  }

  lemma {:induction false} BitIsBit(x: int, i: nat)
    ensures Bit(x, i) == 0 || Bit(x, i) == 1
    decreases i
  {
    if i > 0 {
      BitIsBit(x / 2, i - 1);
    }
  }

  /** `bitmask`: `var ^ (var & mask)`. */
  function BitMask(v: int, mask: int): int
  {
    BitXor(v, BitAnd(v, mask))
  }

  /** `bitmask` clears exactly the mask bits: it is `var & ~mask`. */
  lemma BitMaskClears(v: int, mask: int)
    ensures BitMask(v, mask) == BitAnd(v, BitNot(mask))
    ensures forall i: nat :: Bit(BitMask(v, mask), i) == if Bit(mask, i) == 1 then 0 else Bit(v, i)
  {
    forall i: nat
      ensures Bit(BitMask(v, mask), i) == if Bit(mask, i) == 1 then 0 else Bit(v, i)
    {
      BitOfXor(v, BitAnd(v, mask), i);
      BitOfAnd(v, mask, i);
      BitIsBit(v, i);
      BitIsBit(mask, i);
    }
    forall i: nat
      ensures Bit(BitMask(v, mask), i) == Bit(BitAnd(v, BitNot(mask)), i)
    {
      BitOfAnd(v, BitNot(mask), i);
      BitOfNot(mask, i);
      BitOfXor(v, BitAnd(v, mask), i);
      BitOfAnd(v, mask, i);
      BitIsBit(v, i);
      BitIsBit(mask, i);
    }
    BitsExtensional(BitMask(v, mask), BitAnd(v, BitNot(mask)));
  }

  // ---------------------------------------------------------------------
  // Packer
  // ---------------------------------------------------------------------

  /** The `size`-bit field of `val` that starts at `pos`. */
  function Field(val: int, pos: nat, size: nat): (r: nat)
    ensures r < Pow2(size)
  {
    (val / Pow2(pos)) % Pow2(size)
  }

  /** `val` with the low `size` bits of `data` or-ed in at `pos`. */
  function Added(val: int, pos: nat, data: int, size: nat): int
  {
    BitOr(val, (data % Pow2(size)) * Pow2(pos))
  }

  /**
   * `Packer`: fields are added from bit 0 upwards and read back in the same
   * order; `pos` is where the next field starts.
   */
  class Packer {
    var val: int
    var pos: nat

    constructor(data: int)
      ensures val == data && pos == 0
    {
      val := data;
      pos := 0;
    }

    /** `Packer.add`. */
    method Add(data: int, size: nat)
      modifies this
      ensures val == Added(old(val), old(pos), data, size) && pos == old(pos) + size
    {
      var m := MkMask(Sized(0, size));
      BitAndLowMask(data, size);
      val := BitOr(val, BitAnd(data, m.value) * Pow2(pos));
      pos := pos + size;
    }

    /** `Packer.get`. */
    method Get(size: nat) returns (r: int)
      modifies this
      ensures r == Field(old(val), old(pos), size)
      ensures val == old(val) && pos == old(pos) + size
    {
      var m := MkMask(Sized(0, size));
      BitAndLowMask(val / Pow2(pos), size);
      r := BitAnd(val / Pow2(pos), m.value);
      pos := pos + size;
    }
  }

  lemma DivModShift(val: int, x: int, a: int, b: int, c: int)
    requires a > 0 && b > 0 && c > 0
    ensures ((val + x * (a * (b * c))) / a) % b == (val / a) % b
  {
    assert x * (a * (b * c)) == (x * (b * c)) * a;
    AddMulDiv(val, x * (b * c), a);
    assert x * (b * c) == (x * c) * b;
    AddMulDiv(val / a, x * c, b);
  }

  lemma PlaceAbove(val: int, x: int, a: int, b: int)
    requires 0 <= val < a && 0 <= x < b
    ensures 0 <= val + x * a < a * b
    ensures ((val + x * a) / a) % b == x
  {
    MulBelow(a, b, x);
    AddMulDiv(val, x, a);
    DivIsZero(val, a);
    DivModUnique(x, b, 0, x);
  }

  /** Adding a multiple of `2^pos` leaves every field below `pos` as it was. */
  lemma FieldBelow(val: int, x: int, pos: nat, p: nat, s: nat)
    requires p + s <= pos
    ensures Field(val + x * Pow2(pos), p, s) == Field(val, p, s)
  {
    Pow2Add(p, pos - p);
    Pow2Add(s, pos - p - s);
    DivModShift(val, x, Pow2(p), Pow2(s), Pow2(pos - p - s));
  }

  /**
   * Adding a field to a packing that fills exactly the bits below `pos`
   * keeps it exact, reads back the field truncated to its size, and leaves
   * every field below `pos` as it was.
   */
  lemma AddedFields(val: int, pos: nat, data: int, size: nat)
    requires 0 <= val < Pow2(pos)
    ensures 0 <= Added(val, pos, data, size) < Pow2(pos + size)
    ensures Field(Added(val, pos, data, size), pos, size) == data % Pow2(size)
    ensures forall p: nat, s: nat :: p + s <= pos ==> Field(Added(val, pos, data, size), p, s) == Field(val, p, s)
  {
    var x := data % Pow2(size);
    ShiftedIsMultiple(x, pos);
    BitOrDisjoint(val, x * Pow2(pos), pos);
    var w := val + x * Pow2(pos);
    assert Added(val, pos, data, size) == w;
    Pow2Add(pos, size);
    PlaceAbove(val, x, Pow2(pos), Pow2(size));
    forall p: nat, s: nat | p + s <= pos
      ensures Field(w, p, s) == Field(val, p, s)
    {
      FieldBelow(val, x, pos, p, s);
    }
  }

  /**
   * Two fields added to an empty packer come back, truncated to their sizes,
   * from a packer started on the packed value and read in the same order.
   */
  lemma PackerRoundTrip(d1: int, s1: nat, d2: int, s2: nat)
    ensures var v := Added(Added(0, 0, d1, s1), s1, d2, s2);
      Field(v, 0, s1) == d1 % Pow2(s1) && Field(v, s1, s2) == d2 % Pow2(s2)
  {
    AddedFields(0, 0, d1, s1);
    var v1 := Added(0, 0, d1, s1);
    AddedFields(v1, s1, d2, s2);
  }

  // ---------------------------------------------------------------------
  // uniqueName
  // ---------------------------------------------------------------------

  predicate EndsInDigit(s: string)
  {
    |s| > 0 && IsDigit(s[|s| - 1])
  }

  /** The `n`-th name handed out for a stored base: the base itself, then `base2`, `base3`, ... */
  function Name(key: string, n: nat): string
  {
    if n == 1 then key else key + NatToStr(n)
  }

  predicate NoNewline(s: string)
  {
    forall i :: 0 <= i < |s| ==> s[i] != '\n'
  }

  /**
   * `re.match(r'^.*[^\d]\d+$', base)`: a non-digit, with no line break before
   * it, followed by digits up to the end or up to a final line break.
   */
  predicate TrailingNumber(s: string)
  {
    exists i :: 0 <= i < |s| - 1 && !IsDigit(s[i]) && NoNewline(s[..i]) &&
      (AllDigits(s[i + 1..]) || (s[|s| - 1] == '\n' && i + 1 < |s| - 1 && AllDigits(s[i + 1..|s| - 1])))
  }

  /** The key `uniqueName` stores a base under, as written. */
  function KeyAsWritten(base: string): string
  {
    if TrailingNumber(base) then base + "_" else base
  }

  /** One call of `uniqueName` as written, on the store it updates. */
  function UniqueNameAsWritten(store: map<string, nat>, base: string): (map<string, nat>, string)
  {
    var key := KeyAsWritten(base);
    var n := (if key in store then store[key] else 0) + 1;
    (store[key := n], Name(key, n))
  }

  /** A base of digits only escapes the `_` suffix: `"2"`, `"2"`, `"22"` yields `"22"` twice. */
  lemma UniqueNameCollides()
    ensures var (s1, a) := UniqueNameAsWritten(map[], "2");
      var (s2, b) := UniqueNameAsWritten(s1, "2");
      var (s3, c) := UniqueNameAsWritten(s2, "22");
      a == "2" && b == "22" && c == "22"
  {
    assert !TrailingNumber("22") by {
      assert IsDigit("22"[0]);
    }
    assert NatToStr(2) == "2";
  }

  /** The key as evidently intended: any base ending in a digit is set apart by `_`. */
  function Key(base: string): (k: string)
    ensures !EndsInDigit(k)
    ensures k == base || k == base + "_"
  {
    if EndsInDigit(base) then base + "_" else base
  }

  lemma SuffixDigit(k: string, t: string, j: nat)
    requires AllDigits(t) && |k| <= j < |k| + |t|
    ensures IsDigit((k + t)[j])
  {
    assert (k + t)[j] == t[j - |k|];
  }

  /** Names of keys that do not end in a digit never coincide. */
  lemma NameInjective(k1: string, n1: nat, k2: string, n2: nat)
    requires !EndsInDigit(k1) && !EndsInDigit(k2) && n1 >= 1 && n2 >= 1
    requires Name(k1, n1) == Name(k2, n2)
    ensures k1 == k2 && n1 == n2
  {
    var g := Name(k1, n1);
    if n1 >= 2 {
      SuffixDigit(k1, NatToStr(n1), |g| - 1);
    }
    if n2 >= 2 {
      SuffixDigit(k2, NatToStr(n2), |g| - 1);
    }
    if n1 == 1 && n2 == 1 {
    } else if n1 == 1 || n2 == 1 {
      assert false;
    } else {
      var t1, t2 := NatToStr(n1), NatToStr(n2);
      if |k1| < |k2| {
        SuffixDigit(k1, t1, |k2| - 1);
        assert false;
      } else if |k2| < |k1| {
        SuffixDigit(k2, t2, |k1| - 1);
        assert false;
      } else {
        assert k1 == g[..|k1|] == k2;
        assert t1 == g[|k1|..] == t2;
        NatToStrValue(n1);
        NatToStrValue(n2);
      }
    }
  }

  /** The store behind `uniqueName`: for each key, how many names it has handed out. */
  class NameStore {
    var store: map<string, nat>

    ghost predicate Valid()
      reads this
    {
      forall k :: k in store ==> store[k] >= 1 && !EndsInDigit(k)
    }

    constructor()
      ensures Valid() && store == map[]
    {
      store := map[];
    }

    /**
     * `uniqueName` with the evidently intended key: the returned name differs
     * from every name handed out before.
     */
    method UniqueName(base: string) returns (name: string)
      requires Valid()
      modifies this
      ensures Valid()
      ensures var key := Key(base);
        var n := (if key in old(store) then old(store)[key] else 0) + 1;
        store == old(store)[key := n] && name == Name(key, n)
      ensures forall k, j :: k in old(store) && 1 <= j <= old(store)[k] ==> Name(k, j) != name
    {
      var key := Key(base);
      if key !in store {
        store := store[key := 0];
      }
      var n := store[key] + 1;
      store := store[key := n];
      name := Name(key, n);
      forall k, j | k in old(store) && 1 <= j <= old(store)[k]
        ensures Name(k, j) != name
      {
        if Name(k, j) == name {
          NameInjective(k, j, key, n);
        }
      }
    }
  }
}
