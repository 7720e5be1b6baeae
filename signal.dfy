// Nine-valued logic (`L9`), vectors of it (`Bits`, index 0 is the least
// significant bit) and timed value changes (`Change`) of the choc library,
// with their integer conversions and wire forms.
module Signal {
  import opened Wrappers
  import opened Arith
  import opened BigEndian
  import Time

  // ---------------------------------------------------------------------
  // L9

  /** The nine logic values: 0, 1, Z, X, L, H, Y (weak X), U, D (don't care). */
  datatype L9 = L0 | L1 | Z | X | L | H | Y | U | D
  {
    /** `int(v)`: the enum value, which is also the nibble on the wire. */
    function Code(): (c: nat)
      ensures c < 16
    {
      match this
      case L0 => 0
      case L1 => 1
      case Z => 2
      case X => 3
      case L => 4
      case H => 5
      case Y => 6
      case U => 0xa
      case D => 0xe
    }

    predicate IsPure()
    {
      this == L0 || this == L1
    }

    /** `toInt()` without `force`: only 0 and 1 convert. */
    function ToInt(): (r: Result<nat>)
      ensures r.Ok? <==> IsPure()
      ensures r.Ok? ==> r.value < 2 && FromCode(r.value) == Some(this)
      ensures r.Err? ==> r.error == NOT_PURE
    {
      if IsPure() then Ok(Code()) else Err(NOT_PURE)
    }
  }

  /** Every value survives `L9(int(v))`. */
  lemma CodeRoundTrip(v: L9)
    ensures FromCode(v.Code()) == Some(v)
  {
  }

  const NOT_PURE: string := "NotPureSignal: cannot convert L9 to int"

  /** `L9(n)`: the member whose value is n; other values raise ValueError. */
  function FromCode(n: int): (r: Option<L9>)
    ensures r.Some? <==> (0 <= n <= 6 || n == 0xa || n == 0xe)
    ensures r.Some? ==> r.value.Code() == n
  {
    if n == 0 then Some(L0)
    else if n == 1 then Some(L1)
    else if n == 2 then Some(Z)
    else if n == 3 then Some(X)
    else if n == 4 then Some(L)
    else if n == 5 then Some(H)
    else if n == 6 then Some(Y)
    else if n == 0xa then Some(U)
    else if n == 0xe then Some(D)
    else None
  }

  // ---------------------------------------------------------------------
  // Bits and integers

  predicate Pure(v: seq<L9>)
  {
    forall i :: 0 <= i < |v| ==> v[i].IsPure()
  }

  /** The unsigned number a pure vector stands for. */
  function Value(v: seq<L9>): (r: nat)
    requires Pure(v)
    ensures r < Pow2(|v|)
  {
    if v == [] then 0 else v[0].Code() + 2 * Value(v[1..])
  }

  /** What `Bits.toInt()` returns, or the NotPureSignal it raises. */
  function ToIntSpec(v: seq<L9>): Result<nat>
  {
    if Pure(v) then Ok(Value(v)) else Err(NOT_PURE)
  }

  /** The vector `Bits(num, width)` builds: bit i of num (two's complement) at index i. */
  function FromInt(num: int, width: nat): (r: seq<L9>)
    ensures |r| == width && Pure(r)
  {
    seq(width, i requires 0 <= i < width => if Bit(num, i) == 1 then L1 else L0)
  }

  /** `Bits._intRead`: appends `L9((num >> i) & 1)` for i below width. */
  method IntRead(num: int, width: nat) returns (bits: seq<L9>)
    ensures bits == FromInt(num, width)
  {
    bits := [];
    var i := 0;
    while i < width
      invariant 0 <= i <= width && bits == FromInt(num, i)
    {
      var b := BitAnd(num / Pow2(i), 1);
      assert Pow2(1) == 2;
      BitAndLowMask(num / Pow2(i), 1);
      BitOfShr(num, i, 0);
      assert b == Bit(num, i);
      var l := FromCode(b);
      bits := bits + [l.value];
      i := i + 1;
    }
  }

  /** `Bits.toInt()`: from the last bit down, `ret = (ret << 1) | b.toInt()`. */
  method ToInt(v: seq<L9>) returns (r: Result<nat>)
    ensures r == ToIntSpec(v)
  {
    var ret: nat := 0;
    var i := |v|;
    while i > 0
      invariant 0 <= i <= |v| && Pure(v[i..]) && ret == Value(v[i..])
    {
      i := i - 1;
      var b := v[i].ToInt();
      if b.Err? {
        return b;
      }
      assert v[i..][1..] == v[i + 1..];
      assert Pow2(1) == 2;
      BitOrDisjoint(b.value, ret * 2, 1);
      BitOrCommutes(b.value, ret * 2);
      ret := BitOr(ret * 2, b.value);
    }
    assert v[0..] == v;
    return Ok(ret);
  }

  lemma FromIntTail(n: int, w: nat)
    requires w > 0
    ensures FromInt(n, w)[0] == (if n % 2 == 1 then L1 else L0)
    ensures FromInt(n, w)[1..] == FromInt(n / 2, w - 1)
  {
  }

  /** `Bits(n, w).toInt() == n mod 2^w`, negative n included. */
  lemma {:induction false} ToIntOfFromInt(n: int, w: nat)
    ensures ToIntSpec(FromInt(n, w)) == Ok(n % Pow2(w))
    decreases w
  {
    if w > 0 {
      var v := FromInt(n, w);
      FromIntTail(n, w);
      ToIntOfFromInt(n / 2, w - 1);
      assert Value(v[1..]) == (n / 2) % Pow2(w - 1);
      assert v[0].Code() == n % 2;
      DivDiv(n, 2, Pow2(w - 1));
      assert Pow2(w) == 2 * Pow2(w - 1);
      assert Value(v) == n % 2 + 2 * ((n / 2) % Pow2(w - 1));
    }
  }

  /** A pure vector is rebuilt from its number: `Bits(b.toInt(), len(b)) == b`. */
  lemma {:induction false} FromIntOfValue(v: seq<L9>)
    requires Pure(v)
    ensures FromInt(Value(v), |v|) == v
  {
    if v != [] {
      var rest := v[1..];
      FromIntOfValue(rest);
      DivModUnique(Value(v), 2, Value(rest), v[0].Code());
      FromIntTail(Value(v), |v|);
      assert v == [v[0]] + rest;
    }
  }

  /** Concatenation `a + b` puts b's bits above a's. */
  function Concat(a: seq<L9>, b: seq<L9>): (r: seq<L9>)
    ensures |r| == |a| + |b| && r[..|a|] == a && r[|a|..] == b
  {
    a + b
  }

  /** The number of `a + b` is `a.toInt() + (b.toInt() << len(a))`. */
  lemma {:induction false} ValueOfConcat(a: seq<L9>, b: seq<L9>)
    requires Pure(a) && Pure(b)
    ensures Pure(Concat(a, b))
    ensures Value(Concat(a, b)) == Value(a) + Pow2(|a|) * Value(b)
  {
    if a != [] {
      assert Concat(a, b)[1..] == Concat(a[1..], b);
      ValueOfConcat(a[1..], b);
      MulAssoc(2, Pow2(|a| - 1), Value(b));
      MulDistrib(2, Value(a[1..]), Pow2(|a| - 1) * Value(b));
    }
  }

  // ---------------------------------------------------------------------
  // Don't-care matching

  predicate Compatible(l: L9, r: L9)
  {
    l == r || l == D || r == D
  }

  /** `Bits.match`: equal length, and each pair equal or one side don't-care. */
  predicate Match(a: seq<L9>, b: seq<L9>)
  {
    |a| == |b| && MatchFrom(a, b, 0)
  }

  predicate MatchFrom(a: seq<L9>, b: seq<L9>, k: nat)
    requires |a| == |b| && k <= |a|
    decreases |a| - k
  {
    k == |a| || (Compatible(a[k], b[k]) && MatchFrom(a, b, k + 1))
  }

  lemma {:induction false} MatchFromAll(a: seq<L9>, b: seq<L9>, k: nat)
    requires |a| == |b| && k <= |a|
    ensures MatchFrom(a, b, k) <==> forall i :: k <= i < |a| ==> Compatible(a[i], b[i])
    decreases |a| - k
  {
    if k < |a| {
      MatchFromAll(a, b, k + 1);
    }
  }

  /** Matching is position-wise compatibility of two vectors of the same width. */
  lemma MatchMeans(a: seq<L9>, b: seq<L9>)
    ensures Match(a, b) <==> |a| == |b| && forall i :: 0 <= i < |a| ==> Compatible(a[i], b[i])
  {
    if |a| == |b| {
      MatchFromAll(a, b, 0);
    }
  }

  lemma MatchReflexiveSymmetric(a: seq<L9>, b: seq<L9>)
    ensures Match(a, a)
    ensures Match(a, b) <==> Match(b, a)
  {
    MatchMeans(a, a);
    MatchMeans(a, b);
    MatchMeans(b, a);
  }

  /** Don't-care makes matching intransitive: 0 ~ D and D ~ 1, but not 0 ~ 1. */
  lemma MatchNotTransitive(a: seq<L9>, b: seq<L9>, c: seq<L9>)
    requires a == [L0] && b == [D] && c == [L1]
    ensures Match(a, b) && Match(b, c) && !Match(a, c)
  {
    MatchMeans(a, b);
    MatchMeans(b, c);
    MatchMeans(a, c);
  }

  // ---------------------------------------------------------------------
  // Wire form: a 2-byte width, then one nibble per bit, highest pair first

  /** `((s-1)//2)+1` bytes of nibble pairs. */
  function PackLen(s: nat): (n: nat)
    ensures n == (s + 1) / 2
  {
    ((s - 1) / 2) + 1
  }

  /** Bit k's nibble once bits below `n` are packed. */
  function NibBelow(v: seq<L9>, k: nat, n: nat): nat
  {
    if k < n && k < |v| then v[k].Code() else 0
  }

  /**
   * Byte j of the pack once bits below n are packed: byte j holds bit pair
   * p = PackLen - 1 - j, the even bit in the low nibble, the odd one above.
   */
  function PartialByte(v: seq<L9>, j: nat, n: nat): nat
    requires j < PackLen(|v|)
  {
    var p := PackLen(|v|) - 1 - j;
    NibBelow(v, 2 * p, n) + 16 * NibBelow(v, 2 * p + 1, n)
  }

  function Packed(v: seq<L9>): (r: seq<byte>)
    ensures |r| == PackLen(|v|)
  {
    seq(PackLen(|v|), j requires 0 <= j < PackLen(|v|) => PartialByte(v, j, |v|))
  }

  /** What `Bits.toBytes` returns; the width must fit in two bytes. */
  function BytesSpec(v: seq<L9>): (r: Result<seq<byte>>)
    ensures r.Ok? <==> |v| < 65536
    ensures r.Ok? ==> |r.value| == 2 + (|v| + 1) / 2
  {
    PowersOf256();
    match BigEndian.ToBytes(|v|, 2)
    case Err(e) => Err(e)
    case Ok(w) => Ok(w + Packed(v))
  }

  /** One step of the packing loop changes only the byte of the current pair. */
  lemma PackStep(v: seq<L9>, bit: nat, j: nat)
    requires bit < |v| && j < PackLen(|v|)
    ensures PartialByte(v, j, bit) < 256
    ensures PartialByte(v, j, bit + 1) ==
      if j == ((|v| - 1) / 2) - (bit / 2) then
        BitOr(PartialByte(v, j, bit), if bit % 2 == 1 then v[bit].Code() * 16 else v[bit].Code())
      else PartialByte(v, j, bit)
  {
    var p := PackLen(|v|) - 1 - j;
    var c := v[bit].Code();
    if j == ((|v| - 1) / 2) - (bit / 2) {
      assert p == bit / 2;
      if bit % 2 == 1 {
        assert bit == 2 * p + 1;
        BitOrDisjoint(NibBelow(v, 2 * p, bit), c * 16, 4);
      } else {
        assert bit == 2 * p;
        BitOrZero(c);
      }
    }
  }

  /** `Bits.toBytes`: the width, then `pack[byt] |= nibble` for every bit. */
  method ToBytes(v: seq<L9>) returns (r: Result<seq<byte>>)
    ensures r == BytesSpec(v)
  {
    var s := |v|;
    PowersOf256();
    var data := BigEndian.ToBytes(s, 2);
    if data.Err? {
      return Err(data.error);
    }
    var pack := new byte[((s - 1) / 2) + 1](_ => 0);
    var bit := 0;
    while bit < s
      invariant 0 <= bit <= s && pack.Length == PackLen(s)
      invariant forall j :: 0 <= j < pack.Length ==> pack[j] == PartialByte(v, j, bit)
      modifies pack
    {
      var byt := ((s - 1) / 2) - (bit / 2);
      var c := v[bit].Code();
      forall j | 0 <= j < pack.Length
        ensures PartialByte(v, j, bit) < 256
        ensures PartialByte(v, j, bit + 1) ==
          if j == byt then BitOr(PartialByte(v, j, bit), if bit % 2 == 1 then c * 16 else c)
          else PartialByte(v, j, bit)
      {
        PackStep(v, bit, j);
      }
      pack[byt] := BitOr(pack[byt], if bit % 2 == 1 then c * 16 else c);
      bit := bit + 1;
    }
    assert pack[..] == Packed(v);
    return Ok(data.value + pack[..]);
  }

  /** The payload nibble of bit idx: `(b >> 4) if idx % 2 else (b & 0xf)`. */
  function NibAt(raw: seq<byte>, s: nat, idx: nat): nat
    requires idx < s && 2 + (s - 1) / 2 < |raw|
  {
    var b := raw[2 + ((s - 1) / 2) - (idx / 2)];
    if idx % 2 == 1 then b / 16 else b % 16
  }

  /** `int.from_bytes(raw[0:2], 'big')`; a short input gives a short slice. */
  function Width(raw: seq<byte>): nat
  {
    Decode(raw[..if |raw| < 2 then |raw| else 2])
  }

  /**
   * What `Bits.fromBytes` returns: IndexError when the payload is shorter
   * than the width needs (raised at the first bit, which reads the last
   * byte), ValueError for a nibble that is not an L9 value.
   */
  function UnpackSpec(raw: seq<byte>): Result<seq<L9>>
  {
    var s := Width(raw);
    if s > 0 && |raw| <= 2 + (s - 1) / 2 then Err("IndexError: index out of range")
    else if exists idx :: 0 <= idx < s && FromCode(NibAt(raw, s, idx)).None? then Err("ValueError: not a valid L9")
    else Ok(Unpacked(raw, s))
  }

  /** The vector of the nibbles of a payload that holds only L9 values. */
  function Unpacked(raw: seq<byte>, s: nat): (r: seq<L9>)
    requires s > 0 ==> 2 + (s - 1) / 2 < |raw|
    requires forall idx :: 0 <= idx < s ==> FromCode(NibAt(raw, s, idx)).Some?
    ensures |r| == s && forall idx :: 0 <= idx < s ==> FromCode(NibAt(raw, s, idx)) == Some(r[idx])
  {
    seq(s, idx requires 0 <= idx < s => FromCode(NibAt(raw, s, idx)).value)
  }

  /** `Bits.fromBytes`. */
  method FromBytes(raw: seq<byte>) returns (r: Result<seq<L9>>)
    ensures r == UnpackSpec(raw)
  {
    var s := Decode(raw[..if |raw| < 2 then |raw| else 2]);
    assert s == Width(raw);
    var lst := [];
    var idx := 0;
    while idx < s
      invariant 0 <= idx <= s && |lst| == idx
      invariant idx > 0 ==> 2 + (s - 1) / 2 < |raw|
      invariant forall k :: 0 <= k < idx ==> FromCode(NibAt(raw, s, k)) == Some(lst[k])
    {
      var byt := ((s - 1) / 2) - (idx / 2);
      if 2 + byt >= |raw| {
        return Err("IndexError: index out of range");
      }
      var b := raw[2 + byt];
      var l := FromCode(if idx % 2 == 1 then b / 16 else b % 16);
      if l.None? {
        assert FromCode(NibAt(raw, s, idx)).None?;
        return Err("ValueError: not a valid L9");
      }
      lst := lst + [l.value];
      idx := idx + 1;
    }
    if s > 0 {
      assert FromCode(NibAt(raw, s, 0)).Some?;
      assert forall k :: 0 <= k < s ==> FromCode(NibAt(raw, s, k)).Some?;
      assert lst == Unpacked(raw, s);
    }
    return Ok(lst);
  }

  /** The nibble read back for bit idx is that bit's code. */
  lemma NibRoundTrip(v: seq<L9>, w: seq<byte>, idx: nat)
    requires |w| == 2 && idx < |v|
    ensures 2 + (|v| - 1) / 2 < |w + Packed(v)|
    ensures NibAt(w + Packed(v), |v|, idx) == v[idx].Code()
  {
    var j := ((|v| - 1) / 2) - (idx / 2);
    var p := idx / 2;
    assert PackLen(|v|) - 1 - j == p;
    var lo, hi := NibBelow(v, 2 * p, |v|), NibBelow(v, 2 * p + 1, |v|);
    assert (w + Packed(v))[2 + j] == lo + 16 * hi;
    DivModUnique(lo + 16 * hi, 16, hi, lo);
  }

  /** `Bits.fromBytes(b.toBytes()) == b` for every width below 2^16. */
  lemma BytesRoundTrip(v: seq<L9>)
    requires |v| < 65536
    ensures BytesSpec(v).Ok? && UnpackSpec(BytesSpec(v).value) == Ok(v)
  {
    PowersOf256();
    var w := BigEndian.ToBytes(|v|, 2).value;
    var raw := w + Packed(v);
    assert BytesSpec(v).value == raw;
    assert raw[..2] == w;
    assert Width(raw) == |v|;
    if |v| > 0 {
      NibRoundTrip(v, w, 0);
      forall idx | 0 <= idx < |v|
        ensures FromCode(NibAt(raw, |v|, idx)) == Some(v[idx])
      {
        NibRoundTrip(v, w, idx);
        CodeRoundTrip(v[idx]);
      }
      assert v == Unpacked(raw, |v|);
    }
  }

  // ---------------------------------------------------------------------
  // Change

  /** A value reaching a time; `sync` marks a synchronous sample. */
  datatype Change = Change(value: seq<L9>, time: Time.Tme, sync: bool)

  /**
   * `Change.shifted`: the time must have the change's domain; relative
   * shifts add it, absolute ones replace the time.
   */
  function Shifted(c: Change, t: Time.Tme, relative: bool): (r: Result<Change>)
    requires c.time.Valid() && t.Valid()
    ensures r.Ok? <==> t.Typ() == c.time.Typ() && (relative ==> c.time.ToInt().Some? && t.ToInt().Some?)
    ensures r.Ok? ==> r.value.value == c.value && r.value.sync == c.sync
    ensures r.Ok? ==> r.value.time.Valid() && r.value.time.Typ() == c.time.Typ()
    ensures r.Ok? ==>
      r.value.time.ToInt() == (if relative then Some(c.time.ToInt().value + t.ToInt().value) else t.ToInt())
  {
    if t.Typ() != c.time.Typ() then Err("cannot shift change to different time type")
    else if !relative then Ok(Change(c.value, t, c.sync))
    else
      Time.AddSubDomain(c.time, Time.TmeOp(t), false);
      match Time.Add(c.time, Time.TmeOp(t))
      case Err(e) => Err(e)
      case Ok(nt) => Ok(Change(c.value, nt, c.sync))
  }

  /** Shifting by t and then by -t restores the change. */
  lemma ShiftedBack(c: Change, t: Time.Tme, back: Time.Tme)
    requires c.time.Valid() && t.Valid() && back.Valid()
    requires Shifted(c, t, true).Ok?
    requires back == Time.OfInt(-t.ToInt().value, t.Typ())
    ensures Shifted(Shifted(c, t, true).value, back, true) == Ok(c)
  {
    Time.OfIntOfSelf(c.time);
  }

  /** What `Change.toBytes` returns: time (9 bytes), sync (1 byte), bits. */
  function ChangeBytesSpec(c: Change): (r: Result<seq<byte>>)
    requires c.time.Valid()
    ensures r.Ok? ==> |r.value| == 10 + 2 + (|c.value| + 1) / 2
  {
    match Time.ToBytes(c.time)
    case Err(e) => Err(e)
    case Ok(tb) =>
      match BytesSpec(c.value)
      case Err(e) => Err(e)
      case Ok(vb) => Ok(tb + [if c.sync then 1 else 0] + vb)
  }

  /** `Change.toBytes`. */
  method ChangeToBytes(c: Change) returns (r: Result<seq<byte>>)
    requires c.time.Valid()
    ensures r == ChangeBytesSpec(c)
  {
    var tb := Time.ToBytes(c.time);
    if tb.Err? {
      return Err(tb.error);
    }
    var vb := ToBytes(c.value);
    if vb.Err? {
      return Err(vb.error);
    }
    return Ok(tb.value + [if c.sync then 1 else 0] + vb.value);
  }

  /** What `Change.fromBytes(byt, Bits)` returns; any nonzero sync byte is true. */
  function ChangeFromSpec(b: seq<byte>): Result<Change>
  {
    match Time.FromBytes(b)
    case Err(e) => Err(e)
    case Ok(t) =>
      if |b| <= 9 then Err("IndexError: index out of range")
      else
        match UnpackSpec(b[10..])
        case Err(e) => Err(e)
        case Ok(v) => Ok(Change(v, t, b[9] != 0))
  }

  /** `Change.fromBytes(byt, Bits)`. */
  method ChangeFromBytes(b: seq<byte>) returns (r: Result<Change>)
    ensures r == ChangeFromSpec(b)
  {
    var time := Time.FromBytes(b);
    if time.Err? {
      return Err(time.error);
    }
    if |b| <= 9 {
      return Err("IndexError: index out of range");
    }
    var sync := b[9] != 0;
    var value := FromBytes(b[10..]);
    if value.Err? {
      return Err(value.error);
    }
    return Ok(Change(value.value, time.value, sync));
  }

  /** `Change.fromBytes(c.toBytes(), Bits) == c` when both parts are encodable. */
  lemma ChangeRoundTrip(c: Change)
    requires c.time.Valid() && c.time.ToInt().Some? && 0 <= c.time.ToInt().value < Pow(256, 8)
    requires |c.value| < 65536
    ensures ChangeBytesSpec(c).Ok? && ChangeFromSpec(ChangeBytesSpec(c).value) == Ok(c)
  {
    var tb := Time.ToBytes(c.time).value;
    var vb := BytesSpec(c.value).value;
    var sb: seq<byte> := [if c.sync then 1 else 0];
    var b := tb + sb + vb;
    assert b == tb + (sb + vb);
    Time.BytesRoundTrip(c.time, sb + vb);
    BytesRoundTrip(c.value);
    assert b[10..] == vb;
    assert b[9] == sb[0];
  }
}
