// Logical simulation time (class `Tme` of the choc library): an integer that
// is either a number of picoseconds (`period`) or a number of clock cycles
// (`cycle`), with domain-checked arithmetic, a text form such as "1u500n" or
// "12c", and a 9-byte wire form.
module Time {
  import opened Wrappers
  import opened Arith
  import opened BigEndian
  import opened Decimal

  /** Picoseconds per second. */
  const E12: nat := 1000000000000

  datatype TmeType = Period | Cycle

  /** `TmeType.toBytes`: the enum value in one byte (0 = period, 1 = cycle). */
  function TypeToBytes(t: TmeType): (r: seq<byte>)
    ensures |r| == 1 && TypeFromBytes(r) == Ok(t)
  {
    [if t.Period? then 0 else 1]
  }

  /** `TmeType.fromBytes`: looks at `byt[0:1]`; an empty slice reads as 0, i.e. period. */
  function TypeFromBytes(b: seq<byte>): Result<TmeType>
  {
    var v := if |b| == 0 then 0 else b[0];
    if v == 0 then Ok(Period)
    else if v == 1 then Ok(Cycle)
    else Err("ValueError: not a valid TmeType")
  }

  /**
   * A time keeps its two optional attributes as the source does. Both are
   * None only for the time built from the empty string.
   */
  datatype Tme = Tme(period: Option<int>, cycle: Option<int>)
  {
    /** The constructor's closing assertion: never both domains at once. */
    predicate Valid()
    {
      period.None? || cycle.None?
    }

    /** `typ()`; the raising case (both set) is excluded by `Valid()`. */
    function Typ(): TmeType
      requires Valid()
    {
      if cycle.None? then Period else Cycle
    }

    /** `toInt()`. */
    function ToInt(): Option<int>
    {
      if period.Some? then period else cycle
    }
  }

  /** `Tme(v, typ=t)`. */
  function OfInt(v: int, t: TmeType): (r: Tme)
    ensures r.Valid() && r.Typ() == t && r.ToInt() == Some(v)
  {
    if t.Period? then Tme(Some(v), None) else Tme(None, Some(v))
  }

  lemma OfIntOfSelf(t: Tme)
    requires t.Valid() && t.ToInt().Some?
    ensures OfInt(t.ToInt().value, t.Typ()) == t
  {
    if t.period.Some? {
      assert t.cycle.None?;
    }
  }

  /** The positional `value` argument of the constructor. */
  datatype TmeArg = NoValue | StrValue(s: string) | TmeValue(t: Tme) | IntValue(i: int)

  /** `Tme.__init__(value, period, cycle, typ)`, including its closing assertion. */
  function New(value: TmeArg, period: Option<int>, cycle: Option<int>, typ: Option<TmeType>): (r: Result<Tme>)
    ensures r.Ok? ==> r.value.Valid()
    ensures value.IntValue? && period.None? && cycle.None? && typ.Some? ==> r == Ok(OfInt(value.i, typ.value))
    ensures value.NoValue? ==> (r.Ok? <==> period.Some? || cycle.Some?)
  {
    var fields: Result<Tme> :=
      if !value.NoValue? then
        if period.Some? || cycle.Some? then Err("cannot create Tme from value and period/cycle")
        else match value
          case StrValue(s) =>
            if typ.Some? then Err("cannot create Tme from string and TmeType")
            else
              (match ParseSpec(s)
               case Err(e) => Err(e)
               case Ok((t, v)) => Ok(Tme(if t.Period? then v else None, if t.Cycle? then v else None)))
          case TmeValue(t) =>
            if typ.Some? then Err("cannot create Tme from Tme and TmeType") else Ok(Tme(t.period, t.cycle))
          case IntValue(i) =>
            if typ.None? then Err("cannot create Tme from int without TmeType") else Ok(OfInt(i, typ.value))
      else if period.Some? then Ok(Tme(period, None))
      else if cycle.Some? then Ok(Tme(None, cycle))
      else Err("unable to create Tme from constructor params");
    if fields.Ok? && !fields.value.Valid() then Err("Tme cannot have both period and cycle") else fields
  }

  /** The closing assertion of the constructor never fires when the time copied from is itself valid. */
  lemma NewNeverBreaksInvariant(value: TmeArg, period: Option<int>, cycle: Option<int>, typ: Option<TmeType>)
    requires value.TmeValue? ==> value.t.Valid()
    ensures New(value, period, cycle, typ) != Err("Tme cannot have both period and cycle")
  {
  }

  // ---------------------------------------------------------------------
  // Comparison

  /** `comp`: -1, 0 or 1; raises across domains and (TypeError) on a value-less time. */
  function Comp(a: Tme, b: Tme): Result<int>
  {
    if a.period.None? != b.period.None? then Err("cannot compare period to cycles")
    else if a.ToInt().None? || b.ToInt().None? then Err("TypeError: comparison with None")
    else
      var x, y := a.ToInt().value, b.ToInt().value;
      Ok(if x < y then -1 else if x > y then 1 else 0)
  }

  function Lt(a: Tme, b: Tme): Result<bool>
  {
    match Comp(a, b)
    case Ok(c) => Ok(c < 0)
    case Err(e) => Err(e)
  }

  function Le(a: Tme, b: Tme): Result<bool>
  {
    match Comp(a, b)
    case Ok(c) => Ok(c <= 0)
    case Err(e) => Err(e)
  }

  function Gt(a: Tme, b: Tme): Result<bool>
  {
    match Comp(a, b)
    case Ok(c) => Ok(c > 0)
    case Err(e) => Err(e)
  }

  function Ge(a: Tme, b: Tme): Result<bool>
  {
    match Comp(a, b)
    case Ok(c) => Ok(c >= 0)
    case Err(e) => Err(e)
  }

  /** Comparison succeeds exactly for two valued times of the same domain. */
  lemma CompDomain(a: Tme, b: Tme)
    requires a.Valid() && b.Valid() && a.ToInt().Some? && b.ToInt().Some?
    ensures Comp(a, b).Ok? <==> a.Typ() == b.Typ()
  {
  }

  /** Within one domain, comparison is a total order on the values: antisymmetric, and 0 only for equal times. */
  lemma CompTotalOrder(a: Tme, b: Tme)
    requires a.Valid() && b.Valid() && Comp(a, b).Ok?
    ensures Comp(b, a) == Ok(-Comp(a, b).value)
    ensures Comp(a, b).value == 0 <==> a == b
    ensures Comp(a, b).value < 0 <==> a.ToInt().value < b.ToInt().value
  {
  }

  lemma LeTransitive(a: Tme, b: Tme, c: Tme)
    requires Le(a, b) == Ok(true) && Le(b, c) == Ok(true)
    ensures Le(a, c) == Ok(true)
  {
  }

  // ---------------------------------------------------------------------
  // Arithmetic

  datatype Operand = TmeOp(t: Tme) | IntOp(i: int)

  /** `_addsub`: the other time must have the same domain; the result keeps `a`'s domain. */
  function AddSub(a: Tme, other: Operand, sub: bool): Result<Tme>
    requires a.Valid() && (other.TmeOp? ==> other.t.Valid())
  {
    if other.TmeOp? && a.Typ() != other.t.Typ() then
      Err("Tme difference is only possible with the same typ")
    else
      var b := if other.TmeOp? then other.t.ToInt() else Some(other.i);
      if a.ToInt().None? || b.None? then Err("TypeError: unsupported operand NoneType")
      else Ok(OfInt(if sub then a.ToInt().value - b.value else a.ToInt().value + b.value, a.Typ()))
  }

  function Add(a: Tme, other: Operand): Result<Tme>
    requires a.Valid() && (other.TmeOp? ==> other.t.Valid())
  {
    AddSub(a, other, false)
  }

  function Sub(a: Tme, other: Operand): Result<Tme>
    requires a.Valid() && (other.TmeOp? ==> other.t.Valid())
  {
    AddSub(a, other, true)
  }

  /** Adding or subtracting raises exactly across domains or on a missing value; otherwise the domain is kept. */
  lemma AddSubDomain(a: Tme, other: Operand, sub: bool)
    requires a.Valid() && (other.TmeOp? ==> other.t.Valid())
    ensures other.TmeOp? && a.Typ() != other.t.Typ() ==> AddSub(a, other, sub).Err?
    ensures AddSub(a, other, sub).Ok? ==>
      AddSub(a, other, sub).value.Valid() && AddSub(a, other, sub).value.Typ() == a.Typ()
    ensures a.ToInt().Some? && (other.IntOp? || (other.t.Typ() == a.Typ() && other.t.ToInt().Some?)) ==>
      AddSub(a, other, sub).Ok?
  {
  }

  /** `(a + b) - b == a`. */
  lemma AddThenSub(a: Tme, b: Operand)
    requires a.Valid() && (b.TmeOp? ==> b.t.Valid())
    requires Add(a, b).Ok?
    ensures Sub(Add(a, b).value, b) == Ok(a)
  {
  }

  /** `int(self.toInt() * k)`, keeping the domain. */
  function MulInt(a: Tme, k: int): (r: Result<Tme>)
    requires a.Valid()
    ensures r.Ok? <==> a.ToInt().Some?
    ensures r.Ok? ==> r.value.Valid() && r.value.Typ() == a.Typ() && r.value.ToInt() == Some(a.ToInt().value * k)
  {
    if a.ToInt().None? then Err("TypeError: unsupported operand NoneType") else Ok(OfInt(a.ToInt().value * k, a.Typ()))
  }

  /**
   * `a * b` for two times, as written: after the domain assertion it calls
   * `int(self)`, and `Tme` defines no integer conversion, so it always raises.
   */
  function MulTme(a: Tme, b: Tme): Result<Tme>
    requires a.Valid() && b.Valid()
  {
    if a.Typ() == b.Typ() then Err("can only multiply time with different types")
    else Err("TypeError: int() argument must be a string, a bytes-like object or a real number, not 'Tme'")
  }

  lemma MulTmeAlwaysRaises(a: Tme, b: Tme)
    requires a.Valid() && b.Valid()
    ensures MulTme(a, b).Err?
  {
  }

  /** The evidently intended product of a period and a cycle count: a period. */
  function MulTmeIntended(a: Tme, b: Tme): (r: Result<Tme>)
    requires a.Valid() && b.Valid()
    ensures r.Ok? <==> a.Typ() != b.Typ() && a.ToInt().Some? && b.ToInt().Some?
    ensures r.Ok? ==> r.value.Valid() && r.value.Typ() == Period && r.value.ToInt() == Some(a.ToInt().value * b.ToInt().value)
  {
    if a.Typ() == b.Typ() then Err("can only multiply time with different types")
    else if a.ToInt().None? || b.ToInt().None? then Err("TypeError: unsupported operand NoneType")
    else Ok(OfInt(a.ToInt().value * b.ToInt().value, Period))
  }

  /** Python's `x // y`, which rounds toward negative infinity for either sign of y. */
  function FloorDiv(x: int, y: int): int
    requires y != 0
  {
    if y > 0 then x / y else (-x) / (-y)
  }

  lemma FloorDivBounds(x: int, y: int)
    requires y != 0
    ensures y > 0 ==> FloorDiv(x, y) * y <= x < FloorDiv(x, y) * y + y
    ensures y < 0 ==> FloorDiv(x, y) * y >= x > FloorDiv(x, y) * y + y
  {
    if y > 0 {
      assert x == y * (x / y) + x % y;
    } else {
      assert -x == (-y) * ((-x) / (-y)) + (-x) % (-y);
    }
  }

  /** `a / k` for an int k: floor division of the value, keeping the domain. */
  function DivInt(a: Tme, k: int): (r: Result<Tme>)
    requires a.Valid()
    ensures r.Ok? <==> a.ToInt().Some? && k != 0
    ensures r.Ok? ==> r.value.Valid() && r.value.Typ() == a.Typ() && r.value.ToInt().Some?
    ensures r.Ok? && k > 0 ==>
      r.value.ToInt().value * k <= a.ToInt().value < r.value.ToInt().value * k + k
  {
    if a.ToInt().None? then Err("TypeError: unsupported operand NoneType")
    else if k == 0 then Err("ZeroDivisionError: integer division by zero")
    else
      FloorDivBounds(a.ToInt().value, k);
      Ok(OfInt(FloorDiv(a.ToInt().value, k), a.Typ()))
  }

  /** `a / b` for two periods: the floor quotient, as a cycle count. */
  function DivTme(a: Tme, b: Tme): (r: Result<Tme>)
    requires a.Valid() && b.Valid()
    ensures r.Ok? <==> a.Typ() == Period && b.Typ() == Period && a.ToInt().Some? && b.ToInt().Some? && b.ToInt().value != 0
    ensures r.Ok? ==> r.value.Valid() && r.value.Typ() == Cycle && r.value.ToInt().Some?
    ensures r.Ok? && b.ToInt().value > 0 ==>
      r.value.ToInt().value * b.ToInt().value <= a.ToInt().value < r.value.ToInt().value * b.ToInt().value + b.ToInt().value
  {
    if !(a.Typ() == Period && b.Typ() == Period) then Err("can only divide Tmes of type period")
    else if a.ToInt().None? || b.ToInt().None? then Err("TypeError: unsupported operand NoneType")
    else if b.ToInt().value == 0 then Err("ZeroDivisionError: integer division by zero")
    else
      FloorDivBounds(a.ToInt().value, b.ToInt().value);
      Ok(OfInt(FloorDiv(a.ToInt().value, b.ToInt().value), Cycle))
  }

  /** `Tme.fromFreq(freq)`: the period E12 // freq. */
  function FromFreq(freq: int): (r: Result<Tme>)
    ensures r.Ok? <==> freq != 0
    ensures r.Ok? ==> r.value.Valid() && r.value.Typ() == Period
    ensures r.Ok? && freq > 0 ==> r.value.ToInt() == Some(E12 / freq)
  {
    if freq == 0 then Err("ZeroDivisionError: integer division by zero") else Ok(Tme(Some(FloorDiv(E12, freq)), None))
  }

  datatype ZeroRef = NoRef | TypeRef(typ: TmeType) | TmeRef(t: Tme)

  /** `Tme.zero(ref)`: zero in the domain of `ref`, period by default. */
  function Zero(ref: ZeroRef): (r: Tme)
    requires ref.TmeRef? ==> ref.t.Valid()
    ensures r.Valid() && r.ToInt() == Some(0)
    ensures r.Typ() == match ref { case NoRef => Period case TypeRef(t) => t case TmeRef(t) => t.Typ() }
  {
    match ref
    case NoRef => OfInt(0, Period)
    case TypeRef(t) => OfInt(0, t)
    case TmeRef(t) => OfInt(0, t.Typ())
  }

  // ---------------------------------------------------------------------
  // Wire form: 8-byte big-endian value, then the domain byte.

  /** `toBytes`; raises for a missing value or one outside 0 .. 2^64-1. */
  function ToBytes(t: Tme): (r: Result<seq<byte>>)
    requires t.Valid()
    ensures r.Ok? <==> t.ToInt().Some? && 0 <= t.ToInt().value < Pow(256, 8)
    ensures r.Ok? ==> |r.value| == 9 && r.value[8] == (if t.Typ().Period? then 0 else 1)
  {
    match t.ToInt()
    case None => Err("AttributeError: 'NoneType' object has no attribute 'to_bytes'")
    case Some(v) =>
      match BigEndian.ToBytes(v, 8)
      case Err(e) => Err(e)
      case Ok(b) => Ok(b + TypeToBytes(t.Typ()))
  }

  /** `fromBytes`: reads `byt[0:8]` and the domain from `byt[8:]`, short input included. */
  function FromBytes(b: seq<byte>): Result<Tme>
  {
    var n := if |b| < 8 then |b| else 8;
    match TypeFromBytes(b[n..])
    case Err(e) => Err(e)
    case Ok(typ) => Ok(OfInt(Decode(b[..n]), typ))
  }

  /** `fromBytes(toBytes(t) + rest) == t`: only the first nine bytes are read. */
  lemma BytesRoundTrip(t: Tme, rest: seq<byte>)
    requires t.Valid() && t.ToInt().Some? && 0 <= t.ToInt().value < Pow(256, 8)
    ensures ToBytes(t).Ok? && FromBytes(ToBytes(t).value + rest) == Ok(t)
  {
    var b := ToBytes(t).value + rest;
    assert b[..8] == Encode(t.ToInt().value, 8);
    assert b[8..][0] == TypeToBytes(t.Typ())[0];
  }

  /** The byte layout of `123c`: the count big-endian, then domain byte 1. */
  lemma CycleBytesExample(t: Tme)
    requires t == Tme(None, Some(123))
    ensures ToBytes(t) == Ok([0, 0, 0, 0, 0, 0, 0, 0x7B, 1])
  {
    PowersOf256();
    var c: seq<byte> := [0, 0, 0, 0, 0, 0, 0, 0x7B];
    EncodeDecode(c);
    assert Decode(c) == 123 by {
      assert c == [0, 0, 0, 0, 0, 0, 0] + [0x7B];
      DecodeLeadingZeros([0, 0, 0, 0, 0, 0, 0], [0x7B]);
      assert Decode([0x7B]) == 0x7B by { assert [0x7B][..0] == []; }
    }
    assert BigEndian.ToBytes(123, 8) == Ok(c);
    assert ToBytes(t) == Ok(c + [1]);
    assert c + [1] == [0, 0, 0, 0, 0, 0, 0, 0x7B, 1];
  }

  /** The byte layout of `123n` (123000 ps): the count big-endian, then domain byte 0. */
  lemma PeriodBytesExample(t: Tme)
    requires t == Tme(Some(123000), None)
    ensures ToBytes(t) == Ok([0, 0, 0, 0, 0, 1, 0xe0, 0x78, 0])
  {
    PowersOf256();
    var p: seq<byte> := [0, 0, 0, 0, 0, 1, 0xe0, 0x78];
    EncodeDecode(p);
    assert Decode(p) == 123000 by {
      var q: seq<byte> := [1, 0xe0, 0x78];
      assert p == [0, 0, 0, 0, 0] + q;
      DecodeLeadingZeros([0, 0, 0, 0, 0], q);
      assert q[..2] == [1, 0xe0] && q[..2][..1] == [1] && [1][..0] == [];
    }
    assert BigEndian.ToBytes(123000, 8) == Ok(p);
    assert ToBytes(t) == Ok(p + [0]);
    assert p + [0] == [0, 0, 0, 0, 0, 1, 0xe0, 0x78, 0];
  }

  // ---------------------------------------------------------------------
  // Text form: the pattern ^(\d+s)?(\d+m)?(\d+u)?(\d+n)?(\d+p)?(^\d+c)?$

  const UNITS: string := "smunp"

  /** The weight of unit k (s, m, u, n, p) in picoseconds; 0 past the last unit. */
  function MaskAt(k: nat): (m: nat)
    ensures k < 5 ==> m > 0
  {
    if k == 0 then 1000000000000
    else if k == 1 then 1000000000
    else if k == 2 then 1000000
    else if k == 3 then 1000
    else if k == 4 then 1
    else 0
  }

  /** Length of the longest prefix of ASCII digits. */
  function DigitRun(s: string): (d: nat)
    ensures d <= |s| && AllDigits(s[..d]) && (d < |s| ==> !IsDigit(s[d]))
  {
    if s == [] || !IsDigit(s[0]) then 0
    else
      var d' := DigitRun(s[1..]);
      assert s[..1 + d'] == [s[0]] + s[1..][..d'];
      1 + d'
  }

  /**
   * `int(g[:-1])` of a matched group: its digits without the unit character.
   * Groups of the pattern are always digits and one more character; anything
   * else reads as 0.
   */
  function GroupValue(g: string): nat
  {
    if |g| >= 1 && AllDigits(g[..|g| - 1]) then DigitsValue(g[..|g| - 1]) else 0
  }

  /**
   * Groups k..4 of the pattern followed by the end anchor (end of text or a
   * final newline). Taking a group whenever it can match is exact: when the
   * digits are followed by unit k, no later group and no end can match there.
   */
  function MatchFrom(s: string, k: nat): (r: Option<seq<Option<string>>>)
    requires k <= 5
    ensures r.Some? ==> |r.value| == 5 - k
    decreases 5 - k
  {
    if k == 5 then (if s == "" || s == "\n" then Some([]) else None)
    else
      var d := DigitRun(s);
      if 0 < d < |s| && s[d] == UNITS[k] then
        match MatchFrom(s[d + 1..], k + 1)
        case Some(g) => Some([Some(s[..d + 1])] + g)
        case None => None
      else
        match MatchFrom(s, k + 1)
        case Some(g) => Some([None] + g)
        case None => None
  }

  /** The six groups of the pattern, or None when it does not match. */
  function Match(s: string): (r: Option<seq<Option<string>>>)
    ensures r.Some? ==> |r.value| == 6
  {
    match MatchFrom(s, 0)
    case Some(g) => Some(g + [None])
    case None =>
      var d := DigitRun(s);
      if 0 < d < |s| && s[d] == 'c' && (s[d + 1..] == "" || s[d + 1..] == "\n") then
        Some([None, None, None, None, None, Some(s[..d + 1])])
      else None
  }

  /** The value the parsing loop has accumulated after groups k.. have been added to `acc`. */
  function AccFrom(acc: Option<int>, gs: seq<Option<string>>, k: nat): Option<int>
    decreases |gs|
  {
    if gs == [] then acc
    else
      var acc' := if gs[0].Some? then Some(acc.GetOr(0) + GroupValue(gs[0].value) * MaskAt(k)) else acc;
      AccFrom(acc', gs[1..], k + 1)
  }

  /** `parseStr`: a cycle count "<n>c", or the sum of the unit groups (None when there are none). */
  function ParseSpec(s: string): Result<(TmeType, Option<int>)>
  {
    match Match(s)
    case None => Err("cannot parse time string")
    case Some(gs) =>
      if gs[5].Some? then Ok((Cycle, Some(GroupValue(gs[5].value))))
      else Ok((Period, AccFrom(None, gs[..5], 0)))
  }

  method ParseStr(msg: string) returns (r: Result<(TmeType, Option<int>)>)
    ensures r == ParseSpec(msg)
  {
    var m := Match(msg);
    if m.None? {
      return Err("cannot parse time string");
    }
    var groups := m.value;
    var v := groups[5];
    if v.Some? {
      return Ok((Cycle, Some(GroupValue(v.value))));
    }
    var value := SumGroups(groups[..5]);
    return Ok((Period, value));
  }

  /** The accumulation loop of `parseStr` over the five unit groups. */
  method SumGroups(groups: seq<Option<string>>) returns (value: Option<int>)
    requires |groups| == 5
    ensures value == AccFrom(None, groups, 0)
  {
    var mask := E12;
    value := None;
    var i := 0;
    while i < 5
      invariant 0 <= i <= 5 && mask == MaskAt(i)
      invariant AccFrom(value, groups[i..], i) == AccFrom(None, groups, 0)
    {
      var g := groups[i];
      assert groups[i..] == [g] + groups[i + 1..];
      AccFromCons(value, g, groups[i + 1..], i);
      MaskStep(i);
      if g.Some? {
        if value.None? {
          value := Some(0);
        }
        value := Some(value.value + GroupValue(g.value) * mask);
      }
      mask := mask / 1000;
      i := i + 1;
    }
    assert groups[5..] == [];
  }

  /** Units k.. of a nonnegative picosecond count; `active` once a unit has been printed. */
  function Units(pico: nat, k: nat, active: bool): string
    decreases 5 - k
  {
    if k >= 5 then ""
    else
      var val := pico / MaskAt(k);
      (if active then ZeroPad3(val) + [UNITS[k]]
       else if val != 0 then NatToStr(val) + [UNITS[k]]
       else "")
      + Units(pico % MaskAt(k), k + 1, active || val != 0)
  }

  /** `__str__`: "<n>c" for cycles; for periods an optional sign and the units. */
  function FormatSpec(t: Tme): Result<string>
  {
    if t.cycle.Some? then Ok(IntToStr(t.cycle.value) + "c")
    else if t.period.None? then Err("TypeError: '<' not supported between NoneType and int")
    else
      var p := t.period.value;
      Ok((if p < 0 then "-" else "") + Units(if p < 0 then -p else p, 0, false))
  }

  /** The unit loop of `__str__` on a nonnegative picosecond count. */
  method FormatUnits(p: nat) returns (msg: string)
    ensures msg == Units(p, 0, false)
  {
    var active := false;
    var pico := p;
    msg := "";
    var mask := E12;
    var i := 0;
    while i < 5
      invariant 0 <= i <= 5 && mask == MaskAt(i)
      invariant msg + Units(pico, i, active) == Units(p, 0, false)
    {
      DivNat(pico, mask);
      var val: nat := pico / mask;
      UnitsUnfold(pico, i, active);
      MaskStep(i);
      var piece := "";
      if active {
        piece := ZeroPad3(val) + [UNITS[i]];
      } else if val != 0 {
        piece := NatToStr(val) + [UNITS[i]];
      }
      ghost var rest := Units(pico % mask, i + 1, active || val != 0);
      assert Units(pico, i, active) == piece + rest;
      ConcatAssoc(msg, piece, rest);
      msg := msg + piece;
      active := active || val != 0;
      pico := pico % mask;
      mask := mask / 1000;
      i := i + 1;
    }
    assert msg + Units(pico, 5, active) == msg;
  }

  method Str(t: Tme) returns (r: Result<string>)
    ensures r == FormatSpec(t)
  {
    if t.cycle.Some? {
      return Ok(IntToStr(t.cycle.value) + "c");
    }
    if t.period.None? {
      return Err("TypeError: '<' not supported between NoneType and int");
    }
    var sign := if t.period.value < 0 then "-" else "";
    var units := FormatUnits(if t.period.value < 0 then -t.period.value else t.period.value);
    return Ok(sign + units);
  }

  lemma {:induction false} DigitRunAfterDigits(d: string, c: char, t: string)
    requires AllDigits(d) && !IsDigit(c)
    ensures DigitRun(d + [c] + t) == |d|
    decreases |d|
  {
    if d != [] {
      assert (d + [c] + t)[1..] == d[1..] + [c] + t;
      DigitRunAfterDigits(d[1..], c, t);
    }
  }

  lemma UnitsDistinct(k: nat)
    requires k < 5
    ensures UNITS[k] !in UNITS[k + 1..] && !IsDigit(UNITS[k]) && UNITS[k] != 'c'
    ensures UNITS[k..] == [UNITS[k]] + UNITS[k + 1..]
  {
    if k == 0 {
      assert UNITS[1..] == "munp";
    } else if k == 1 {
      assert UNITS[2..] == "unp";
    } else if k == 2 {
      assert UNITS[3..] == "np";
    } else if k == 3 {
      assert UNITS[4..] == "p";
    }
  }

  /** One step of the accumulation. */
  lemma AccFromCons(acc: Option<int>, x: Option<string>, g: seq<Option<string>>, k: nat)
    ensures AccFrom(acc, [x] + g, k) ==
      AccFrom(if x.Some? then Some(acc.GetOr(0) + GroupValue(x.value) * MaskAt(k)) else acc, g, k + 1)
  {
    assert ([x] + g)[0] == x;
    assert ([x] + g)[1..] == g;
  }

  /** Adding a taken group of value `val` at position k. */
  lemma AccTake(acc: Option<int>, d: string, u: char, g: seq<Option<string>>, k: nat, val: nat)
    requires |d| > 0 && AllDigits(d) && DigitsValue(d) == val
    ensures AccFrom(acc, [Some(d + [u])] + g, k) == AccFrom(Some(acc.GetOr(0) + val * MaskAt(k)), g, k + 1)
  {
    assert (d + [u])[..|d|] == d;
    AccFromCons(acc, Some(d + [u]), g, k);
  }

  /** Digits followed by unit k are taken as group k. */
  lemma MatchFromTake(d: string, k: nat, t: string)
    requires k < 5 && |d| > 0 && AllDigits(d)
    ensures MatchFrom(d + [UNITS[k]] + t, k) ==
      match MatchFrom(t, k + 1)
      case Some(g) => Some([Some(d + [UNITS[k]])] + g)
      case None => None
  {
    var s := d + [UNITS[k]] + t;
    UnitsDistinct(k);
    DigitRunAfterDigits(d, UNITS[k], t);
    assert s[..|d| + 1] == d + [UNITS[k]];
    assert s[|d| + 1..] == t;
  }

  /** Text that is empty or whose first unit comes later is skipped by group k. */
  lemma MatchFromSkip(s: string, k: nat)
    requires k < 5
    requires s == "" || (DigitRun(s) < |s| && s[DigitRun(s)] in UNITS[k + 1..])
    ensures MatchFrom(s, k) ==
      match MatchFrom(s, k + 1)
      case Some(g) => Some([None] + g)
      case None => None
  {
    UnitsDistinct(k);
  }

  lemma MaskStep(k: nat)
    requires k < 5
    ensures MaskAt(k) / 1000 == MaskAt(k + 1)
  {
  }

  lemma UnitsUnfold(pico: nat, k: nat, active: bool)
    requires k < 5
    ensures Units(pico, k, active) ==
      (if active then ZeroPad3(pico / MaskAt(k)) + [UNITS[k]]
       else if pico / MaskAt(k) != 0 then NatToStr(pico / MaskAt(k)) + [UNITS[k]]
       else "")
      + Units(pico % MaskAt(k), k + 1, active || pico / MaskAt(k) != 0)
  {
  }

  /** Printed units are empty or their first non-digit is a unit at position k or later. */
  lemma {:induction false} UnitsFirstUnit(pico: nat, k: nat, active: bool)
    requires k <= 5
    ensures var s := Units(pico, k, active);
      s == "" || (DigitRun(s) < |s| && s[DigitRun(s)] in UNITS[k..])
    decreases 5 - k
  {
    if k < 5 {
      var s := Units(pico, k, active);
      var m := MaskAt(k);
      var val, rest := pico / m, pico % m;
      var u := UNITS[k];
      UnitsDistinct(k);
      UnitsUnfold(pico, k, active);
      if active || val != 0 {
        var d := if active then ZeroPad3(val) else NatToStr(val);
        var t := Units(rest, k + 1, true);
        assert s == d + [u] + t;
        DigitRunAfterDigits(d, u, t);
        assert s[|d|] == u;
      } else {
        UnitsFirstUnit(pico % m, k + 1, false);
        assert s == Units(rest, k + 1, false);
      }
    }
  }

  /**
   * Parsing the units printed from `pico` (below the weight of unit k-1)
   * adds exactly `pico` to what has been accumulated.
   */
  lemma {:induction false} UnitsParse(pico: nat, k: nat, active: bool, acc: Option<int>)
    requires k <= 5
    requires k > 0 ==> pico < MaskAt(k - 1)
    requires active <==> acc.Some?
    ensures MatchFrom(Units(pico, k, active), k).Some?
    ensures AccFrom(acc, MatchFrom(Units(pico, k, active), k).value, k)
         == if active || pico > 0 then Some(acc.GetOr(0) + pico) else acc
    decreases 5 - k, 1
  {
    if k == 5 {
      assert Units(pico, k, active) == "";
      assert MatchFrom("", k) == Some([]);
    } else {
      DivIsZero(pico, MaskAt(k));
      if active || pico / MaskAt(k) != 0 {
        UnitsParseTake(pico, k, active, acc);
      } else {
        UnitsParseSkip(pico, k, active, acc);
      }
    }
  }

  /** Unit k is printed: its digits form group k and the rest parses from k + 1. */
  lemma {:induction false} UnitsParseTake(pico: nat, k: nat, active: bool, acc: Option<int>)
    requires k < 5
    requires k > 0 ==> pico < MaskAt(k - 1)
    requires active <==> acc.Some?
    requires active || pico / MaskAt(k) != 0
    ensures MatchFrom(Units(pico, k, active), k).Some?
    ensures AccFrom(acc, MatchFrom(Units(pico, k, active), k).value, k) == Some(acc.GetOr(0) + pico)
    decreases 5 - k, 0
  {
    var d, val, rest := UnitsTakeShape(pico, k, active);
    var t := Units(rest, k + 1, active || val != 0);
    var mid := Some(acc.GetOr(0) + val * MaskAt(k));
    UnitsParse(rest, k + 1, active || val != 0, mid);
    TakeStep(acc, mid, d, k, t, val, rest, pico);
  }

  /** When unit k is printed, the text is its digits, the unit, and the units of the remainder. */
  lemma UnitsTakeShape(pico: nat, k: nat, active: bool) returns (d: string, val: nat, rest: nat)
    requires k < 5 && (active || pico / MaskAt(k) != 0)
    ensures pico == val * MaskAt(k) + rest && rest < MaskAt(k) && (val != 0 || active)
    ensures |d| > 0 && AllDigits(d) && DigitsValue(d) == val
    ensures Units(pico, k, active) == d + [UNITS[k]] + Units(rest, k + 1, active || val != 0)
  {
    var m := MaskAt(k);
    DivNat(pico, m);
    val, rest := pico / m, pico % m;
    UnitsUnfold(pico, k, active);
    d := if active then ZeroPad3(val) else NatToStr(val);
    assert DigitsValue(d) == val by {
      if active { ZeroPad3Value(val); } else { NatToStrValue(val); }
    }
  }

  /** Group k taken from `d` and its unit, followed by text that parses from k + 1. */
  lemma TakeStep(acc: Option<int>, mid: Option<int>, d: string, k: nat, t: string, val: nat, rest: nat, pico: nat)
    requires k < 5 && |d| > 0 && AllDigits(d) && DigitsValue(d) == val && pico == val * MaskAt(k) + rest
    requires mid == Some(acc.GetOr(0) + val * MaskAt(k))
    requires MatchFrom(t, k + 1).Some?
    requires AccFrom(mid, MatchFrom(t, k + 1).value, k + 1) == Some(mid.GetOr(0) + rest)
    ensures MatchFrom(d + [UNITS[k]] + t, k).Some?
    ensures AccFrom(acc, MatchFrom(d + [UNITS[k]] + t, k).value, k) == Some(acc.GetOr(0) + pico)
  {
    MatchFromTake(d, k, t);
    var g := MatchFrom(t, k + 1).value;
    AccTake(acc, d, UNITS[k], g, k, val);
  }

  /** Unit k is not printed: group k is skipped and the text parses from k + 1. */
  lemma {:induction false} UnitsParseSkip(pico: nat, k: nat, active: bool, acc: Option<int>)
    requires k < 5
    requires !active && acc.None? && pico < MaskAt(k)
    ensures MatchFrom(Units(pico, k, active), k).Some?
    ensures AccFrom(acc, MatchFrom(Units(pico, k, active), k).value, k)
         == if active || pico > 0 then Some(acc.GetOr(0) + pico) else acc
    decreases 5 - k, 0
  {
    UnitsSkip(pico, k, active);
    var s := Units(pico, k + 1, active);
    UnitsParse(pico, k + 1, active, acc);
    UnitsFirstUnit(pico, k + 1, active);
    MatchFromSkip(s, k);
    var g := MatchFrom(s, k + 1).value;
    AccFromCons(acc, None, g, k);
  }

  /** A count below the weight of unit k prints nothing for it. */
  lemma UnitsSkip(pico: nat, k: nat, active: bool)
    requires k < 5 && !active && pico < MaskAt(k)
    ensures Units(pico, k, active) == Units(pico, k + 1, active)
  {
    DivModUnique(pico, MaskAt(k), 0, pico);
    UnitsUnfold(pico, k, active);
  }

  lemma {:induction false} CycleTextSkipsUnits(d: string, rest: string, k: nat)
    requires k <= 5 && |d| > 0 && AllDigits(d) && (rest == "" || rest == "\n")
    ensures MatchFrom(d + "c" + rest, k) == None
    decreases 5 - k
  {
    if k < 5 {
      DigitRunAfterDigits(d, 'c', rest);
      CycleTextSkipsUnits(d, rest, k + 1);
    }
  }

  /** Printing a positive period and parsing the text gives the period back. */
  lemma PeriodTextRoundTrip(t: Tme)
    requires t.period.Some? && t.period.value > 0 && t.cycle.None?
    ensures FormatSpec(t).Ok?
    ensures ParseSpec(FormatSpec(t).value) == Ok((Period, t.period))
    ensures New(StrValue(FormatSpec(t).value), None, None, None) == Ok(t)
  {
    var k, active := 0, false;
    var s := Units(t.period.value, k, active);
    assert FormatSpec(t) == Ok(s) by {
      assert "" + s == s;
    }
    PeriodTextParse(t.period.value, k, active);
    NewOfParsedText(s, Period, t.period);
  }

  /** The string constructor keeps what parsing the string gives. */
  lemma NewOfParsedText(s: string, typ: TmeType, v: Option<int>)
    requires ParseSpec(s) == Ok((typ, v))
    ensures New(StrValue(s), None, None, None) == Ok(if typ.Period? then Tme(v, None) else Tme(None, v))
  {
  }

  lemma PeriodTextParse(v: nat, k: nat, active: bool)
    requires v > 0 && k == 0 && !active
    ensures ParseSpec(Units(v, k, active)) == Ok((Period, Some(v)))
  {
    var acc: Option<int> := None;
    var s := Units(v, k, active);
    UnitsParse(v, k, active, acc);
    ParseOfUnitGroups(s, acc, v);
  }

  /** Text whose unit groups all match adds up to the value they accumulate. */
  lemma ParseOfUnitGroups(s: string, acc: Option<int>, v: int)
    requires acc.None? && MatchFrom(s, 0).Some? && AccFrom(acc, MatchFrom(s, 0).value, 0) == Some(acc.GetOr(0) + v)
    ensures ParseSpec(s) == Ok((Period, Some(v)))
  {
    var g := MatchFrom(s, 0).value;
    var gs := g + [None];
    assert Match(s) == Some(gs);
    assert gs[..5] == g && gs[5].None?;
  }

  /** Printing a nonnegative cycle count and parsing the text gives the count back. */
  lemma CycleTextRoundTrip(n: nat)
    ensures FormatSpec(Tme(None, Some(n))) == Ok(NatToStr(n) + "c")
    ensures ParseSpec(NatToStr(n) + "c") == Ok((Cycle, Some(n)))
    ensures New(StrValue(NatToStr(n) + "c"), None, None, None) == Ok(Tme(None, Some(n)))
  {
    var d := NatToStr(n);
    var s := d + "c";
    CycleTextSkipsUnits(d, "", 0);
    assert s == d + "c" + "";
    DigitRunAfterDigits(d, 'c', "");
    assert s[..|d| + 1][..|d|] == d;
    NatToStrValue(n);
  }

  lemma {:induction false} UnitsOfZero(k: nat)
    ensures Units(0, k, false) == ""
    decreases 5 - k
  {
    if k < 5 {
      UnitsOfZero(k + 1);
    }
  }

  lemma {:induction false} MatchFromEmpty(k: nat)
    requires k <= 5
    ensures MatchFrom("", k).Some? && forall i :: 0 <= i < |MatchFrom("", k).value| ==> MatchFrom("", k).value[i].None?
    decreases 5 - k
  {
    if k < 5 {
      MatchFromEmpty(k + 1);
      MatchFromSkip("", k);
    }
  }

  /** A zero period prints as the empty text ... */
  lemma ZeroPeriodText(t: Tme)
    requires t == Tme(Some(0), None)
    ensures FormatSpec(t) == Ok("")
  {
    UnitsOfZero(0);
  }

  /** ... and the empty text parses to a time with no value, so zero does not survive the round trip. */
  lemma EmptyTextHasNoValue(s: string)
    requires s == ""
    ensures ParseSpec(s) == Ok((Period, None))
    ensures New(StrValue(s), None, None, None) == Ok(Tme(None, None))
  {
    var k := 0;
    MatchFromEmpty(k);
    var g := MatchFrom(s, k).value;
    assert g == [None, None, None, None, None];
    assert AccFrom(None, g, k) == None;
    assert Match(s) == Some(g + [None]);
    assert (g + [None])[..5] == g;
  }
}
