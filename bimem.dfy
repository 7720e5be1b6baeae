/**
 * The memory model of `bimem`: memory requests and their write-enable
 * masks, the converter that packs a request into one bit vector, the
 * address converter, and the `Memory` item with its hex-dump loader.
 */
module Bimem {
  import opened Wrappers
  import opened Arith
  import opened Fn
  import opened Signal
  import Pipe

  /** A write-enable mask: `True`/`False`, or an integer of enabled bits. */
  datatype MaskArg = BoolMask(b: bool) | IntMask(m: int)

  /** `MemoryRequest(addr, write, data, mask)`. */
  datatype MemReq = MemReq(addr: int, write: bool, data: Option<int>, mask: MaskArg)

  /** A mask read as an integer; a Python `bool` is the integer 0 or 1. */
  function AsInt(m: MaskArg): int
  {
    match m
    case BoolMask(b) => if b then 1 else 0
    case IntMask(x) => x
  }

  const NOT_BYTE_MASK: string := "is not a byte mask"
  const TYPE_ERROR: string := "unsupported operand type(s): 'NoneType'"

  // ---------------------------------------------------------------------
  // getByteMask
  // ---------------------------------------------------------------------

  /** Byte `i` of a non-negative integer. */
  function ByteAt(m: nat, i: nat): nat
  {
    (m / Pow2(8 * i)) % 256
  }

  /**
   * The byte mask of `m`: one bit per byte, set for `0xff` and clear for
   * `0x00`; any other byte value is an error.
   */
  function ByteMaskOf(m: nat): Result<nat>
    decreases m
  {
    if m == 0 then
      Ok(0)
    else
      var low := m % 256;
      if low != 0 && low != 0xff then
        Err(NOT_BYTE_MASK)
      else
        Shift1(ByteMaskOf(m / 256), if low == 0xff then 1 else 0)
  }

  /** A byte mask with one more byte, of bit `b`, below it. */
  function Shift1(rest: Result<nat>, b: nat): Result<nat>
  {
    match rest
    case Err(e) => Err(e)
    case Ok(r) => Ok(2 * r + b)
  }

  /** A partial byte mask `low` of `pos` bytes, with the rest of the mask above it. */
  function Above(rest: Result<nat>, low: nat, pos: nat): Result<nat>
  {
    match rest
    case Err(e) => Err(e)
    case Ok(r) => Ok(low + Pow2(pos) * r)
  }

  lemma Pow2Of8()
    ensures Pow2(8) == 256
  {
  }

  /** One step of the loop below: byte `pos` of the mask moves into the byte mask. */
  lemma ByteMaskStep(bm: nat, low: nat, pos: nat)
    requires bm != 0 && (bm % 256 == 0 || bm % 256 == 0xff)
    ensures Above(ByteMaskOf(bm), low, pos) ==
      Above(ByteMaskOf(bm / 256), low + (if bm % 256 == 0xff then 1 else 0) * Pow2(pos), pos + 1)
  {
    var b := if bm % 256 == 0xff then 1 else 0;
    assert ByteMaskOf(bm) == Shift1(ByteMaskOf(bm / 256), b);
    AboveShift1(ByteMaskOf(bm / 256), low, pos, b);
  }

  lemma AboveShift1(rest: Result<nat>, low: nat, pos: nat, b: nat)
    ensures Above(Shift1(rest, b), low, pos) == Above(rest, low + b * Pow2(pos), pos + 1)
  {
    if rest.Ok? {
      var p := Pow2(pos);
      assert Pow2(pos + 1) == 2 * p;
      ShiftIn(low, p, rest.value, b);
    }
  }

  lemma ShiftIn(low: int, p: int, r: int, b: int)
    ensures low + p * (2 * r + b) == (low + b * p) + (2 * p) * r
  {
    MulDistrib(p, 2 * r, b);
    MulAssoc(p, 2, r);
  }

  /**
   * `bitMask >> 8` applied `k` times. Python's `>>` floors, which for a
   * divisor of 256 is Dafny's `/` on negative numbers too.
   */
  function ShiftBytes(m: int, k: nat): int
    decreases k
  {
    if k == 0 then m else ShiftBytes(m / 256, k - 1)
  }

  /**
   * The loop of `getByteMask` as written stops only when the mask reaches
   * zero; a negative mask never does, however many bytes are shifted out.
   */
  lemma {:induction false} NegativeMaskNeverZero(m: int, k: nat)
    requires m < 0
    ensures ShiftBytes(m, k) < 0
    decreases k
  {
    if k > 0 {
      NegativeMaskNeverZero(m / 256, k - 1);
    }
  }

  /**
   * For the mask -1 every pass sees the byte `0xff`, which raises nothing,
   * and the shift leaves -1: the loop as written runs forever.
   */
  lemma {:induction false} MinusOneMaskLoops(k: nat)
    ensures ShiftBytes(-1, k) == -1
    ensures BitAnd(ShiftBytes(-1, k), 0xff) == 0xff
    decreases k
  {
    if k > 0 {
      MinusOneMaskLoops(k - 1);
    }
    Pow2Of8();
    BitAndLowMask(ShiftBytes(-1, k), 8);
  }

  /**
   * `MemoryRequest.getByteMask`: eight mask bits at a time from the bottom,
   * setting bit `pos` for a byte of ones. A negative mask is refused as not
   * a byte mask, where the source loops forever.
   */
  method GetByteMask(req: MemReq) returns (r: Result<nat>)
    ensures AsInt(req.mask) < 0 ==> r == Err(NOT_BYTE_MASK)
    ensures AsInt(req.mask) >= 0 ==> r == ByteMaskOf(AsInt(req.mask))
  {
    if AsInt(req.mask) < 0 {
      return Err(NOT_BYTE_MASK);
    }
    var byteMask: nat := 0;
    var bitMask: nat := AsInt(req.mask);
    var pos: nat := 0;
    Pow2Of8();
    while bitMask != 0
      invariant byteMask < Pow2(pos)
      invariant ByteMaskOf(AsInt(req.mask)) == Above(ByteMaskOf(bitMask), byteMask, pos)
      decreases bitMask
    {
      var low := BitAnd(bitMask, 0xff);
      BitAndLowMask(bitMask, 8);
      if low != 0 && low != 0xff {
        return Err(NOT_BYTE_MASK);
      }
      ByteMaskStep(bitMask, byteMask, pos);
      if low == 0xff {
        ShiftedIsMultiple(1, pos);
        BitOrDisjoint(byteMask, Pow2(pos), pos);
        byteMask := BitOr(byteMask, Pow2(pos));
      }
      bitMask := bitMask / 256;
      pos := pos + 1;
    }
    r := Ok(byteMask);
  }

  lemma ByteAtNext(m: nat, i: nat)
    requires i > 0
    ensures ByteAt(m, i) == ByteAt(m / 256, i - 1)
  {
    Pow2Add(8, 8 * (i - 1));
    DivDiv(m, 256, Pow2(8 * (i - 1)));
  }

  /**
   * A byte mask exists iff every byte is `0x00` or `0xff`, and then bit `i`
   * of it is set iff byte `i` is `0xff`.
   */
  lemma {:induction false} ByteMaskBits(m: nat, i: nat)
    ensures ByteMaskOf(m).Ok? ==>
      (ByteAt(m, i) == 0 || ByteAt(m, i) == 0xff) &&
      Bit(ByteMaskOf(m).value, i) == (if ByteAt(m, i) == 0xff then 1 else 0)
    decreases m
  {
    if m == 0 {
      BitOfZero(i);
    } else if ByteMaskOf(m).Ok? {
      var r := ByteMaskOf(m / 256).value;
      if i == 0 {
      } else {
        ByteAtNext(m, i);
        ByteMaskBits(m / 256, i - 1);
        var b := if m % 256 == 0xff then 1 else 0;
        assert (2 * r + b) / 2 == r;
      }
    }
  }

  /** An error names a byte that is neither `0x00` nor `0xff`. */
  lemma {:induction false} ByteMaskError(m: nat) returns (i: nat)
    requires ByteMaskOf(m).Err?
    ensures ByteAt(m, i) != 0 && ByteAt(m, i) != 0xff
    decreases m
  {
    if m % 256 != 0 && m % 256 != 0xff {
      i := 0;
    } else {
      var j := ByteMaskError(m / 256);
      i := j + 1;
      ByteAtNext(m, i);
    }
  }

  // ---------------------------------------------------------------------
  // MemoryToBitsReq
  // ---------------------------------------------------------------------

  /** The widths of a `MemoryToBitsReq` converter; the mask width is optional. */
  datatype BitsConverter = BitsConverter(addrWidth: nat, dataWidth: nat, maskWidth: Option<nat>)

  /** The mask field: all ones for `True`, zero for `False`, else the mask itself. */
  function MaskField(req: MemReq, width: nat): int
  {
    match req.mask
    case BoolMask(b) => if b then Pow2(width) - 1 else 0
    case IntMask(x) => x
  }

  /** Where the data field starts. */
  function DataPos(cv: BitsConverter): nat
  {
    if cv.maskWidth.Some? then cv.maskWidth.value else 0
  }

  /** The mask field alone, at bit 0, or nothing without a mask width. */
  function MaskWord(cv: BitsConverter, req: MemReq): int
  {
    if cv.maskWidth.Some? then Added(0, 0, MaskField(req, cv.maskWidth.value), cv.maskWidth.value) else 0
  }

  /** The request packed from bit 0 up: mask, data, address, write bit. */
  function PackedWord(cv: BitsConverter, req: MemReq): int
    requires !req.write || req.data.Some?
  {
    var w0 := MaskWord(cv, req);
    var w1 := Added(w0, DataPos(cv), if req.write then req.data.value else 0, cv.dataWidth);
    var w2 := Added(w1, DataPos(cv) + cv.dataWidth, req.addr, cv.addrWidth);
    Added(w2, DataPos(cv) + cv.dataWidth + cv.addrWidth, if req.write then 1 else 0, 1)
  }

  function PackedWidth(cv: BitsConverter): nat
  {
    DataPos(cv) + cv.dataWidth + cv.addrWidth + 1
  }

  /** What `MemoryToBitsReq.convert` sends, or the error a write without data raises. */
  function ConvertSpec(cv: BitsConverter, req: MemReq): Result<seq<L9>>
  {
    if req.write && req.data.None? then Err(TYPE_ERROR)
    else Ok(FromInt(PackedWord(cv, req), PackedWidth(cv)))
  }

  /** `MemoryToBitsReq.convert`: the fields go into one `Packer` in order. */
  method Convert(cv: BitsConverter, req: MemReq) returns (r: Result<seq<L9>>)
    ensures r == ConvertSpec(cv, req)
  {
    var pack := new Packer(0);
    if cv.maskWidth.Some? {
      var mask: int;
      match req.mask {
        case BoolMask(b) =>
          if b {
            var m := MkMask(Sized(0, cv.maskWidth.value));
            mask := m.value;
          } else {
            mask := 0;
          }
        case IntMask(x) =>
          mask := x;
      }
      pack.Add(mask, cv.maskWidth.value);
    }
    assert pack.val == MaskWord(cv, req) && pack.pos == DataPos(cv);
    if req.write {
      if req.data.None? {
        return Err(TYPE_ERROR);
      }
      pack.Add(req.data.value, cv.dataWidth);
    } else {
      pack.Add(0, cv.dataWidth);
    }
    pack.Add(req.addr, cv.addrWidth);
    pack.Add(if req.write then 1 else 0, 1);
    r := Ok(FromInt(pack.val, pack.pos));
  }

  /** The converted vector carries the packed word whole: it reads back as that number. */
  lemma ConvertCarriesWord(cv: BitsConverter, req: MemReq)
    requires !req.write || req.data.Some?
    ensures ConvertSpec(cv, req) == Ok(FromInt(PackedWord(cv, req), PackedWidth(cv)))
    ensures ToIntSpec(FromInt(PackedWord(cv, req), PackedWidth(cv))) == Ok(PackedWord(cv, req))
  {
    var w := PackedWord(cv, req);
    var n := PackedWidth(cv);
    PackedFields(cv, req);
    ToIntOfFromInt(w, n);
    DivModUnique(w, Pow2(n), 0, w);
  }

  /**
   * Each field of the packed word reads back, truncated to its width, from
   * its place: the mask from bit 0, then the data (0 for a read), the
   * address and the write bit; the word fits the converter's width.
   */
  lemma PackedFields(cv: BitsConverter, req: MemReq)
    requires !req.write || req.data.Some?
    ensures var w := PackedWord(cv, req);
      var p1 := DataPos(cv);
      var p2 := p1 + cv.dataWidth;
      var p3 := p2 + cv.addrWidth;
      0 <= w < Pow2(PackedWidth(cv)) &&
      (cv.maskWidth.Some? ==> Field(w, 0, cv.maskWidth.value) == MaskField(req, cv.maskWidth.value) % Pow2(cv.maskWidth.value)) &&
      Field(w, p1, cv.dataWidth) == (if req.write then req.data.value else 0) % Pow2(cv.dataWidth) &&
      Field(w, p2, cv.addrWidth) == req.addr % Pow2(cv.addrWidth) &&
      Field(w, p3, 1) == (if req.write then 1 else 0)
  {
    if cv.maskWidth.Some? {
      AddedBounds(0, 0, MaskField(req, cv.maskWidth.value), cv.maskWidth.value);
    }
    var w0 := MaskWord(cv, req);
    var p1 := DataPos(cv);
    var w1 := Added(w0, p1, if req.write then req.data.value else 0, cv.dataWidth);
    var w2 := Added(w1, p1 + cv.dataWidth, req.addr, cv.addrWidth);
    ThreeAt(w0, p1, if req.write then req.data.value else 0, cv.dataWidth, w1, p1 + cv.dataWidth, req.addr,
      cv.addrWidth, w2, p1 + cv.dataWidth + cv.addrWidth, if req.write then 1 else 0, PackedWord(cv, req));
  }

  /**
   * Three fields added above a `p1`-bit value `w0` (giving `w1`, `w2`, then
   * `w`) read back from their places and leave the value below them as it was.
   */
  lemma ThreeAt(w0: int, p1: nat, d: int, n1: nat, w1: int, p2: nat, a: int, n2: nat, w2: int,
                p3: nat, bit: int, w: int)
    requires 0 <= w0 < Pow2(p1)
    requires p2 == p1 + n1 && p3 == p2 + n2
    requires w1 == Added(w0, p1, d, n1) && w2 == Added(w1, p2, a, n2) && w == Added(w2, p3, bit, 1)
    ensures 0 <= w < Pow2(p3 + 1)
    ensures Field(w, 0, p1) == Field(w0, 0, p1)
    ensures Field(w, p1, n1) == d % Pow2(n1)
    ensures Field(w, p2, n2) == a % Pow2(n2)
    ensures Field(w, p3, 1) == bit % Pow2(1)
  {
    AddedBounds(w0, p1, d, n1);
    AddedBounds(w1, p2, a, n2);
    AddedBounds(w2, p3, bit, 1);
    KeepsField(w2, p3, bit, 1, p2, n2);
    KeepsField(w2, p3, bit, 1, p1, n1);
    KeepsField(w1, p2, a, n2, p1, n1);
    KeepsField(w2, p3, bit, 1, 0, p1);
    KeepsField(w1, p2, a, n2, 0, p1);
    KeepsField(w0, p1, d, n1, 0, p1);
  }

  /** `Added` stays below its new width and reads back its data. */
  lemma AddedBounds(val: int, pos: nat, data: int, size: nat)
    requires 0 <= val < Pow2(pos)
    ensures 0 <= Added(val, pos, data, size) < Pow2(pos + size)
    ensures Field(Added(val, pos, data, size), pos, size) == data % Pow2(size)
  {
    AddedFields(val, pos, data, size);
  }

  /** `Added` keeps a field below its position. */
  lemma KeepsField(val: int, pos: nat, data: int, size: nat, p: nat, s: nat)
    requires 0 <= val < Pow2(pos) && p + s <= pos
    ensures Field(Added(val, pos, data, size), p, s) == Field(val, p, s)
  {
    AddedFields(val, pos, data, size);
  }

  /** `MemoryToBitsReq.commit`: a pure reply is committed as its number, any other as `None`. */
  method CommitBits(reply: seq<L9>, req: Pipe.Request<MemReq, Option<int>>)
    modifies req
    ensures req.result == Some(if Pure(reply) then Some(Value(reply) as int) else None)
    ensures req.done && req.callBack == old(req.callBack)
  {
    var v := ToInt(reply);
    if v.Err? {
      req.Commit(None);
    } else {
      req.Commit(Some(v.value as int));
    }
  }

  // ---------------------------------------------------------------------
  // MemoryAddrConvert
  // ---------------------------------------------------------------------

  const BOTH_GIVEN: string := "only an offset or an call"
  const NOT_CALLABLE: string := "'NoneType' object is not callable"

  /** The address map of a `MemoryAddrConvert`: an offset or a function, not both. */
  function AddrCall(offset: Option<int>, fn: Option<int -> int>): (r: Result<Option<int -> int>>)
    ensures r.Err? <==> offset.Some? && fn.Some?
    ensures offset.None? ==> r == Ok(fn)
  {
    if offset.Some? then
      if fn.Some? then Err(BOTH_GIVEN) else Ok(Some(x => x + offset.value))
    else Ok(fn)
  }

  /** `MemoryAddrConvert.convert`: the same request at the mapped address. */
  function AddrConvert(call: Option<int -> int>, req: MemReq): Result<MemReq>
  {
    if call.None? then Err(NOT_CALLABLE)
    else Ok(MemReq(call.value(req.addr), req.write, req.data, req.mask))
  }

  /** An offset converter moves the address by the offset and keeps the rest. */
  lemma OffsetConvert(offset: int, req: MemReq)
    ensures AddrCall(Some(offset), None).Ok?
    ensures var c := AddrConvert(AddrCall(Some(offset), None).value, req);
      c.Ok? && c.value.addr == req.addr + offset && c.value.(addr := req.addr) == req
  {
  }

  /**
   * The `commit` of every request converter: the converted request's result,
   * `None` if it has none, is committed to the original request.
   */
  method Forward<D1, D2>(out: Pipe.Request<D1, Option<int>>, req: Pipe.Request<D2, Option<int>>)
    requires out != req
    modifies req
    ensures req.result == Some(if out.result.Some? then out.result.value else None)
    ensures out.result == old(out.result)
    ensures req.done && req.callBack == old(req.callBack)
  {
    req.Commit(if out.result.Some? then out.result.value else None);
  }

  // ---------------------------------------------------------------------
  // Memory
  // ---------------------------------------------------------------------

  /** The value a read sees: the stored one, or 0 for an address never written. */
  function Stored(mem: map<int, int>, addr: int): int
  {
    if addr in mem then mem[addr] else 0
  }

  const FORMAT_NONE: string := "unsupported format string passed to NoneType.__format__"
  const NO_ADDRESS: string := "unsupported operand type(s) for +=: 'NoneType' and 'int'"
  const BAD_LINE: string := "invalid literal for int() with base 16"
  const EMPTY_LINE: string := "string index out of range"

  /** A memory of integers at integer addresses. */
  class Memory {
    var mem: map<int, int>

    constructor()
      ensures mem == map[]
    {
      mem := map[];
    }

    /**
     * One request of `Memory.run`: a write stores its data and commits 0, a
     * read commits the stored value. Returns what is committed; a write
     * without data fails while it is logged, before anything is stored.
     */
    method Serve(req: MemReq) returns (r: Result<int>)
      modifies this
      ensures req.write && req.data.Some? ==> r == Ok(0) && mem == old(mem)[req.addr := req.data.value]
      ensures req.write && req.data.None? ==> r == Err(FORMAT_NONE) && mem == old(mem)
      ensures !req.write ==> r == Ok(Stored(old(mem), req.addr)) && mem == old(mem)
    {
      if req.write {
        if req.data.None? {
          return Err(FORMAT_NONE);
        }
        mem := mem[req.addr := req.data.value];
        r := Ok(0);
      } else {
        r := Ok(Stored(mem, req.addr));
      }
    }

    /** `Memory.write`. */
    method Write(addr: int, data: int)
      modifies this
      ensures mem == old(mem)[addr := data]
    {
      mem := mem[addr := data];
    }

    /** `Memory.read`: what was written last at the address, or 0. */
    method Read(addr: int) returns (v: int)
      ensures v == Stored(mem, addr)
      ensures addr !in mem ==> v == 0
    {
      if addr in mem {
        v := mem[addr];
      } else {
        v := 0;
      }
    }

    /**
     * `readHexDump` on the lines of a file: `@` lines set the address to
     * eight times their value plus `offset`, `z` lines are skipped and every
     * other line is a value stored at the address, which then moves on by 8.
     */
    method ReadHexDump(lines: seq<string>, offset: int) returns (r: Result<()>)
      modifies this
      ensures var s := HexDump(old(mem), lines, None, offset);
        (r.Ok? <==> s.Ok?) && (s.Ok? ==> mem == s.value.0)
    {
      var addr: Option<int> := None;
      var i := 0;
      while i < |lines|
        invariant 0 <= i <= |lines|
        invariant HexDump(old(mem), lines, None, offset) == HexDump(mem, lines[i..], addr, offset)
      {
        assert lines[i..][1..] == lines[i + 1..];
        var line := lines[i];
        if |line| == 0 {
          return Err(EMPTY_LINE);
        }
        if line[0] == '@' {
          var v := ParseInt16(line[1..]);
          if v.None? {
            return Err(BAD_LINE);
          }
          addr := Some(v.value * 8 + offset);
        } else if line[0] == 'z' {
        } else {
          var v := ParseInt16(line);
          if v.None? {
            return Err(BAD_LINE);
          }
          if addr.None? {
            return Err(NO_ADDRESS);
          }
          mem := mem[addr.value := v.value];
          addr := Some(addr.value + 8);
        }
        i := i + 1;
      }
      r := Ok(());
    }
  }

  /** The memory and address after loading `lines`, or the error that stops the load. */
  function HexDump(mem: map<int, int>, lines: seq<string>, addr: Option<int>, offset: int)
    : Result<(map<int, int>, Option<int>)>
    decreases |lines|
  {
    if lines == [] then
      Ok((mem, addr))
    else
      var line := lines[0];
      if |line| == 0 then Err(EMPTY_LINE)
      else if line[0] == '@' then
        var v := ParseInt16(line[1..]);
        if v.None? then Err(BAD_LINE) else HexDump(mem, lines[1..], Some(v.value * 8 + offset), offset)
      else if line[0] == 'z' then
        HexDump(mem, lines[1..], addr, offset)
      else
        var v := ParseInt16(line);
        if v.None? then Err(BAD_LINE)
        else if addr.None? then Err(NO_ADDRESS)
        else HexDump(mem[addr.value := v.value], lines[1..], Some(addr.value + 8), offset)
  }

  /**
   * After an `@` line, consecutive data lines land eight addresses apart
   * from `8 * @value + offset` on; a `z` line changes nothing.
   */
  lemma HexDumpPlaces(mem: map<int, int>, at: string, d1: string, d2: string, offset: int)
    requires ParseInt16(at).Some? && ParseInt16(d1).Some? && ParseInt16(d2).Some?
    requires |d1| > 0 && |d2| > 0 && d1[0] != '@' && d1[0] != 'z' && d2[0] != '@' && d2[0] != 'z'
    ensures var base := ParseInt16(at).value * 8 + offset;
      HexDump(mem, ["@" + at, d1, "z", d2], None, offset) ==
        Ok((mem[base := ParseInt16(d1).value][base + 8 := ParseInt16(d2).value], Some(base + 16)))
  {
    var lines := ["@" + at, d1, "z", d2];
    var base := ParseInt16(at).value * 8 + offset;
    var m1 := mem[base := ParseInt16(d1).value];
    var m2 := m1[base + 8 := ParseInt16(d2).value];
    assert ("@" + at)[0] == '@' && ("@" + at)[1..] == at;
    assert lines[1..] == [d1, "z", d2];
    assert [d1, "z", d2][1..] == ["z", d2];
    assert ["z", d2][1..] == [d2];
    assert [d2][1..] == [];
    assert HexDump(m2, [], Some(base + 16), offset) == Ok((m2, Some(base + 16)));
    assert HexDump(m1, [d2], Some(base + 8), offset) == Ok((m2, Some(base + 16)));
    assert HexDump(m1, ["z", d2], Some(base + 8), offset) == Ok((m2, Some(base + 16)));
    assert HexDump(mem, [d1, "z", d2], Some(base), offset) == Ok((m2, Some(base + 16)));
  }

  // ---------------------------------------------------------------------
  // int(s, 16)
  // ---------------------------------------------------------------------

  predicate IsSpace(c: char)
  {
    c == ' ' || c == '\t' || c == '\n' || c == '\r' || c as int == 11 || c as int == 12
  }

  function Strip(s: string): (r: string)
    ensures |r| <= |s|
    decreases |s|
  {
    if s == [] then s
    else if IsSpace(s[0]) then Strip(s[1..])
    else if IsSpace(s[|s| - 1]) then Strip(s[..|s| - 1])
    else s
  }

  function HexDigit(c: char): Option<nat>
  {
    if '0' <= c <= '9' then Some(c as int - '0' as int)
    else if 'a' <= c <= 'f' then Some(c as int - 'a' as int + 10)
    else if 'A' <= c <= 'F' then Some(c as int - 'A' as int + 10)
    else None
  }

  /**
   * Hexadecimal digits, a single `_` allowed between two digits; the value
   * is read from the last digit back.
   */
  function HexDigits(s: string): Option<nat>
    decreases |s|
  {
    if s == [] then None
    else
      var d := HexDigit(s[|s| - 1]);
      if d.None? then None
      else if |s| == 1 then Some(d.value)
      else
        var rest := if s[|s| - 2] == '_' then s[..|s| - 2] else s[..|s| - 1];
        match HexDigits(rest)
        case None => None
        case Some(v) => Some(16 * v + d.value)
  }

  /**
   * `int(s, 16)`: surrounding white space, an optional sign, an optional
   * `0x` prefix that may be followed by one `_`, then the digits.
   */
  function ParseInt16(s: string): Option<int>
  {
    var t := Strip(s);
    var neg := |t| > 0 && t[0] == '-';
    var u := if |t| > 0 && (t[0] == '-' || t[0] == '+') then t[1..] else t;
    var body :=
      if |u| >= 2 && u[0] == '0' && (u[1] == 'x' || u[1] == 'X') then
        (if |u| >= 3 && u[2] == '_' then u[3..] else u[2..])
      else u;
    match HexDigits(body)
    case None => None
    case Some(v) => Some(if neg then -(v as int) else v as int)
  }

  /** A few readings `int(s, 16)` gives, as the dump files write them. */
  lemma ParseInt16Examples()
    ensures ParseInt16("ff\n") == Some(255)
    ensures ParseInt16("0x1_0") == Some(16)
    ensures ParseInt16("-a") == Some(-10)
    ensures ParseInt16("1__0") == None
    ensures ParseInt16("") == None
  {
    assert Strip("ff\n") == "ff" by {
      assert "ff\n"[..2] == "ff";
    }
    assert "0x1_0"[2..] == "1_0";
    assert "1_0"[..1] == "1";
    assert "-a"[1..] == "a";
    assert "1__0"[..2] == "1_";
    assert "1_"[..0] == "";
  }
}
