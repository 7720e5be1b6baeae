// The simulator side of the simulation-control protocol (C++ library
// `SiCo`): fixed-width big-endian buffer access, the frame of a message,
// time text for the log, log levels, the wire forms of logic vectors and
// value changes, and the frequency/period conversions of SiCo.h.
// Buffers are byte sequences; reading past a buffer is undefined in C++,
// so the readers here either require the bytes to be there (where every
// caller guarantees it) or report the read as an error.
module SiCo {
  import opened Wrappers
  import opened Arith
  import opened BigEndian
  import opened Decimal
  import Time
  import Signal
  import Comm

  const E12: nat := 1000000000000
  const PAST_BUFFER: string := "read past the end of the buffer"

  type u32 = x: int | 0 <= x < 0x1_0000_0000
  type u64 = x: int | 0 <= x < 0x1_0000_0000_0000_0000

  /** A `logic9` as stored in a `bits` vector: the cast from a nibble admits all 16 codes. */
  type nib = x: int | 0 <= x < 16

  // ---------------------------------------------------------------------
  // Frequencies and periods (SiCo.h)

  /** `freq2period`: E12 / f, rounded down. */
  function Freq2Period(f: u64): (p: u64)
    requires f > 0
    ensures p * f <= E12 < p * f + f
    ensures Time.FromFreq(f) == Ok(Time.Tme(Some(p), None))
  {
    Time.FloorDivBounds(E12, f);
    MulAtLeast(f, if E12 / f == 0 then 1 else E12 / f);
    E12 / f
  }

  /** `period2freq`: E12 / p, rounded down. */
  function Period2Freq(p: u64): (f: u64)
    requires p > 0
    ensures f * p <= E12 < f * p + p
  {
    Time.FloorDivBounds(E12, p);
    MulAtLeast(p, if E12 / p == 0 then 1 else E12 / p);
    E12 / p
  }

  /** A frequency that divides E12 survives the trip to a period and back. */
  lemma FreqPeriodRoundTrip(f: u64)
    requires f > 0 && E12 % f == 0
    ensures Freq2Period(f) > 0 && Period2Freq(Freq2Period(f)) == f
  {
    var p := Freq2Period(f);
    DivModUnique(E12, f, p, 0);
    assert p > 0;
    DivModUnique(E12, p, f, 0);
  }

  // ---------------------------------------------------------------------
  // Buffer access: get8 .. get64, put8 .. put64

  /** `get8`/`get16`/`get32`/`get64`: n bytes big-endian at `index`. */
  function Get(data: seq<byte>, index: nat, n: nat): (r: nat)
    requires index + n <= |data|
    ensures r < Pow(256, n)
  {
    Decode(data[index..index + n])
  }

  /** The buffer s after the bytes w are stored at `index`. */
  function Written(s: seq<byte>, index: nat, w: seq<byte>): (r: seq<byte>)
    requires index + |w| <= |s|
    ensures |r| == |s| && r[index..index + |w|] == w
    ensures forall k :: 0 <= k < |s| && !(index <= k < index + |w|) ==> r[k] == s[k]
  {
    s[..index] + w + s[index + |w|..]
  }

  /** A field stored big-endian reads back. */
  lemma GetEncoded(d: seq<byte>, i: nat, x: nat, n: nat)
    requires i + n <= |d| && d[i..i + n] == Encode(x, n) && x < Pow(256, n)
    ensures Get(d, i, n) == x
  {
    DecodeEncode(x, n);
    DivModUnique(x, Pow(256, n), 0, x);
  }

  /** A 32-bit number fits in four bytes. */
  lemma U32Fits(x: int)
    requires 0 <= x < 0x1_0000_0000
    ensures x < Pow(256, 4)
  {
    PowersOf256();
  }

  /** A 64-bit number fits in eight bytes. */
  lemma U64Fits(x: u64)
    ensures x < Pow(256, 8)
  {
    PowersOf256();
  }

  /** Two stores side by side are one store of both. */
  lemma WrittenTwice(s: seq<byte>, index: nat, w1: seq<byte>, w2: seq<byte>)
    requires index + |w1| + |w2| <= |s|
    ensures Written(Written(s, index, w1), index + |w1|, w2) == Written(s, index, w1 + w2)
  {
  }

  /** Changing one stored byte is storing the changed bytes. */
  lemma WrittenUpdate(s: seq<byte>, index: nat, w: seq<byte>, k: nat, v: byte)
    requires index + |w| <= |s| && k < |w|
    ensures Written(s, index, w)[index + k := v] == Written(s, index, w[k := v])
  {
  }

  /** `put8`/`put16`/`put32`/`put64`: the value, narrowed to n bytes, stored big-endian. */
  method Put(buf: array<byte>, index: nat, val: int, n: nat)
    requires index + n <= buf.Length
    modifies buf
    ensures buf[..] == Written(old(buf[..]), index, Encode(val, n))
  {
    var w := Encode(val, n);
    forall k | 0 <= k < n {
      buf[index + k] := w[k];
    }
    assert buf[..] == Written(old(buf[..]), index, w);
  }

  /** A `get` of a `put` at the same index returns the narrowed value. */
  lemma GetOfPut(s: seq<byte>, index: nat, val: int, n: nat)
    requires index + n <= |s|
    ensures Pow(256, n) > 0
    ensures Get(Written(s, index, Encode(val, n)), index, n) == val % Pow(256, n)
  {
    DecodeEncode(val, n);
  }

  /** The nine bytes of a time: the value big-endian, then the cycles flag. */
  function SimTimeBytes(time: u64, cycles: bool): (r: seq<byte>)
    ensures |r| == 9 && r[8] == (if cycles then 1 else 0)
  {
    Encode(time, 8) + [if cycles then 1 else 0]
  }

  /** The simulator's time bytes are the host's `Tme.toBytes` (flag 0 period, 1 cycle). */
  lemma SimTimeBytesAreTmeBytes(time: u64, cycles: bool)
    ensures Time.ToBytes(Time.OfInt(time, if cycles then Time.Cycle else Time.Period)) == Ok(SimTimeBytes(time, cycles))
  {
    PowersOf256();
  }

  /** `putSimTime`: the value at `index`, the flag at `index + 8`. */
  method PutSimTime(buf: array<byte>, index: nat, time: u64, cycles: bool)
    requires index + 9 <= buf.Length
    modifies buf
    ensures buf[..] == Written(old(buf[..]), index, SimTimeBytes(time, cycles))
  {
    Put(buf, index, time, 8);
    Put(buf, index + 8, if cycles then 1 else 0, 1);
    assert Encode(if cycles then 1 else 0, 1) == [if cycles then 1 else 0];
    WrittenTwice(old(buf[..]), index, Encode(time, 8), [if cycles then 1 else 0]);
  }

  /** `getSimTime` as written: the flag is read at `index + 9`, one past where it is stored. */
  function GetSimTimeAsWritten(data: seq<byte>, index: nat): (r: (nat, bool))
    requires index + 10 <= |data|
    ensures r.0 < Pow(256, 8)
  {
    (Get(data, index, 8), data[index + 9] != 0)
  }

  /** `getSimTime` reading the flag where `putSimTime` stores it. */
  function GetSimTime(data: seq<byte>, index: nat): (r: (nat, bool))
    requires index + 9 <= |data|
    ensures r.0 < Pow(256, 8)
  {
    (Get(data, index, 8), data[index + 8] != 0)
  }

  /** The corrected reader gives back what `putSimTime` stored. */
  lemma SimTimeRoundTrip(s: seq<byte>, index: nat, time: u64, cycles: bool)
    requires index + 9 <= |s|
    ensures GetSimTime(Written(s, index, SimTimeBytes(time, cycles)), index) == (time, cycles)
  {
    var w := Written(s, index, SimTimeBytes(time, cycles));
    assert w[index..index + 8] == Encode(time, 8);
    U64Fits(time);
    GetEncoded(w, index, time, 8);
  }

  /**
   * The reader as written loses the flag: a cycle time followed by a zero
   * byte (for instance 5 cycles, then 0) reads back as a period.
   */
  lemma GetSimTimeAsWrittenMisreads(time: u64, rest: seq<byte>)
    requires |rest| > 0 && rest[0] == 0
    ensures GetSimTimeAsWritten(SimTimeBytes(time, true) + rest, 0) == (time, false)
    ensures GetSimTime(SimTimeBytes(time, true) + rest, 0) == (time, true)
  {
    var s := SimTimeBytes(time, true) + rest;
    assert s[0..8] == Encode(time, 8);
    DecodeEncode(time, 8);
    PowersOf256();
    assert s[9] == rest[0];
  }

  // ---------------------------------------------------------------------
  // Time text for the log: `chomp`

  /**
   * `chomp`: "<n>c" for cycles; for a period the same unit loop as the
   * host's `Tme.__str__` (first nonzero unit unpadded, later units padded
   * to three digits, 0 giving ""), so both ends print the same text.
   */
  method Chomp(num: u64, cycles: bool) returns (r: string)
    ensures cycles ==> Time.FormatSpec(Time.Tme(None, Some(num))) == Ok(r)
    ensures !cycles ==> Time.FormatSpec(Time.Tme(Some(num), None)) == Ok(r)
  {
    if cycles {
      return NatToStr(num) + "c";
    }
    r := Time.FormatUnits(num);
    assert "" + r == r;
  }

  // ---------------------------------------------------------------------
  // Log levels

  const TRACE: int := 0
  const DEBUG: int := 10
  const INFO: int := 20
  const WARNING: int := 30
  const ERROR: int := 40
  const FATAL: int := 50

  /** `stringToSeverity`: a known name in lower or upper case, anything else info. */
  function StringToSeverity(s: string): (r: int)
    ensures r in {TRACE, DEBUG, INFO, WARNING, ERROR, FATAL}
    ensures r == TRACE <==> s in {"trace", "TRACE"}
    ensures r == DEBUG <==> s in {"debug", "DEBUG"}
    ensures r == WARNING <==> s in {"warning", "WARNING", "warn", "WARN"}
    ensures r == ERROR <==> s in {"error", "ERROR"}
    ensures r == FATAL <==> s in {"fatal", "FATAL"}
  {
    if s == "trace" || s == "TRACE" then TRACE
    else if s == "debug" || s == "DEBUG" then DEBUG
    else if s == "info" || s == "INFO" then INFO
    else if s == "warning" || s == "WARNING" || s == "warn" || s == "WARN" then WARNING
    else if s == "error" || s == "ERROR" then ERROR
    else if s == "fatal" || s == "FATAL" then FATAL
    else INFO
  }

  predicate IsPrefix(key: seq<byte>, scope: seq<byte>)
  {
    |key| <= |scope| && scope[..|key|] == key
  }

  /**
   * `getLogLevel`: the level of the longest registered prefix of the
   * scope, info when none is registered. The map is walked in any order:
   * two prefixes of one scope with the same length are the same key.
   */
  method GetLogLevel(levels: map<seq<byte>, int>, scope: seq<byte>) returns (r: int)
    ensures (forall k :: k in levels ==> !IsPrefix(k, scope)) ==> r == INFO
    ensures (exists k :: k in levels && IsPrefix(k, scope)) ==>
      (exists k :: k in levels && IsPrefix(k, scope) && r == levels[k] &&
        forall k' :: k' in levels && IsPrefix(k', scope) ==> |k'| <= |k|)
  {
    r := INFO;
    var maxLen := 0;
    var todo := levels.Keys;
    ghost var best: Option<seq<byte>> := None;
    while todo != {}
      invariant todo <= levels.Keys
      invariant best.None? ==> (r == INFO && maxLen == 0 &&
        forall k :: k in levels && k !in todo ==> !IsPrefix(k, scope))
      invariant best.Some? ==> (best.value in levels && IsPrefix(best.value, scope) &&
        r == levels[best.value] && maxLen == |best.value| &&
        forall k :: k in levels && k !in todo && IsPrefix(k, scope) ==> |k| <= maxLen)
      decreases |todo|
    {
      var key :| key in todo;
      if IsPrefix(key, scope) && |key| >= maxLen {
        r := levels[key];
        maxLen := |key|;
        best := Some(key);
      }
      todo := todo - {key};
    }
  }

  // ---------------------------------------------------------------------
  // Messages: length(4), channel length(4), channel, data

  datatype SimMessage = SimMessage(channel: seq<byte>, data: seq<byte>)

  /** `Message::getSize`. */
  function GetSize(m: SimMessage): nat
  {
    |m.data| + 8 + |m.channel|
  }

  /** `Message::pack`: the size, the channel length, the channel, the data. */
  function Pack(m: SimMessage): (r: seq<byte>)
    ensures |r| == GetSize(m)
  {
    Encode(GetSize(m), 4) + Encode(|m.channel|, 4) + m.channel + m.data
  }

  /**
   * `Message(raw)`: the channel length is taken from bytes 4..8 and the
   * data length is what the total length leaves. A channel longer than
   * that, or a total longer than the buffer, reads past the buffer.
   */
  function MessageOfRaw(raw: seq<byte>): (r: Result<SimMessage>)
    ensures r.Ok? ==> 8 <= GetSize(r.value) <= |raw|
  {
    if |raw| < 8 then Err(PAST_BUFFER)
    else
      var msgLength, chanLength := Get(raw, 0, 4), Get(raw, 4, 4);
      if 8 + chanLength > msgLength || msgLength > |raw| then Err(PAST_BUFFER)
      else Ok(SimMessage(raw[8..8 + chanLength], raw[8 + chanLength..msgLength]))
  }

  /** Decoding a packed message restores channel and data. */
  lemma PackRoundTrip(m: SimMessage, rest: seq<byte>)
    requires GetSize(m) < Pow(256, 4)
    ensures MessageOfRaw(Pack(m) + rest) == Ok(m)
  {
    var raw := Pack(m) + rest;
    var n := |m.channel|;
    assert raw[0..4] == Encode(GetSize(m), 4);
    assert raw[4..8] == Encode(n, 4);
    DecodeEncode(GetSize(m), 4);
    DecodeEncode(n, 4);
    DivModUnique(GetSize(m), Pow(256, 4), 0, GetSize(m));
    DivModUnique(n, Pow(256, 4), 0, n);
    assert raw[8..8 + n] == m.channel;
    assert raw[8 + n..GetSize(m)] == m.data;
  }

  const MIN_MESSAGE: nat := 16
  const MAX_MESSAGE: nat := 1024 * 1024

  /**
   * `Connection::recvMessage` on a byte stream: the length is read first
   * and must lie in 16 .. 1 MiB, otherwise the connection is aborted; then
   * the whole message is read and decoded.
   */
  function RecvMessage(stream: seq<byte>): (r: Result<(SimMessage, seq<byte>)>)
    ensures r.Ok? ==> MIN_MESSAGE <= |stream| - |r.value.1| <= MAX_MESSAGE
    ensures r.Ok? ==> r.value.1 == stream[|stream| - |r.value.1|..]
    ensures |stream| >= 4 && !(MIN_MESSAGE <= Get(stream, 0, 4) <= MAX_MESSAGE) ==> r == Err("ConnectionAbort")
  {
    if |stream| < 4 then Err("connection closed")
    else
      var msgLength := Get(stream, 0, 4);
      if msgLength < MIN_MESSAGE || msgLength > MAX_MESSAGE then Err("ConnectionAbort")
      else if |stream| < msgLength then Err("connection closed")
      else
        match MessageOfRaw(stream[..msgLength])
        case Err(e) => Err(e)
        case Ok(m) => Ok((m, stream[msgLength..]))
  }

  /** A packed message of an accepted size is received whole, and the stream goes on after it. */
  lemma RecvOfPacked(m: SimMessage, rest: seq<byte>)
    requires MIN_MESSAGE <= GetSize(m) <= MAX_MESSAGE
    ensures RecvMessage(Pack(m) + rest) == Ok((m, rest))
  {
    var s := Pack(m) + rest;
    PowersOf256();
    assert s[..GetSize(m)] == Pack(m) + [];
    PackRoundTrip(m, []);
    assert s[0..4] == Pack(m)[0..4];
    assert Get(s, 0, 4) == Get(Pack(m) + [], 0, 4);
    assert s[GetSize(m)..] == rest;
  }

  /** The host's `Message.toBytes` and the simulator's `pack` write the same bytes. */
  lemma HostFrameIsPack(m: Comm.Message)
    requires Comm.MessageToBytes(m).Ok?
    ensures Comm.MessageToBytes(m).value == Pack(SimMessage(m.channel, Comm.Payload(m)))
  {
    PowersOf256();
  }

  /** A frame sent by the host arrives at the simulator as the same channel and data. */
  lemma HostFrameReceived(m: Comm.Message, rest: seq<byte>)
    requires Comm.MessageToBytes(m).Ok?
    requires MIN_MESSAGE <= |Comm.MessageToBytes(m).value| <= MAX_MESSAGE
    ensures RecvMessage(Comm.MessageToBytes(m).value + rest) == Ok((SimMessage(m.channel, Comm.Payload(m)), rest))
  {
    HostFrameIsPack(m);
    RecvOfPacked(SimMessage(m.channel, Comm.Payload(m)), rest);
  }

  /** A message packed by the simulator is read by the host with the same channel and data. */
  lemma SimulatorFrameRead(m: SimMessage, rest: seq<byte>)
    requires GetSize(m) < Pow(256, 4)
    ensures Comm.ReadFrame(Pack(m) + rest) == Ok((Comm.Message(m.channel, Some(m.data)), rest))
  {
    var hm := Comm.Message(m.channel, Some(m.data));
    PowersOf256();
    assert Comm.MessageToBytes(hm).Ok?;
    HostFrameIsPack(hm);
    Comm.ReadFrameOfMessage(hm, rest);
  }

  // ---------------------------------------------------------------------
  // Logic vectors: a 2-byte width, then one nibble per bit, highest pair first

  /** Bit k's nibble, 0 past the end (the high nibble of an odd-width top byte). */
  function NibOf(b: seq<nib>, k: nat): nib
  {
    if k < |b| then b[k] else 0
  }

  /** Byte j of the packed nibbles: bit pair p = n - 1 - j, even bit low, odd bit high. */
  function PairByte(b: seq<nib>, j: nat): byte
    requires j < (|b| + 1) / 2
  {
    var p := (|b| + 1) / 2 - 1 - j;
    NibOf(b, 2 * p) as int + 16 * NibOf(b, 2 * p + 1) as int
  }

  function PackNibbles(b: seq<nib>): (r: seq<byte>)
    ensures |r| == (|b| + 1) / 2
  {
    seq((|b| + 1) / 2, j requires 0 <= j < (|b| + 1) / 2 => PairByte(b, j))
  }

  /** `bits::rawSize`. */
  function RawSize(b: seq<nib>): nat
  {
    2 + (|b| + 1) / 2
  }

  /** What `bits::rawDump` writes: the width narrowed to 16 bits, then the packed nibbles. */
  function BitsBytes(b: seq<nib>): (r: seq<byte>)
    ensures |r| == RawSize(b)
  {
    Encode(|b|, 2) + PackNibbles(b)
  }

  /** Byte j of the pack once the bits below `i` are stored; the rest of the buffer is as before. */
  function PartialPair(b: seq<nib>, j: nat, i: nat): nat
    requires j < (|b| + 1) / 2
  {
    var p := (|b| + 1) / 2 - 1 - j;
    (if 2 * p < i then NibOf(b, 2 * p) as int else 0) + 16 * (if 2 * p + 1 < i then NibOf(b, 2 * p + 1) as int else 0)
  }

  /** The pack bytes once bits below i are stored, over what the buffer held before. */
  function PackState(b: seq<nib>, i: nat, init: seq<byte>): (r: seq<byte>)
    requires |init| == (|b| + 1) / 2
    ensures |r| == |init|
  {
    var n := (|b| + 1) / 2;
    seq(n, j requires 0 <= j < n => if 2 * (n - 1 - j) < i then PartialPair(b, j, i) as byte else init[j])
  }

  /** Storing bit i changes only the byte of its pair: an even bit sets it, an odd one adds the high nibble. */
  lemma PackStateStep(b: seq<nib>, i: nat, init: seq<byte>)
    requires |init| == (|b| + 1) / 2 && i < |b|
    ensures var byt := ((|b| - 1) / 2) - (i / 2);
      0 <= byt < |init| &&
      (i % 2 == 1 ==> PackState(b, i, init)[byt] < 16) &&
      PackState(b, i + 1, init) == PackState(b, i, init)[byt :=
        if i % 2 == 1 then PackState(b, i, init)[byt] + 16 * (b[i] as int) else b[i]]
  {
    var n := (|b| + 1) / 2;
    var byt := ((|b| - 1) / 2) - (i / 2);
    assert (|b| - 1) / 2 == n - 1;
    var P := PackState(b, i, init);
    var Q := PackState(b, i + 1, init);
    var R := P[byt := if i % 2 == 1 then P[byt] + 16 * (b[i] as int) else b[i]];
    forall j | 0 <= j < n
      ensures Q[j] == R[j]
    {
      if j != byt {
        assert n - 1 - j != i / 2;
      }
    }
  }

  /** Once every bit is stored the pack is complete, whatever the buffer held. */
  lemma PackStateDone(b: seq<nib>, init: seq<byte>)
    requires |init| == (|b| + 1) / 2
    ensures PackState(b, |b|, init) == PackNibbles(b)
  {
    var n := (|b| + 1) / 2;
    forall j | 0 <= j < n
      ensures PackState(b, |b|, init)[j] == PackNibbles(b)[j]
    {
      assert 2 * (n - 1 - j) < |b|;
    }
  }

  /** The byte stored for one bit: an even bit sets the byte, an odd bit ORs its nibble into the high half. */
  function StoreNib(prev: byte, x: nib, odd: bool): (r: byte)
    ensures odd && prev < 16 ==> r == prev + 16 * (x as int)
    ensures !odd ==> r == x
  {
    if odd then
      assert Pow2(4) == 16;
      MulDivCancel(x, 16);
      assert Pow2(8) == 256;
      BitOrBelow(prev, (x as int) * 16, 8);
      assert prev < 16 ==> BitOr(prev, (x as int) * 16) == prev + 16 * (x as int) by {
        if prev < 16 {
          BitOrDisjoint(prev, (x as int) * 16, 4);
        }
      }
      BitOr(prev, (x as int) * 16)
    else x
  }

  /** Before the loop nothing of the pack is stored. */
  lemma PackStateInit(w: seq<byte>, o: nat, b: seq<nib>)
    requires o + (|b| + 1) / 2 <= |w|
    ensures w == Written(w, o, PackState(b, 0, w[o..o + (|b| + 1) / 2]))
  {
    var init := w[o..o + (|b| + 1) / 2];
    assert PackState(b, 0, init) == init;
  }

  /** One step of the loop of `bits::rawDump` inside the buffer. */
  lemma PackStored(w: seq<byte>, o: nat, b: seq<nib>, i: nat, init: seq<byte>)
    requires |init| == (|b| + 1) / 2 && i < |b| && o + |init| <= |w|
    ensures var byt := ((|b| - 1) / 2) - (i / 2);
      var cur := Written(w, o, PackState(b, i, init));
      o + byt < |w| &&
      cur[o + byt := StoreNib(cur[o + byt], b[i], i % 2 == 1)] == Written(w, o, PackState(b, i + 1, init))
  {
    var byt := ((|b| - 1) / 2) - (i / 2);
    var P := PackState(b, i, init);
    PackStateStep(b, i, init);
    assert Written(w, o, P)[o + byt] == P[byt];
    WrittenUpdate(w, o, P, byt, StoreNib(P[byt], b[i], i % 2 == 1));
  }

  /**
   * `bits::rawDump`: the width, then for each bit i the byte of its pair;
   * an even bit sets the byte, an odd bit ORs its nibble into the high half.
   */
  method BitsRawDump(b: seq<nib>, buf: array<byte>, at: nat)
    requires at + RawSize(b) <= buf.Length
    modifies buf
    ensures buf[..] == Written(old(buf[..]), at, BitsBytes(b))
  {
    Put(buf, at, |b|, 2);
    PackInto(b, buf, at + 2);
    WrittenTwice(old(buf[..]), at, Encode(|b|, 2), PackNibbles(b));
  }

  /** The loop of `bits::rawDump` over the bits, storing the pack at `o`. */
  method PackInto(b: seq<nib>, buf: array<byte>, o: nat)
    requires o + (|b| + 1) / 2 <= buf.Length
    modifies buf
    ensures buf[..] == Written(old(buf[..]), o, PackNibbles(b))
  {
    ghost var w := buf[..];
    ghost var n := (|b| + 1) / 2;
    ghost var init := w[o..o + n];
    PackStateInit(w, o, b);
    var i := 0;
    while i < |b|
      invariant 0 <= i <= |b|
      invariant |w| == buf.Length && |init| == n
      invariant buf[..] == Written(w, o, PackState(b, i, init))
    {
      PackStep(b, buf, o, i, w, init);
      i := i + 1;
    }
    PackStateDone(b, init);
    assert PackState(b, i, init) == PackNibbles(b);
  }

  /** One turn of that loop: bit `i` stored into the byte of its pair. */
  method PackStep(b: seq<nib>, buf: array<byte>, o: nat, i: nat, ghost w: seq<byte>, ghost init: seq<byte>)
    requires |init| == (|b| + 1) / 2 && i < |b| && o + |init| <= |w| && |w| == buf.Length
    requires buf[..] == Written(w, o, PackState(b, i, init))
    modifies buf
    ensures buf[..] == Written(w, o, PackState(b, i + 1, init))
  {
    var byt := ((|b| - 1) / 2) - (i / 2);
    PackStored(w, o, b, i, init);
    ghost var cur := buf[..];
    var v := StoreNib(buf[o + byt], b[i], i % 2 == 1);
    buf[o + byt] := v;
    assert buf[..] == cur[o + byt := v];
  }

  /** The nibble `bits(raw)` reads for bit i of a vector of width s. */
  function NibAt(raw: seq<byte>, s: nat, i: nat): nib
    requires i < s && 2 + (s - 1) / 2 < |raw|
  {
    var v := raw[2 + ((s - 1) / 2) - (i / 2)];
    if i % 2 == 1 then v / 16 else v % 16
  }

  /**
   * What `bits(raw)` builds: the width from the first two bytes, then each
   * bit's nibble; a payload shorter than the width needs reads past it.
   */
  function Unpack(raw: seq<byte>): (r: Result<seq<nib>>)
    ensures r.Ok? ==> |raw| >= 2 && |r.value| == Get(raw, 0, 2)
  {
    if |raw| < 2 then Err(PAST_BUFFER)
    else
      var s := Get(raw, 0, 2);
      if s > 0 && |raw| <= 2 + (s - 1) / 2 then Err(PAST_BUFFER)
      else Ok(seq(s, i requires 0 <= i < s => NibAt(raw, s, i)))
  }

  /** `bits(raw)`: one nibble per bit, pushed in index order. */
  method BitsOfRaw(raw: seq<byte>) returns (r: Result<seq<nib>>)
    ensures r == Unpack(raw)
  {
    if |raw| < 2 {
      return Err(PAST_BUFFER);
    }
    var size := Get(raw, 0, 2);
    var v: seq<nib> := [];
    var i := 0;
    while i < size
      invariant 0 <= i <= size && |v| == i
      invariant i > 0 ==> 2 + (size - 1) / 2 < |raw|
      invariant forall k :: 0 <= k < i ==> v[k] == NibAt(raw, size, k)
    {
      var byt := ((size - 1) / 2) - (i / 2);
      if 2 + byt >= |raw| {
        return Err(PAST_BUFFER);
      }
      var val := raw[2 + byt];
      if i % 2 == 1 {
        val := val / 16;
      }
      v := v + [val % 16];
      i := i + 1;
    }
    assert v == seq(size, k requires 0 <= k < size => NibAt(raw, size, k));
    return Ok(v);
  }

  /** The nibble read back for bit i is the one dumped for it. */
  lemma NibRoundTrip(b: seq<nib>, raw: seq<byte>, i: nat)
    requires |raw| >= RawSize(b) && raw[..RawSize(b)] == BitsBytes(b) && i < |b|
    ensures 2 + (|b| - 1) / 2 < |raw| && NibAt(raw, |b|, i) == b[i]
  {
    var n := (|b| + 1) / 2;
    var j := ((|b| - 1) / 2) - (i / 2);
    assert raw[2 + j] == BitsBytes(b)[2 + j] == PairByte(b, j);
    var lo: int, hi: int := NibOf(b, 2 * (i / 2)), NibOf(b, 2 * (i / 2) + 1);
    DivModUnique(lo + 16 * hi, 16, hi, lo);
  }

  /** `bits(raw)` after `rawDump` gives the vector back, for widths below 2^16. */
  lemma BitsRoundTrip(b: seq<nib>, rest: seq<byte>)
    requires |b| < 65536
    ensures Unpack(BitsBytes(b) + rest) == Ok(b)
  {
    var raw := BitsBytes(b) + rest;
    WidthRoundTrip(b, rest);
    assert raw[..RawSize(b)] == BitsBytes(b);
    if |b| > 0 {
      NibRoundTrip(b, raw, 0);
    }
    var u := seq(|b|, i requires 0 <= i < |b| => NibAt(raw, |b|, i));
    forall i | 0 <= i < |b|
      ensures u[i] == b[i]
    {
      NibRoundTrip(b, raw, i);
    }
    assert u == b;
  }

  lemma WidthRoundTrip(b: seq<nib>, rest: seq<byte>)
    requires |b| < 65536
    ensures |BitsBytes(b) + rest| >= 2 && Get(BitsBytes(b) + rest, 0, 2) == |b|
  {
    var raw := BitsBytes(b) + rest;
    PowersOf256();
    assert raw[0..2] == Encode(|b|, 2);
    DecodeEncode(|b|, 2);
    DivModUnique(|b|, 65536, 0, |b|);
  }

  /** The codes of a host-side vector. */
  function Codes(v: seq<Signal.L9>): (r: seq<nib>)
    ensures |r| == |v| && forall i :: 0 <= i < |v| ==> r[i] == v[i].Code()
  {
    seq(|v|, i requires 0 <= i < |v| => v[i].Code())
  }

  /** The host's `Bits.toBytes` writes what `rawDump` writes for the same codes. */
  lemma HostBitsAreRawDump(v: seq<Signal.L9>)
    requires |v| < 65536
    ensures Signal.BytesSpec(v) == Ok(BitsBytes(Codes(v)))
  {
    PowersOf256();
    var b := Codes(v);
    forall j | 0 <= j < (|v| + 1) / 2
      ensures Signal.Packed(v)[j] == PackNibbles(b)[j]
    {
      assert Signal.PackLen(|v|) == (|v| + 1) / 2;
    }
    assert Signal.Packed(v) == PackNibbles(b);
  }

  // ---------------------------------------------------------------------
  // Value changes: time(8), cycles(1), sync(1), bits

  datatype SimChange = SimChange(time: u64, cycles: bool, value: seq<nib>, sync: bool)

  /** `change::rawSize`. */
  function ChangeRawSize(c: SimChange): nat
  {
    RawSize(c.value) + 10
  }

  /** What `change::rawDump` writes. */
  function ChangeBytes(c: SimChange): (r: seq<byte>)
    ensures |r| == ChangeRawSize(c)
  {
    SimTimeBytes(c.time, c.cycles) + [if c.sync then 1 else 0] + BitsBytes(c.value)
  }

  /** `change::rawDump`: the time with its flag, the sync byte at 9, the bits from 10. */
  method ChangeRawDump(c: SimChange, buf: array<byte>, at: nat)
    requires at + ChangeRawSize(c) <= buf.Length
    modifies buf
    ensures buf[..] == Written(old(buf[..]), at, ChangeBytes(c))
  {
    var t, y := SimTimeBytes(c.time, c.cycles), [if c.sync then 1 else 0];
    PutSimTime(buf, at, c.time, c.cycles);
    Put(buf, at + 9, if c.sync then 1 else 0, 1);
    assert Encode(if c.sync then 1 else 0, 1) == y;
    WrittenTwice(old(buf[..]), at, t, y);
    BitsRawDump(c.value, buf, at + 10);
    WrittenTwice(old(buf[..]), at, t + y, BitsBytes(c.value));
  }

  /** `change(raw)`: time from bytes 0..8, cycles from 8, sync from 9, bits from 10. */
  function ChangeOfRaw(raw: seq<byte>): Result<SimChange>
  {
    if |raw| < 10 then Err(PAST_BUFFER)
    else
      match Unpack(raw[10..])
      case Err(e) => Err(e)
      case Ok(v) => Ok(SimChange(Get(raw, 0, 8), raw[8] != 0, v, raw[9] != 0))
  }

  /** `change(raw)` after `rawDump` gives the change back. */
  lemma ChangeRoundTrip(c: SimChange, rest: seq<byte>)
    requires |c.value| < 65536
    ensures ChangeOfRaw(ChangeBytes(c) + rest) == Ok(c)
  {
    var raw := ChangeBytes(c) + rest;
    assert raw[10..] == BitsBytes(c.value) + rest;
    BitsRoundTrip(c.value, rest);
    assert raw[0..8] == Encode(c.time, 8);
    U64Fits(c.time);
    GetEncoded(raw, 0, c.time, 8);
  }

  /** A change serialised by the host is decoded by the simulator with the same time, domain, codes and sync. */
  lemma HostChangeDecoded(c: Signal.Change, rest: seq<byte>)
    requires c.time.Valid() && Signal.ChangeBytesSpec(c).Ok?
    ensures c.time.ToInt().Some? && 0 <= c.time.ToInt().value < 0x1_0000_0000_0000_0000
    ensures ChangeOfRaw(Signal.ChangeBytesSpec(c).value + rest) ==
      Ok(SimChange(c.time.ToInt().value, c.time.Typ() == Time.Cycle, Codes(c.value), c.sync))
  {
    PowersOf256();
    var t := c.time.ToInt().value;
    var cyc := c.time.Typ() == Time.Cycle;
    Time.OfIntOfSelf(c.time);
    SimTimeBytesAreTmeBytes(t, cyc);
    HostBitsAreRawDump(c.value);
    var sc := SimChange(t, cyc, Codes(c.value), c.sync);
    assert Signal.ChangeBytesSpec(c).value == ChangeBytes(sc);
    ChangeRoundTrip(sc, rest);
  }

  // ---------------------------------------------------------------------
  // Display characters

  /**
   * `logic9_charmap[code]`: fifteen entries, so code 15 reads past the
   * table. The blank entries are exactly the codes that name no value.
   */
  function CharOf(code: nib): (r: Option<char>)
    ensures r.Some? <==> code < 15
    ensures r.Some? ==> (r.value == ' ' <==> Signal.FromCode(code).None?)
  {
    if code == 0 then Some('0')
    else if code == 1 then Some('1')
    else if code == 2 then Some('Z')
    else if code == 3 then Some('X')
    else if code == 4 then Some('L')
    else if code == 5 then Some('H')
    else if code == 6 then Some('Y')
    else if code == 0xa then Some('U')
    else if code == 0xe then Some('_')
    else if code < 15 then Some(' ')
    else None
  }

  /** Every logic value has its own display character. */
  lemma CharOfInjective(a: Signal.L9, b: Signal.L9)
    ensures CharOf(a.Code()).Some? && (CharOf(a.Code()) == CharOf(b.Code()) ==> a == b)
  {
    Signal.CodeRoundTrip(a);
    Signal.CodeRoundTrip(b);
  }
}
