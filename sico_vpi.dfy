/**
 * The Verilog VPI glue of the simulator side (`SiCoVpi.cc`): the conversions
 * between the simulator's binary strings and SiCo bit vectors, the split of a
 * 64-bit simulation time into two 32-bit VPI integers, the flag words, and the
 * `$SiCoVpiTick`, `$SiCoVpiConfig` and `$SiCoVpiRecorderPut` calls on the
 * simulator control.
 */
module SiCoVpi {
  import opened Wrappers
  import opened Arith
  import opened BigEndian
  import opened SiCo
  import opened SiCoControl

  /** `BreakType`. */
  const HOLD: byte := 0
  const STOP: byte := 1
  const FINISH: byte := 2

  /** `PLI_INT32`, the integer a VPI call passes. */
  type i32 = x: int | -0x8000_0000 <= x < 0x8000_0000

  // ---------------------------------------------------------------------
  // Characters of a vpiBinStrVal
  // ---------------------------------------------------------------------

  /**
   * `logic9toVpiBinStrVal`: 0, 1, high and unknown have their own character;
   * every other logic value is shown as unknown.
   */
  function ToVpiChar(l: nib): (c: char)
    ensures c == '0' || c == '1' || c == 'Z' || c == 'X'
    ensures l < 4 ==> CharOf(l) == Some(c)
    ensures l >= 4 ==> c == 'X'
  {
    if l == 0 then '0' else if l == 1 then '1' else if l == 2 then 'Z' else 'X'
  }

  /** The characters a vpiBinStrVal is made of. */
  predicate BinChar(c: char)
  {
    c == '0' || c == '1' || c == 'Z' || c == 'z' || c == 'X' || c == 'x'
  }

  /**
   * `vpiBinStrValtologic9`: both cases of `Z` and `X` are read; any other
   * character becomes `uninitialized` (0xa).
   */
  function FromVpiChar(c: char): (l: nib)
    ensures l == 0xa <==> !BinChar(c)
    ensures l != 0xa ==> l < 4
  {
    match c
    case '0' => 0
    case '1' => 1
    case 'Z' => 2
    case 'z' => 2
    case 'X' => 3
    case 'x' => 3
    case _ => 0xa
  }

  /** The upper-case spelling of a VPI character. */
  function Upper(c: char): char
  {
    if c == 'z' then 'Z' else if c == 'x' then 'X' else c
  }

  /** The four logic values a binary string can carry survive the way out and back. */
  lemma CharRoundTrip(l: nib)
    requires l < 4
    ensures FromVpiChar(ToVpiChar(l)) == l
  {
  }

  /** A binary-string character comes back upper-cased; any other comes back as `X`. */
  lemma VpiCharRoundTrip(c: char)
    ensures BinChar(c) ==> ToVpiChar(FromVpiChar(c)) == Upper(c)
    ensures !BinChar(c) ==> ToVpiChar(FromVpiChar(c)) == 'X'
  {
  }

  // ---------------------------------------------------------------------
  // Binary strings and bit vectors
  // ---------------------------------------------------------------------

  /**
   * The bit vector a binary string denotes: the string is written most
   * significant bit first, the vector holds bit 0 first.
   */
  function BinStrBits(s: string): (r: seq<nib>)
    ensures |r| == |s|
  {
    if s == [] then [] else BinStrBits(s[1..]) + [FromVpiChar(s[0])]
  }

  /** Bit `k` of the vector is the `k`-th character from the end of the string. */
  lemma {:induction false} BinStrBitsAt(s: string, k: nat)
    requires k < |s|
    ensures BinStrBits(s)[k] == FromVpiChar(s[|s| - 1 - k])
  {
    if k < |s| - 1 {
      BinStrBitsAt(s[1..], k);
    }
  }

  /** The binary string of a bit vector, most significant bit first. */
  function BitsBinStr(b: seq<nib>): (r: string)
    ensures |r| == |b|
  {
    if b == [] then [] else BitsBinStr(b[1..]) + [ToVpiChar(b[0])]
  }

  /** Character `j` of the string shows the `j`-th element from the end of the vector. */
  lemma {:induction false} BitsBinStrAt(b: seq<nib>, j: nat)
    requires j < |b|
    ensures BitsBinStr(b)[j] == ToVpiChar(b[|b| - 1 - j])
  {
    if j < |b| - 1 {
      BitsBinStrAt(b[1..], j);
    }
  }

  /** `vpiBinStrToBits`: reads the string from its last character on. */
  method VpiBinStrToBits(s: string) returns (bits: seq<nib>)
    ensures bits == BinStrBits(s)
  {
    bits := [];
    var i := |s|;
    while i > 0
      invariant 0 <= i <= |s|
      invariant bits == BinStrBits(s[i..])
    {
      i := i - 1;
      assert s[i..][1..] == s[i + 1..];
      bits := bits + [FromVpiChar(s[i])];
    }
    assert s[0..] == s;
  }

  /** `bitsToVpiBinStr`: writes the vector from its last element on. */
  method BitsToVpiBinStr(b: seq<nib>) returns (s: string)
    ensures s == BitsBinStr(b)
  {
    s := [];
    var i := |b|;
    while i > 0
      invariant 0 <= i <= |b|
      invariant s == BitsBinStr(b[i..])
    {
      i := i - 1;
      assert b[i..][1..] == b[i + 1..];
      s := s + [ToVpiChar(b[i])];
    }
    assert b[0..] == b;
  }

  /** A vector of the four plain logic values survives the binary string. */
  lemma BitsRoundTrip(b: seq<nib>)
    requires forall k :: 0 <= k < |b| ==> b[k] < 4
    ensures BinStrBits(BitsBinStr(b)) == b
  {
    var s := BitsBinStr(b);
    forall k | 0 <= k < |b|
      ensures BinStrBits(s)[k] == b[k]
    {
      var j := |b| - 1 - k;
      assert |s| == |b| && |b| - 1 - j == k;
      BinStrBitsAt(s, k);
      assert BinStrBits(s)[k] == FromVpiChar(s[j]);
      BitsBinStrAt(b, j);
      assert s[j] == ToVpiChar(b[k]);
      CharRoundTrip(b[k]);
    }
    assert |BinStrBits(s)| == |b|;
  }

  /** A binary string comes back upper-cased. */
  lemma BinStrRoundTrip(s: string)
    requires forall j :: 0 <= j < |s| ==> BinChar(s[j])
    ensures |BitsBinStr(BinStrBits(s))| == |s|
    ensures forall j :: 0 <= j < |s| ==> BitsBinStr(BinStrBits(s))[j] == Upper(s[j])
  {
    var b := BinStrBits(s);
    forall j | 0 <= j < |s|
      ensures BitsBinStr(b)[j] == Upper(s[j])
    {
      var k := |s| - 1 - j;
      assert |b| == |s| && |s| - 1 - k == j;
      BitsBinStrAt(b, j);
      assert BitsBinStr(b)[j] == ToVpiChar(b[k]);
      BinStrBitsAt(s, k);
      assert b[k] == FromVpiChar(s[j]);
      VpiCharRoundTrip(s[j]);
    }
  }

  /** For the plain logic values the binary string shows what SiCo's own display shows. */
  lemma BinStrAgreesWithDisplay(b: seq<nib>, j: nat)
    requires j < |b| && b[|b| - 1 - j] < 4
    ensures CharOf(b[|b| - 1 - j]) == Some(BitsBinStr(b)[j])
  {
    BitsBinStrAt(b, j);
  }

  // ---------------------------------------------------------------------
  // Simulation time in two VPI integers
  // ---------------------------------------------------------------------

  /** `vpiVal2simTime`: the signed VPI integer read as unsigned. */
  function VpiToSimTime(v: i32): (t: u32)
    ensures t % U32 == v % U32
    ensures v >= 0 ==> t == v
  {
    if v < 0 then v + U32 else v
  }

  /** `simTime2vpiVal`: the low 32 bits of a time, read as a signed VPI integer. */
  function SimTimeToVpi(t: u64): (v: i32)
    ensures v % U32 == t % U32
  {
    var low := t % U32;
    if low < 0x8000_0000 then low else low - U32
  }

  /** The two halves of a time, `hi << 32 | lo`, as the VPI calls assemble it. */
  function AssembleTime(hi: i32, lo: i32): (t: u64)
    ensures t == VpiToSimTime(hi) * U32 + VpiToSimTime(lo)
  {
    var h, l := VpiToSimTime(hi), VpiToSimTime(lo);
    Pow2Of32();
    ShiftedIsMultiple(h, 32);
    BitOrDisjoint(l, h * Pow2(32), 32);
    BitOrCommutes(l, h * Pow2(32));
    BitOr(h * Pow2(32), l)
  }

  /** A VPI integer survives its reading as a time. */
  lemma VpiTimeRoundTrip(v: i32)
    ensures SimTimeToVpi(VpiToSimTime(v)) == v
  {
  }

  /** A time handed out as `until >> 32` and `until` is reassembled exactly. */
  lemma SplitTimeRoundTrip(t: u64)
    ensures AssembleTime(SimTimeToVpi(t / U32), SimTimeToVpi(t)) == t
  {
    var hi, lo := SimTimeToVpi(t / U32), SimTimeToVpi(t);
    assert VpiToSimTime(hi) == t / U32;
    assert VpiToSimTime(lo) == t % U32;
  }

  // ---------------------------------------------------------------------
  // Flag words
  // ---------------------------------------------------------------------

  /** `$SiCoVpiRecorderPut`: `sync = flags & 1`, `force = (flags >> 1) & 1`. */
  function RecorderFlags(flags: i32): (sf: (bool, bool))
  {
    (BitAnd(flags, 1) != 0, BitAnd(flags / 2, 1) != 0)
  }

  /** `$SiCoVpiPlayerInit` and `$SiCoVpiRecorderInit`: `flags & 1` and `flags & 2`. */
  function PlayerFlags(flags: i32): (sc: (bool, bool))
  {
    (BitAnd(flags, 1) != 0, BitAnd(flags, 2) != 0)
  }

  lemma AndOne(x: int)
    ensures BitAnd(x, 1) == x % 2
  {
    BitAndLowMask(x, 1);
  }

  /**
   * Both readings of a flag word take bit 0 as the first flag and bit 1 as
   * the second, also for a negative word.
   */
  lemma FlagsAreBits(flags: i32)
    ensures RecorderFlags(flags) == (Bit(flags, 0) == 1, Bit(flags, 1) == 1)
    ensures PlayerFlags(flags) == RecorderFlags(flags)
  {
    AndOne(flags);
    AndOne(flags / 2);
    assert BitAnd(flags, 2) == 2 * BitAnd(flags / 2, 1);
  }

  /** The word a testbench writes for two flags is read back as those flags. */
  lemma FlagsRoundTrip(first: bool, second: bool)
    ensures var w: i32 := (if first then 1 else 0) + (if second then 2 else 0);
      RecorderFlags(w) == (first, second) && PlayerFlags(w) == (first, second)
  {
    var w: i32 := (if first then 1 else 0) + (if second then 2 else 0);
    FlagsAreBits(w);
  }

  // ---------------------------------------------------------------------
  // Calls on the simulator control
  // ---------------------------------------------------------------------

  /**
   * `$SiCoVpiTick`: report the time, then `waitHold`, which checks the hold
   * breaks and, while one is reached, blocks the tick (`held`); otherwise
   * check the stop breaks and the finish breaks in that order. A reached
   * finish break shuts the connection down. Returns whether the tick is
   * held and whether the simulator is to stop and to finish.
   */
  method Tick(ctrl: SimControl, hi: i32, lo: i32) returns (held: bool, stop: bool, finish: bool)
    modifies ctrl
    ensures ctrl.nowAt == AssembleTime(hi, lo)
    ensures var now := AssembleTime(hi, lo);
      var afterHold := Checked(old(ctrl.breakList), HOLD, now);
      held <==> exists j :: 0 <= j < |afterHold| && Reached(afterHold[j], HOLD, now)
    ensures var now := AssembleTime(hi, lo);
      held ==>
        ctrl.breakList == Checked(old(ctrl.breakList), HOLD, now) && !stop && !finish &&
        ctrl.outbox == old(ctrl.outbox) + Replies(old(ctrl.breakList), HOLD, now) && ctrl.inShutdown == old(ctrl.inShutdown)
    ensures var now := AssembleTime(hi, lo);
      var afterHold := Checked(old(ctrl.breakList), HOLD, now);
      var afterStop := Checked(afterHold, STOP, now);
      !held ==>
        ctrl.breakList == Checked(afterStop, FINISH, now) &&
        (stop <==> exists j :: 0 <= j < |afterStop| && Reached(afterStop[j], STOP, now)) &&
        (finish <==> exists j :: 0 <= j < |ctrl.breakList| && Reached(ctrl.breakList[j], FINISH, now))
    ensures var now := AssembleTime(hi, lo);
      var afterHold := Checked(old(ctrl.breakList), HOLD, now);
      var afterStop := Checked(afterHold, STOP, now);
      var sent := old(ctrl.outbox) + Replies(old(ctrl.breakList), HOLD, now) + Hits(afterHold, STOP, now) +
                  Hits(afterStop, FINISH, now);
      !held ==>
        if finish then
          |ctrl.outbox| == |sent| + 1 && ctrl.outbox[..|sent|] == sent && ctrl.inShutdown &&
          Comm.CommandFromBytes(ctrl.outbox[|sent|].data) == Ok(Comm.Command.Shutdown)
        else
          ctrl.outbox == sent && ctrl.inShutdown == old(ctrl.inShutdown)
    ensures ctrl.channels == old(ctrl.channels) && ctrl.logLevels == old(ctrl.logLevels)
  {
    ctrl.ReportTime(AssembleTime(hi, lo));
    held := ctrl.CheckBreak(HOLD);
    if held {
      return held, false, false;
    }
    label Held:
    CheckedAcked(old(ctrl.breakList), HOLD, ctrl.nowAt);
    AckedReplies(ctrl.breakList, STOP, ctrl.nowAt);
    stop := ctrl.CheckBreak(STOP);
    CheckedAcked(old@Held(ctrl.breakList), STOP, ctrl.nowAt);
    AckedReplies(ctrl.breakList, FINISH, ctrl.nowAt);
    finish := ctrl.CheckBreak(FINISH);
    if finish {
      ctrl.Shutdown();
    }
  }

  const UNKNOWN_CONFIG: string := "unknown config in $SiCoVpiConfig name:"
  const DIVIDE_BY_ZERO: string := "tick frequency of zero"

  /**
   * `$SiCoVpiConfig`. `value` is the integer argument of `tickFreq` and
   * `holdTime`; `scope` and `level` are the string arguments of `loglevel`.
   * For `tickFreq` the result holds the tick period the control is given.
   */
  method Config(ctrl: SimControl, name: string, value: i32, scope: seq<byte>, level: string)
    returns (r: Result<Option<u64>>)
    modifies ctrl
    ensures name == "tickFreq" && VpiToSimTime(value) != 0 ==>
      r == Ok(Some(Freq2Period(VpiToSimTime(value)))) && ctrl.breakList == old(ctrl.breakList)
    ensures name == "tickFreq" && VpiToSimTime(value) == 0 ==>
      r == Err(DIVIDE_BY_ZERO) && ctrl.breakList == old(ctrl.breakList)
    ensures name == "holdTime" ==>
      r == Ok(None) && ctrl.breakList == old(ctrl.breakList) + [NewBreak(1, HOLD, VpiToSimTime(value), false)]
    ensures name == "loglevel" ==>
      r == Ok(None) && ctrl.breakList == old(ctrl.breakList) &&
      ctrl.logLevels == old(ctrl.logLevels)[scope := StringToSeverity(level)]
    ensures name !in {"tickFreq", "holdTime", "loglevel"} ==>
      r == Err(UNKNOWN_CONFIG + name) && ctrl.breakList == old(ctrl.breakList)
    ensures name != "loglevel" ==> ctrl.logLevels == old(ctrl.logLevels)
    ensures ctrl.nowAt == old(ctrl.nowAt) && ctrl.inShutdown == old(ctrl.inShutdown)
    ensures ctrl.channels == old(ctrl.channels) && ctrl.outbox == old(ctrl.outbox)
  {
    if name == "tickFreq" {
      var f := VpiToSimTime(value);
      if f == 0 {
        r := Err(DIVIDE_BY_ZERO);
      } else {
        r := Ok(Some(Freq2Period(f)));
      }
    } else if name == "holdTime" {
      ctrl.AddBreak(1, HOLD, VpiToSimTime(value), false);
      r := Ok(None);
    } else if name == "loglevel" {
      ctrl.logLevels := ctrl.logLevels[scope := StringToSeverity(level)];
      r := Ok(None);
    } else {
      r := Err(UNKNOWN_CONFIG + name);
    }
  }

  const NO_CHANNEL: string := "cannot find channel:"

  /**
   * `$SiCoVpiRecorderPut`: the recorder registered for the channel gets the
   * assembled time, the bits of the binary string and the two flags; an
   * unknown channel is an error. Returns whether a change was sent.
   */
  method RecorderPut(recorders: map<string, Recorder>, channel: string, hi: i32, lo: i32,
                     binstr: string, flags: i32) returns (r: Result<bool>)
    modifies if channel in recorders then {recorders[channel], recorders[channel].ctrl} else {}
    ensures channel !in recorders ==> r == Err(NO_CHANNEL + channel)
    ensures channel in recorders ==>
      var rec := recorders[channel];
      var bits := BinStrBits(binstr);
      r.Ok? && rec.now == AssembleTime(hi, lo) &&
      (r.value <==> RecorderFlags(flags).1 || bits != old(rec.last)) &&
      (r.value ==>
        (rec.last == bits &&
         rec.ctrl.outbox == old(rec.ctrl.outbox) +
           [SimMessage(rec.channel, ChangeBytes(SimChange(rec.now, rec.cycles, bits, RecorderFlags(flags).0)))])) &&
      (!r.value ==> rec.last == old(rec.last) && rec.ctrl.outbox == old(rec.ctrl.outbox))
  {
    if channel !in recorders {
      return Err(NO_CHANNEL + channel);
    }
    var rec := recorders[channel];
    var bits := VpiBinStrToBits(binstr);
    var sf := RecorderFlags(flags);
    var changed := rec.Put(AssembleTime(hi, lo), bits, sf.0, sf.1);
    r := Ok(changed);
  }
}
