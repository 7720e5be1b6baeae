/**
 * `Errors`: the pass/fail book-keeping of a test bench. Every check ends
 * in a success or a failure; a failure ORs its code into the exit code;
 * the report at exit prints the tally, the messages and a verdict.
 * Standard output is the field `printed`, one string per printed line.
 */
module TestErrors {
  import opened Wrappers
  import opened Arith
  import opened Decimal

  /** A value a test measures or expects: an integer, or Python's `None`. */
  type Value = Option<int>

  /** What `f"{v:#x}"` raises for `None`. */
  const TYPE_ERROR: string := "unsupported format string passed to NoneType.__format__"

  /** The message `report` fails with when nothing succeeded. */
  const NO_TESTS_PASSED: string := "no tests passed"

  /** `f"{v}"`. */
  function Show(v: Value): string
  {
    match v
    case None => "None"
    case Some(n) => IntToStr(n)
  }

  function HexDigit(d: nat): char
    requires d < 16
  {
    if d < 10 then DigitChar(d) else ('a' as int + d - 10) as char
  }

  /** The lower-case hexadecimal digits of `n`, no leading zeros. */
  function HexDigits(n: nat): (r: string)
    ensures |r| >= 1
  {
    if n < 16 then [HexDigit(n)] else HexDigits(n / 16) + [HexDigit(n % 16)]
  }

  /** `f"{n:#x}"` of an integer: `0x` and the digits, after a minus sign when negative. */
  function Hex(n: int): string
  {
    if n < 0 then "-0x" + HexDigits(-n) else "0x" + HexDigits(n)
  }

  /** `f"{v:#x}"`: `None` has no hexadecimal form. */
  function HexOf(v: Value): Result<string>
  {
    match v
    case None => Err(TYPE_ERROR)
    case Some(n) => Ok(Hex(n))
  }

  /** The value of one hexadecimal digit, -1 for any other character. */
  function HexDigitValue(c: char): int
  {
    if '0' <= c <= '9' then c as int - '0' as int
    else if 'a' <= c <= 'f' then c as int - 'a' as int + 10
    else -1
  }

  function HexValue(s: string): int
  {
    if s == [] then 0 else HexValue(s[..|s| - 1]) * 16 + HexDigitValue(s[|s| - 1])
  }

  /** `int(s, 16)` on the text `f"{n:#x}"` writes: an optional minus sign, `0x`, digits. */
  function ParseHex(s: string): int
  {
    if |s| >= 3 && s[..3] == "-0x" then -HexValue(s[3..])
    else if |s| >= 2 && s[..2] == "0x" then HexValue(s[2..])
    else HexValue(s)
  }

  lemma {:induction false} HexDigitsValue(n: nat)
    ensures HexValue(HexDigits(n)) == n
  {
    var s := HexDigits(n);
    if n >= 16 {
      HexDigitsValue(n / 16);
      assert s[..|s| - 1] == HexDigits(n / 16);
    }
  }

  /** The hexadecimal text of a measurement reads back as the measurement. */
  lemma HexRoundTrip(n: int)
    ensures ParseHex(Hex(n)) == n
  {
    var s := Hex(n);
    if n < 0 {
      assert s[..3] == "-0x" && s[3..] == HexDigits(-n);
      HexDigitsValue(-n);
    } else {
      assert s[..2] == "0x" && s[2..] == HexDigits(n);
      assert !(|s| >= 3 && s[..3] == "-0x") by {
        assert s[0] == '0';
      }
      HexDigitsValue(n);
    }
  }

  /** The message `fail`/`success` keep: none for `None`. */
  function Kept(msg: Option<string>): (r: seq<string>)
    ensures |r| <= 1
  {
    if msg.Some? then [msg.value] else []
  }

  /** The line `fail`/`success` print: `tag` and the message, nothing for `None`. */
  function Announced(tag: string, msg: Option<string>): (r: seq<string>)
    ensures |r| == |Kept(msg)| && (msg.Some? ==> r == [tag + msg.value])
  {
    if msg.Some? then [tag + msg.value] else []
  }

  /** A bitwise OR is zero exactly when both operands are. */
  lemma {:induction false} BitOrZeroIff(a: int, b: int)
    ensures BitOr(a, b) == 0 <==> a == 0 && b == 0
    decreases Size(a) + Size(b)
  {
    if Size(a) != 0 || Size(b) != 0 {
      if a % 2 == 0 && b % 2 == 0 {
        assert a / 2 != 0 || b / 2 != 0;
        BitOrZeroIff(a / 2, b / 2);
      }
    }
  }

  /**
   * The lines `report` prints after its own check: the result code, the
   * tally, the messages under a heading when there are any, and the
   * verdict, which is the bad message exactly when the code is not 0.
   */
  function ReportLines(code: int, goodCounter: int, badCounter: int, msgs: seq<string>, good: string, bad: string): (r: seq<string>)
    ensures |r| == 3 + (if msgs == [] then 0 else 1 + |msgs|)
    ensures r[|r| - 1] == (if code == 0 then good else bad)
    ensures msgs != [] ==> r[2] == "Messages:" && r[3..|r| - 1] == msgs
  {
    ["---- Result:" + IntToStr(code) + " ----",
     "Tests - good:" + IntToStr(goodCounter) + " bad:" + IntToStr(badCounter)]
    + (if msgs == [] then [] else ["Messages:"] + msgs)
    + [if code == 0 then good else bad]
  }

  class Errors {
    var good: string
    var bad: string
    var msgs: seq<string>
    var goodCounter: int
    var badCounter: int
    var code: int
    /** Standard output: the lines printed so far. */
    var printed: seq<string>

    /** What the counters guarantee: a nonzero code only after a failure, at most one message per result. */
    predicate Valid()
      reads this
    {
      goodCounter >= 0 && badCounter >= 0 && (code != 0 ==> badCounter > 0) &&
      |msgs| <= goodCounter + badCounter
    }

    constructor (goodMessage: string, badMessage: string)
      ensures good == goodMessage && bad == badMessage
      ensures msgs == [] && goodCounter == 0 && badCounter == 0 && code == 0 && printed == []
      ensures Valid()
    {
      good, bad := goodMessage, badMessage;
      msgs := [];
      goodCounter, badCounter, code := 0, 0, 0;
      printed := [];
    }

    /** `fail(msg, code)`: ORs `c` into the code, keeps and prints the message, counts a failure. */
    method Fail(msg: Option<string>, c: int)
      requires Valid()
      modifies this
      ensures code == BitOr(old(code), c) && badCounter == old(badCounter) + 1
      ensures msgs == old(msgs) + Kept(msg) && printed == old(printed) + Announced("FAIL ", msg)
      ensures good == old(good) && bad == old(bad) && goodCounter == old(goodCounter)
      ensures code != 0 <==> old(code) != 0 || c != 0
      ensures Valid()
    {
      BitOrZeroIff(code, c);
      code := BitOr(code, c);
      if msg.Some? {
        msgs := msgs + [msg.value];
        printed := printed + ["FAIL " + msg.value];
      }
      badCounter := badCounter + 1;
    }

    /** `success(msg)`: keeps and prints the message, counts a success; the code stays. */
    method Success(msg: Option<string>)
      requires Valid()
      modifies this
      ensures goodCounter == old(goodCounter) + 1
      ensures msgs == old(msgs) + Kept(msg) && printed == old(printed) + Announced("SUCC ", msg)
      ensures good == old(good) && bad == old(bad) && badCounter == old(badCounter) && code == old(code)
      ensures Valid()
    {
      if msg.Some? {
        msgs := msgs + [msg.value];
        printed := printed + ["SUCC " + msg.value];
      }
      goodCounter := goodCounter + 1;
    }

    /** `check(condition, goodMsg, badMsg)`: a success with `goodMsg` or a failure of code 1 with `badMsg`. */
    method Check(condition: bool, goodMsg: Option<string>, badMsg: Option<string>)
      requires Valid()
      modifies this
      ensures condition ==> (goodCounter == old(goodCounter) + 1 && badCounter == old(badCounter) &&
        code == old(code) && msgs == old(msgs) + Kept(goodMsg) && printed == old(printed) + Announced("SUCC ", goodMsg))
      ensures !condition ==> (badCounter == old(badCounter) + 1 && goodCounter == old(goodCounter) &&
        code == BitOr(old(code), 1) && code != 0 &&
        msgs == old(msgs) + Kept(badMsg) && printed == old(printed) + Announced("FAIL ", badMsg))
      ensures good == old(good) && bad == old(bad)
      ensures Valid()
    {
      if condition {
        Success(goodMsg);
      } else {
        Fail(badMsg, 1);
      }
    }

    /** `checkVal(meas, expe, desc)`: passes exactly when the two values are equal, with messages in decimal. */
    method CheckVal(meas: Value, expe: Value, desc: string)
      requires Valid()
      modifies this
      ensures meas == expe ==> (goodCounter == old(goodCounter) + 1 && badCounter == old(badCounter) &&
        code == old(code) && msgs == old(msgs) + [Show(meas) + " - " + desc])
      ensures meas != expe ==> (badCounter == old(badCounter) + 1 && goodCounter == old(goodCounter) &&
        code != 0 && msgs == old(msgs) + [Show(meas) + " is not " + Show(expe) + " - " + desc])
      ensures good == old(good) && bad == old(bad)
      ensures Valid()
    {
      Check(meas == expe, Some(Show(meas) + " - " + desc), Some(Show(meas) + " is not " + Show(expe) + " - " + desc));
    }

    /**
     * `checkValX(meas, expe, desc)` as written: a `None` measurement is
     * checked once in decimal and then falls through to the hexadecimal
     * check, whose formatting raises; a `None` expectation raises before
     * anything is recorded.
     */
    method CheckValX(meas: Value, expe: Value, desc: string) returns (r: Result<bool>)
      requires Valid()
      modifies this
      ensures r.Err? <==> meas.None? || expe.None?
      ensures r.Ok? ==> r.value == (meas == expe)
      ensures expe.None? ==> goodCounter == old(goodCounter) && badCounter == old(badCounter) && msgs == old(msgs)
      ensures meas.None? && expe.Some? ==> (badCounter == old(badCounter) + 1 && code != 0 &&
        msgs == old(msgs) + ["None is not " + Hex(expe.value) + " - " + desc])
      ensures meas.Some? && expe.Some? ==>
        msgs == old(msgs) + [if meas == expe then Hex(meas.value) + " - " + desc
                             else Hex(meas.value) + " is not " + Hex(expe.value) + " - " + desc]
      ensures good == old(good) && bad == old(bad)
      ensures Valid()
    {
      if meas.None? {
        var e := HexOf(expe);
        if e.Err? {
          return Err(e.error);
        }
        Check(meas == expe, Some(Show(meas) + " - " + desc), Some(Show(meas) + " is not " + e.value + " - " + desc));
        assert Show(meas) + " is not " == "None is not ";
      }
      var m, e := HexOf(meas), HexOf(expe);
      if m.Err? {
        return Err(m.error);
      }
      if e.Err? {
        return Err(e.error);
      }
      Check(meas == expe, Some(m.value + " - " + desc), Some(m.value + " is not " + e.value + " - " + desc));
      r := Ok(meas == expe);
    }

    /** `checkValX` with the `None` case returning after its check, as its first branch evidently means to. */
    method CheckValXIntended(meas: Value, expe: Value, desc: string) returns (r: Result<bool>)
      requires Valid()
      modifies this
      ensures r.Err? <==> expe.None?
      ensures r.Ok? ==> r.value == (meas == expe)
      ensures expe.None? ==> goodCounter == old(goodCounter) && badCounter == old(badCounter) && msgs == old(msgs)
      ensures meas.None? && expe.Some? ==> (badCounter == old(badCounter) + 1 && code != 0 &&
        msgs == old(msgs) + ["None is not " + Hex(expe.value) + " - " + desc])
      ensures meas.Some? && expe.Some? ==>
        msgs == old(msgs) + [if meas == expe then Hex(meas.value) + " - " + desc
                             else Hex(meas.value) + " is not " + Hex(expe.value) + " - " + desc]
      ensures good == old(good) && bad == old(bad)
      ensures Valid()
    {
      var e := HexOf(expe);
      if e.Err? {
        return Err(e.error);
      }
      if meas.None? {
        Check(false, Some(Show(meas) + " - " + desc), Some(Show(meas) + " is not " + e.value + " - " + desc));
        assert Show(meas) + " is not " == "None is not ";
        return Ok(false);
      }
      var m := HexOf(meas);
      Check(meas == expe, Some(m.value + " - " + desc), Some(m.value + " is not " + e.value + " - " + desc));
      r := Ok(meas == expe);
    }

    /**
     * `report()`: a run without a single success fails with "no tests
     * passed"; then the result, the tally, the messages and the verdict
     * are printed. The verdict is the bad message whenever the code is
     * not 0, and so always after a run without successes.
     */
    method Report()
      requires Valid()
      modifies this
      ensures old(goodCounter) == 0 ==> (code == BitOr(old(code), 1) && code != 0 &&
        badCounter == old(badCounter) + 1 && msgs == old(msgs) + [NO_TESTS_PASSED])
      ensures old(goodCounter) != 0 ==> code == old(code) && badCounter == old(badCounter) && msgs == old(msgs)
      ensures goodCounter == old(goodCounter) && good == old(good) && bad == old(bad)
      ensures printed == old(printed) + (if old(goodCounter) == 0 then ["FAIL " + NO_TESTS_PASSED] else []) +
        ReportLines(code, goodCounter, badCounter, msgs, good, bad)
      ensures printed[|printed| - 1] == (if code == 0 then good else bad)
      ensures Valid()
    {
      if goodCounter == 0 {
        Fail(Some(NO_TESTS_PASSED), 1);
        assert Kept(Some(NO_TESTS_PASSED)) == [NO_TESTS_PASSED];
      }
      PrintSummary();
    }

    /** The printing half of `report()`: the result, the tally, the messages and the verdict. */
    method PrintSummary()
      requires Valid()
      modifies this
      ensures printed == old(printed) + ReportLines(code, goodCounter, badCounter, msgs, good, bad)
      ensures code == old(code) && goodCounter == old(goodCounter) && badCounter == old(badCounter)
      ensures msgs == old(msgs) && good == old(good) && bad == old(bad)
      ensures Valid()
    {
      var result := "---- Result:" + IntToStr(code) + " ----";
      var tally := "Tests - good:" + IntToStr(goodCounter) + " bad:" + IntToStr(badCounter);
      var out := printed + [result, tally];
      if |msgs| > 0 {
        out := out + ["Messages:"];
      }
      ghost var head := out;
      var i := 0;
      while i < |msgs|
        invariant 0 <= i <= |msgs| && out == head + msgs[..i]
        modifies {}
      {
        out := out + [msgs[i]];
        i := i + 1;
      }
      ghost var listed := if msgs == [] then [] else ["Messages:"] + msgs;
      assert out == printed + ([result, tally] + listed) by {
        assert msgs[..|msgs|] == msgs;
      }
      var verdict := if code == 0 then good else bad;
      ghost var lines := ReportLines(code, goodCounter, badCounter, msgs, good, bad);
      assert lines == ([result, tally] + listed) + [verdict];
      printed := out + [verdict];
      assert printed == old(printed) + lines;
    }

    /** `exit()`: the process ends with the recorded code as its status. */
    method Exit() returns (status: int)
      ensures status == code
    {
      status := code;
    }
  }
}
