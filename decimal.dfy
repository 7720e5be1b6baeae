// Decimal text of natural numbers: Python's `str(n)`, `f"{n:03}"` and
// `int(s)` on ASCII digit strings, and C++'s `operator<<` on an integer.
module Decimal {

  predicate IsDigit(c: char)
  {
    '0' <= c <= '9'
  }

  predicate AllDigits(s: string)
  {
    forall i :: 0 <= i < |s| ==> IsDigit(s[i])
  }

  function DigitChar(d: nat): (c: char)
    requires d < 10
    ensures IsDigit(c)
  {
    ('0' as int + d) as char
  }

  /** `str(n)`: shortest decimal form, no leading zeros. */
  function NatToStr(n: nat): (r: string)
    ensures |r| >= 1 && AllDigits(r)
    ensures |r| > 1 ==> r[0] != '0'
  {
    if n < 10 then [DigitChar(n)] else NatToStr(n / 10) + [DigitChar(n % 10)]
  }

  /** `str(i)` for a possibly negative integer. */
  function IntToStr(i: int): string
  {
    if i < 0 then "-" + NatToStr(-i) else NatToStr(i)
  }

  /** `int(s)` for a string of ASCII digits. */
  function DigitsValue(s: string): nat
    requires AllDigits(s)
  {
    if s == [] then 0 else DigitsValue(s[..|s| - 1]) * 10 + (s[|s| - 1] as int - '0' as int)
  }

  /** `f"{n:03}"`: zero-padded to at least three digits. */
  function ZeroPad3(n: nat): (r: string)
    ensures |r| >= 3 && AllDigits(r)
  {
    var s := NatToStr(n);
    if |s| >= 3 then s else Zeros(3 - |s|) + s
  }

  function Zeros(k: nat): (r: string)
    ensures |r| == k && AllDigits(r)
  {
    if k == 0 then "" else "0" + Zeros(k - 1)
  }

  lemma {:induction false} NatToStrValue(n: nat)
    ensures DigitsValue(NatToStr(n)) == n
  {
    if n >= 10 {
      NatToStrValue(n / 10);
      var s := NatToStr(n);
      assert s[..|s| - 1] == NatToStr(n / 10);
    }
  }

  lemma {:induction false} LeadingZeros(k: nat, s: string)
    requires AllDigits(s)
    ensures AllDigits(Zeros(k) + s) && DigitsValue(Zeros(k) + s) == DigitsValue(s)
    decreases |s|
  {
    var t := Zeros(k) + s;
    assert AllDigits(t);
    if s == [] {
      assert t == Zeros(k);
      ZerosValue(k);
    } else {
      assert t[..|t| - 1] == Zeros(k) + s[..|s| - 1];
      LeadingZeros(k, s[..|s| - 1]);
    }
  }

  lemma {:induction false} ZerosValue(k: nat)
    ensures DigitsValue(Zeros(k)) == 0
  {
    if k > 0 {
      var z := Zeros(k);
      assert z[..k - 1] == Zeros(k - 1) by {
        assert z == Zeros(k - 1) + "0" by { ZerosSnoc(k); }
      }
      ZerosValue(k - 1);
    }
  }

  lemma {:induction false} ZerosSnoc(k: nat)
    requires k > 0
    ensures Zeros(k) == Zeros(k - 1) + "0"
  {
    if k > 1 {
      ZerosSnoc(k - 1);
    }
  }

  lemma ZeroPad3Value(n: nat)
    ensures DigitsValue(ZeroPad3(n)) == n
  {
    NatToStrValue(n);
    var s := NatToStr(n);
    if |s| < 3 {
      LeadingZeros(3 - |s|, s);
    }
  }

  /** Numbers below 1000 print with at most three digits, so the padding gives exactly three. */
  lemma {:induction false} NatToStrShort(n: nat)
    requires n < 1000
    ensures |NatToStr(n)| <= 3 && |ZeroPad3(n)| == 3
  {
    if n >= 10 {
      NatToStrShort(n / 10);
      if n / 10 >= 10 {
        assert n / 10 / 10 < 10;
      }
    }
  }
}
