// Fixed-width unsigned big-endian integers, the byte order of every field on
// the simulation-control wire and of Python's `int.to_bytes(n, 'big')`.
module BigEndian {
  import opened Arith
  import opened Wrappers

  type byte = b: int | 0 <= b < 256

  /** The n-byte big-endian form of x mod 256^n (what a narrowing store keeps). */
  function Encode(x: int, n: nat): (r: seq<byte>)
    ensures |r| == n
    decreases n
  {
    if n == 0 then [] else Encode(x / 256, n - 1) + [x % 256]
  }

  /** `int.from_bytes(s, 'big')`. */
  function Decode(s: seq<byte>): (r: nat)
    ensures r < Pow(256, |s|)
  {
    if s == [] then 0 else Decode(s[..|s| - 1]) * 256 + s[|s| - 1]
  }

  /** `x.to_bytes(n, 'big')`, which raises OverflowError unless 0 <= x < 256^n. */
  function ToBytes(x: int, n: nat): (r: Result<seq<byte>>)
    ensures r.Ok? <==> 0 <= x < Pow(256, n)
    ensures r.Ok? ==> |r.value| == n && Decode(r.value) == x
  {
    if 0 <= x < Pow(256, n) then
      DecodeEncode(x, n);
      DivModUnique(x, Pow(256, n), 0, x);
      Ok(Encode(x, n))
    else
      Err("OverflowError: int too big to convert")
  }

  lemma {:induction false} DecodeEncode(x: int, n: nat)
    ensures Pow(256, n) > 0
    ensures Decode(Encode(x, n)) == x % Pow(256, n)
    decreases n
  {
    PowPositive(256, n);
    if n > 0 {
      DecodeEncode(x / 256, n - 1);
      var e := Encode(x, n);
      assert e[..n - 1] == Encode(x / 256, n - 1);
      PowPositive(256, n - 1);
      DivDiv(x, 256, Pow(256, n - 1));
    }
  }

  lemma {:induction false} EncodeDecode(s: seq<byte>)
    ensures Encode(Decode(s), |s|) == s
  {
    if s != [] {
      var n := |s|;
      EncodeDecode(s[..n - 1]);
      AddMulDiv(s[n - 1], Decode(s[..n - 1]), 256);
      assert s == s[..n - 1] + [s[n - 1]];
    }
  }

  /** Two encodings of values in range are equal only for equal values. */
  lemma EncodeInjective(x: int, y: int, n: nat)
    requires 0 <= x < Pow(256, n) && 0 <= y < Pow(256, n)
    requires Encode(x, n) == Encode(y, n)
    ensures x == y
  {
    DecodeEncode(x, n);
    DecodeEncode(y, n);
  }

  lemma PowersOf256()
    ensures Pow(256, 1) == 256 && Pow(256, 2) == 65536
    ensures Pow(256, 4) == 4294967296 && Pow(256, 8) == 18446744073709551616
  {
  }

  /** Leading zero bytes do not change the decoded value. */
  lemma {:induction false} DecodeLeadingZeros(z: seq<byte>, s: seq<byte>)
    requires forall i :: 0 <= i < |z| ==> z[i] == 0
    ensures Decode(z + s) == Decode(s)
    decreases |s|, |z|
  {
    if s == [] {
      if z != [] {
        assert z + s == z;
        assert z[..|z| - 1] + [] == z[..|z| - 1];
        DecodeLeadingZeros(z[..|z| - 1], []);
      }
    } else {
      assert (z + s)[..|z + s| - 1] == z + s[..|s| - 1];
      DecodeLeadingZeros(z, s[..|s| - 1]);
    }
  }
}
