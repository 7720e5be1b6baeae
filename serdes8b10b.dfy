/**
 * The signal stages of `_8b10b`: the helpers that build 9-bit data and
 * control words, the encoder that turns a pair of 9-bit words into a pair
 * of 10-bit symbols while it carries the running disparity, the decoder
 * that turns them back, the serialiser that sends a 20-bit symbol pair bit
 * by bit, and the deserialiser that finds the comma in a serial stream and
 * cuts it into 20-bit words again.
 *
 * Vectors are `Bits` values, index 0 the least significant bit; `a + b`
 * on `Bits` is `Concat(a, b)`.
 */
module LineSignals {
  import opened Wrappers
  import opened Arith
  import opened Signal
  import opened LineCode
  import Time

  // ---------------------------------------------------------------------
  // Data and control words

  /** Bits 0-4 from `five`, bits 5-7 from `three`, bit 8 from `k`. */
  function Word(five: int, three: int, k: int): seq<L9>
  {
    Concat(Concat(FromInt(five, 5), FromInt(three, 3)), FromInt(k, 1))
  }

  /** `D(five, three)`: the data word D.five.three. */
  function D(five: int, three: int): seq<L9>
  {
    Word(five, three, 0)
  }

  /** `K(five, three)`: the control word K.five.three. */
  function K(five: int, three: int): seq<L9>
  {
    Word(five, three, 1)
  }

  /** `dataSymbol(data)`: the low 8 bits of `data` with bit 8 clear. */
  function DataSymbol(data: int): seq<L9>
  {
    Concat(FromInt(data, 8), FromInt(0, 1))
  }

  /**
   * `symbolData(symbol)`: the AssertionError unless bit 8 reads as 0, then
   * the number of bits 0-7; either read raises on a bit that is not 0 or 1.
   */
  function SymbolData(symbol: seq<L9>): Result<nat>
  {
    match ToIntSpec(Slice(symbol, 8, 9))
    case Err(e) => Err(e)
    case Ok(k) => if k != 0 then Err(ASSERTION) else ToIntSpec(Slice(symbol, 0, 8))
  }

  /** A word is 9 pure bits holding `five` mod 32, `three` mod 8 above it and `k` mod 2 in bit 8. */
  lemma WordValue(five: int, three: int, k: int)
    ensures |Word(five, three, k)| == 9 && Pure(Word(five, three, k))
    ensures Value(Word(five, three, k)) == five % 32 + 32 * (three % 8) + 256 * (k % 2)
  {
    var a, b, c := FromInt(five, 5), FromInt(three, 3), FromInt(k, 1);
    ToIntOfFromInt(five, 5);
    ToIntOfFromInt(three, 3);
    ToIntOfFromInt(k, 1);
    ValueOfConcat(a, b);
    ValueOfConcat(Concat(a, b), c);
    assert Pow2(5) == 32 && Pow2(8) == 256 && Pow2(3) == 8 && Pow2(1) == 2;
  }

  /** With the fields in range, the word is `five + 32 * three + 256 * k`: its low byte is `five + 32 * three` and bit 8 is `k`. */
  lemma WordNumber(five: int, three: int, k: int)
    requires 0 <= five < 32 && 0 <= three < 8 && 0 <= k < 2
    ensures Pure(Word(five, three, k))
    ensures Value(Word(five, three, k)) == five + 32 * three + 256 * k
    ensures Value(Word(five, three, k)) % 256 == five + 32 * three
    ensures IsK(Value(Word(five, three, k))) <==> k == 1
  {
    WordValue(five, three, k);
    DivModUnique(five, 32, 0, five);
    DivModUnique(three, 8, 0, three);
    DivModUnique(k, 2, 0, k);
    var low := five + 32 * three;
    MulBelow(32, 8, three);
    var v := low + 256 * k;
    DivModUnique(v, 256, k, low);
  }

  /** `D(five, three)` is the data word `five + 32 * three` for a five below 32 and a three below 8. */
  lemma DValue(five: int, three: int)
    requires 0 <= five < 32 && 0 <= three < 8
    ensures Pure(D(five, three)) && Value(D(five, three)) == five + 32 * three && !IsK(Value(D(five, three)))
  {
    WordNumber(five, three, 0);
  }

  /** `K(five, three)` is the same word with bit 8, the control flag, set. */
  lemma KValue(five: int, three: int)
    requires 0 <= five < 32 && 0 <= three < 8
    ensures Pure(K(five, three)) && Value(K(five, three)) == 256 + five + 32 * three && IsK(Value(K(five, three)))
    ensures Value(K(five, three)) % 256 == five + 32 * three
  {
    WordNumber(five, three, 1);
  }

  /** Every data word encodes, at either running disparity. */
  lemma DEncodes(five: int, three: int, rd: int)
    requires 0 <= five < 32 && 0 <= three < 8 && (rd == -1 || rd == 1)
    ensures EncSpec(Value(D(five, three)), rd).Ok?
  {
    DValue(five, three);
    EncodeValid(Value(D(five, three)), rd);
  }

  /** A control word encodes exactly when its low byte is one of the allowed control bytes. */
  lemma KEncodes(five: int, three: int, rd: int)
    requires 0 <= five < 32 && 0 <= three < 8 && (rd == -1 || rd == 1)
    ensures EncSpec(Value(K(five, three)), rd).Ok? <==> five + 32 * three in KS
  {
    KValue(five, three);
    EncodeErrors(Value(K(five, three)), rd);
  }

  /** The two halves of a concatenation are read back by slicing. */
  lemma SliceConcat(a: seq<L9>, b: seq<L9>)
    ensures Slice(Concat(a, b), 0, |a|) == a && Slice(Concat(a, b), |a|, |a| + |b|) == b
  {
  }

  /** `symbolData(dataSymbol(d)) == d mod 256`. */
  lemma SymbolDataOfDataSymbol(data: int)
    ensures SymbolData(DataSymbol(data)) == Ok(data % 256)
  {
    var lo, hi := FromInt(data, 8), FromInt(0, 1);
    SliceConcat(lo, hi);
    ToIntOfFromInt(data, 8);
    ToIntOfFromInt(0, 1);
    assert Pow2(8) == 256;
  }

  /** `symbolData` of a data word gives its low byte; of a control word it fails its assertion. */
  lemma SymbolDataOfWords(five: int, three: int)
    requires 0 <= five < 32 && 0 <= three < 8
    ensures SymbolData(D(five, three)) == Ok(five + 32 * three)
    ensures SymbolData(K(five, three)) == Err(ASSERTION)
  {
    SymbolDataOfWord(five, three, 0);
    SymbolDataOfWord(five, three, 1);
  }

  lemma SymbolDataOfWord(five: int, three: int, k: int)
    requires 0 <= five < 32 && 0 <= three < 8 && 0 <= k < 2
    ensures SymbolData(Word(five, three, k)) == if k == 0 then Ok(five + 32 * three) else Err(ASSERTION)
  {
    var ab, c := Concat(FromInt(five, 5), FromInt(three, 3)), FromInt(k, 1);
    SliceConcat(ab, c);
    ToIntOfFromInt(k, 1);
    DivModUnique(k, 2, 0, k);
    assert Pow2(1) == 2;
    LowByte(five, three);
  }

  /** The low 8 bits of a word read as `five + 32 * three`. */
  lemma LowByte(five: int, three: int)
    requires 0 <= five < 32 && 0 <= three < 8
    ensures ToIntSpec(Concat(FromInt(five, 5), FromInt(three, 3))) == Ok(five + 32 * three)
  {
    var a, b := FromInt(five, 5), FromInt(three, 3);
    ToIntOfFromInt(five, 5);
    ToIntOfFromInt(three, 3);
    assert Pow2(5) == 32 && Pow2(3) == 8;
    DivModUnique(five, 32, 0, five);
    DivModUnique(three, 8, 0, three);
    ValueOfConcat(a, b);
  }

  // ---------------------------------------------------------------------
  // Encode: a pair of 9-bit words to a pair of 10-bit symbols

  /**
   * `Encode.next` on one change of the 18-bit input: bits 9-17 are encoded
   * at the running disparity, bits 0-8 at the disparity that leaves, and
   * the symbol of the low word goes to bits 0-9, that of the high word to
   * bits 10-19. The first result is the running disparity afterwards, left
   * unchanged by every error.
   */
  function EncodeStep(rd: int, chg: Change): (int, Result<Change>)
  {
    match ToIntSpec(Slice(chg.value, 9, 18))
    case Err(e) => (rd, Err(e))
    case Ok(hi) =>
      match EncSpec(hi, rd)
      case Err(e) => (rd, Err(e))
      case Ok((rd1, val1)) =>
        match ToIntSpec(Slice(chg.value, 0, 9))
        case Err(e) => (rd, Err(e))
        case Ok(lo) =>
          match EncSpec(lo, rd1)
          case Err(e) => (rd, Err(e))
          case Ok((rd2, val2)) => (rd2, Ok(Change(Concat(FromInt(val2, 10), FromInt(val1, 10)), chg.time, true)))
  }

  /** `Encode`: the running disparity, -1 at the start. */
  class Encoder {
    var rd: int

    constructor()
      ensures rd == -1
    {
      rd := -1;
    }

    /** `Encode.next`. */
    method Next(chg: Change) returns (r: Result<Change>)
      modifies this
      ensures (rd, r) == EncodeStep(old(rd), chg)
    {
      var hi := ToInt(Slice(chg.value, 9, 18));
      if hi.Err? {
        return Err(hi.error);
      }
      var e1 := Enc8b10b(hi.value, rd);
      if e1.Err? {
        return Err(e1.error);
      }
      var (rd1, val1) := e1.value;
      var lo := ToInt(Slice(chg.value, 0, 9));
      if lo.Err? {
        return Err(lo.error);
      }
      var e2 := Enc8b10b(lo.value, rd1);
      if e2.Err? {
        return Err(e2.error);
      }
      var (rd2, val2) := e2.value;
      rd := rd2;
      r := Ok(Change(Concat(FromInt(val2, 10), FromInt(val1, 10)), chg.time, true));
    }
  }

  /** Whatever the input, the running disparity stays -1 or +1. */
  lemma EncodeKeepsDisparity(rd: int, chg: Change)
    requires rd == -1 || rd == 1
    ensures EncodeStep(rd, chg).0 == -1 || EncodeStep(rd, chg).0 == 1
  {
    var hi := ToIntSpec(Slice(chg.value, 9, 18));
    if hi.Ok? && EncSpec(hi.value, rd).Ok? {
      var rd1 := EncSpec(hi.value, rd).value.0;
      EncodedDisparity(hi.value, rd);
      var lo := ToIntSpec(Slice(chg.value, 0, 9));
      if lo.Ok? && EncSpec(lo.value, rd1).Ok? {
        EncodedDisparity(lo.value, rd1);
      }
    }
  }

  /** What the encoder returns leaves the disparity at -1 or +1 and is a 10-bit symbol of a word below 0x1ff. */
  lemma EncodedDisparity(raw: int, rd: int)
    requires EncSpec(raw, rd).Ok?
    ensures var (nd, ten) := EncSpec(raw, rd).value; (nd == -1 || nd == 1) && 0 <= ten < 1024 && 0 <= raw < 0x1ff
  {
    EncodedRange(raw, rd);
    EncodeValid(raw, rd);
  }

  /** Only the words 0 to 0x1fe encode: 0x1ff, the control flag over the byte 0xff, is refused. */
  lemma EncodedRange(raw: int, rd: int)
    requires EncSpec(raw, rd).Ok?
    ensures 0 <= raw < 0x1ff && (rd == -1 || rd == 1) && (IsK(raw) ==> raw % 256 in KS)
  {
    EncodeErrors(raw, rd);
    FullWordIsBadK(raw);
  }

  lemma FullWordIsBadK(raw: int)
    ensures raw == 0x1ff ==> IsK(raw) && raw % 256 !in KS
  {
  }

  /**
   * An encoded pair is 20 pure bits: the symbol of the high word in bits
   * 10-19 and that of the low word, encoded at the disparity the high one
   * left, in bits 0-9.
   */
  lemma EncodePair(rd: int, chg: Change)
    requires EncodeStep(rd, chg).1.Ok?
    ensures var hi, lo := Value(Slice(chg.value, 9, 18)), Value(Slice(chg.value, 0, 9));
      var out := EncodeStep(rd, chg).1.value.value;
      var sym1 := EncSpec(hi, rd).value;
      var sym2 := EncSpec(lo, sym1.0).value;
      Pure(out) && |out| == 20 &&
      Value(out) == sym2.1 + 1024 * sym1.1 && EncodeStep(rd, chg).0 == sym2.0
  {
    var hi, lo := Value(Slice(chg.value, 9, 18)), Value(Slice(chg.value, 0, 9));
    var sym1 := EncSpec(hi, rd).value;
    var sym2 := EncSpec(lo, sym1.0).value;
    EncodedDisparity(hi, rd);
    EncodedDisparity(lo, sym1.0);
    SymbolPairValue(sym2.1, sym1.1);
  }

  /** Two 10-bit symbols side by side read as `low + 1024 * high`, and slice back apart. */
  lemma SymbolPairValue(low: int, high: int)
    requires 0 <= low < 1024 && 0 <= high < 1024
    ensures var out := Concat(FromInt(low, 10), FromInt(high, 10));
      Pure(out) && |out| == 20 && Value(out) == low + 1024 * high &&
      ToIntSpec(Slice(out, 0, 10)) == Ok(low) && ToIntSpec(Slice(out, 10, 20)) == Ok(high)
  {
    var a, b := FromInt(low, 10), FromInt(high, 10);
    ToIntOfFromInt(low, 10);
    ToIntOfFromInt(high, 10);
    assert Pow2(10) == 1024;
    DivModUnique(low, 1024, 0, low);
    DivModUnique(high, 1024, 0, high);
    ValueOfConcat(a, b);
    SliceConcat(a, b);
  }

  // ---------------------------------------------------------------------
  // Decode: a pair of 10-bit symbols to a pair of 9-bit words

  /** Nine unknown bits, what `Decode` gives for a symbol it cannot decode. */
  const UNKNOWN: seq<L9> := [X, X, X, X, X, X, X, X, X]

  /** The 9-bit vector of a decoded word. */
  function WordBits(w: Option<int>): seq<L9>
  {
    if w.None? then UNKNOWN else FromInt(w.value, 9)
  }

  /**
   * `Decode.next` on one change of the 20-bit input: bits 10-19 and then
   * bits 0-9 are decoded; the word of the low symbol goes to bits 0-8,
   * that of the high one to bits 9-17, and a symbol that decodes to
   * nothing gives nine X bits.
   */
  function DecodeStep(chg: Change): Result<Change>
  {
    match ToIntSpec(Slice(chg.value, 10, 20))
    case Err(e) => Err(e)
    case Ok(hi) =>
      match ToIntSpec(Slice(chg.value, 0, 10))
      case Err(e) => Err(e)
      case Ok(lo) => Ok(Change(Concat(WordBits(DecSpec(lo)), WordBits(DecSpec(hi))), chg.time, true))
  }

  /** `Decode.next`. */
  method DecodeNext(chg: Change) returns (r: Result<Change>)
    ensures r == DecodeStep(chg)
  {
    var hi := ToInt(Slice(chg.value, 10, 20));
    if hi.Err? {
      return Err(hi.error);
    }
    var val1 := Dec8b10b(hi.value);
    var lo := ToInt(Slice(chg.value, 0, 10));
    if lo.Err? {
      return Err(lo.error);
    }
    var val2 := Dec8b10b(lo.value);
    var bts1 := if val1.None? then UNKNOWN else FromInt(val1.value, 9);
    var bts2 := if val2.None? then UNKNOWN else FromInt(val2.value, 9);
    r := Ok(Change(Concat(bts2, bts1), chg.time, true));
  }

  /**
   * What the encoder sends decodes back to the two 9-bit words it read:
   * each symbol is found by the decoder's search as the word it was
   * encoded from. An input shorter than 18 bits comes back with its words
   * filled out to nine bits each.
   */
  lemma DecodeWords(rd: int, chg: Change)
    requires EncodeStep(rd, chg).1.Ok?
    ensures Pure(Slice(chg.value, 0, 9)) && Pure(Slice(chg.value, 9, 18))
    ensures var dec := DecodeStep(EncodeStep(rd, chg).1.value);
      dec.Ok? && dec.value.time == chg.time && Pure(dec.value.value) &&
      dec.value.value == Concat(FromInt(Value(Slice(chg.value, 0, 9)), 9), FromInt(Value(Slice(chg.value, 9, 18)), 9))
  {
    var hi, lo := Value(Slice(chg.value, 9, 18)), Value(Slice(chg.value, 0, 9));
    var sym1 := EncSpec(hi, rd).value;
    assert EncodeStep(rd, chg).1 == Ok(Change(Concat(FromInt(EncSpec(lo, sym1.0).value.1, 10), FromInt(sym1.1, 10)), chg.time, true));
    DecodePair(lo, hi, rd, chg.time);
  }

  /** The pair of symbols the encoder makes of two words decodes to those two words. */
  lemma DecodePair(lo: int, hi: int, rd: int, t: Time.Tme)
    requires EncSpec(hi, rd).Ok? && EncSpec(lo, EncSpec(hi, rd).value.0).Ok?
    ensures var sym1 := EncSpec(hi, rd).value;
      var sym2 := EncSpec(lo, sym1.0).value;
      DecodeStep(Change(Concat(FromInt(sym2.1, 10), FromInt(sym1.1, 10)), t, true)) ==
        Ok(Change(Concat(FromInt(lo, 9), FromInt(hi, 9)), t, true))
  {
    var sym1 := EncSpec(hi, rd).value;
    var sym2 := EncSpec(lo, sym1.0).value;
    EncodedDisparity(hi, rd);
    EncodedDisparity(lo, sym1.0);
    SymbolPairValue(sym2.1, sym1.1);
    DecodeOfEncode(hi, rd);
    DecodeOfEncode(lo, sym1.0);
  }

  /** The low 18 bits of the input go through the encoder and the decoder unchanged, at the input's time. */
  lemma DecodeOfEncoded(rd: int, chg: Change)
    requires EncodeStep(rd, chg).1.Ok? && 18 <= |chg.value|
    ensures var dec := DecodeStep(EncodeStep(rd, chg).1.value);
      dec.Ok? && dec.value.value == chg.value[..18] && dec.value.time == chg.time
  {
    DecodeWords(rd, chg);
    JoinWords(chg.value);
  }

  /** Two pure 9-bit slices, read as numbers and written back, give the 18 bits again. */
  lemma JoinWords(v: seq<L9>)
    requires 18 <= |v| && Pure(Slice(v, 0, 9)) && Pure(Slice(v, 9, 18))
    ensures Concat(FromInt(Value(Slice(v, 0, 9)), 9), FromInt(Value(Slice(v, 9, 18)), 9)) == v[..18]
  {
    var a, b := v[..9], v[9..18];
    FromIntOfValue(a);
    FromIntOfValue(b);
    assert a + b == v[..18];
  }

  // ---------------------------------------------------------------------
  // Serialize: 20-bit words to a serial bit stream

  /**
   * The serialiser: the word being sent (None before the first), the
   * index of the bit last sent, and the clock, a count of cycles.
   */
  datatype SerState = SerState(bits: Option<seq<L9>>, pos: int, clock: int)

  /** Before the first word nothing is sent yet; afterwards a 20-bit word is being sent. */
  predicate SerValid(s: SerState)
  {
    (s.bits.None? && s.pos == 0) || (s.bits.Some? && |s.bits.value| == 20 && 0 <= s.pos < 20)
  }

  /**
   * `Serialize.next`: steps down to the next bit; below bit 0 it takes the
   * next word of the 20-bit input (`fetch`) and starts again at bit 19.
   * The clock counts one cycle per bit, and the bit goes out as a 1-bit
   * change at that cycle.
   */
  function SerStep(s: SerState, fetch: seq<L9>): (r: (SerState, Change))
    requires SerValid(s) && |fetch| == 20
    ensures SerValid(r.0)
  {
    var p := s.pos - 1;
    var bits := if p < 0 then fetch else s.bits.value;
    var pos := if p < 0 then 19 else p;
    (SerState(Some(bits), pos, s.clock + 1), Change([bits[pos]], Time.OfInt(s.clock + 1, Time.Cycle), true))
  }

  /** `Serialize`. */
  class Serializer {
    var bits: Option<seq<L9>>
    var pos: int
    var clock: int

    function State(): SerState
      reads this
    {
      SerState(bits, pos, clock)
    }

    /** No word yet, position 0, clock at cycle 0. */
    constructor()
      ensures State() == SerState(None, 0, 0)
    {
      bits, pos, clock := None, 0, 0;
    }

    /** `Serialize.next`, with `fetch` the value the 20-bit input gives when the next word is read. */
    method Next(fetch: seq<L9>) returns (c: Change)
      requires SerValid(State()) && |fetch| == 20
      modifies this
      ensures (State(), c) == SerStep(old(State()), fetch)
    {
      pos := pos - 1;
      if pos < 0 {
        bits := Some(fetch);
        pos := 19;
      }
      clock := clock + 1;
      c := Change([bits.value[pos]], Time.OfInt(clock, Time.Cycle), true);
    }
  }

  /** `n` steps of the serialiser, each reading `w` if it needs a new word. */
  function SerSteps(s: SerState, w: seq<L9>, n: nat): (r: (SerState, seq<Change>))
    requires SerValid(s) && |w| == 20
    ensures SerValid(r.0) && |r.1| == n
  {
    if n == 0 then (s, [])
    else
      var (s1, out) := SerSteps(s, w, n - 1);
      var (s2, c) := SerStep(s1, w);
      (s2, out + [c])
  }

  /** The change that carries bit `19 - k` of `w` out at cycle `clock + k + 1`. */
  function SentBit(w: seq<L9>, clock: int, k: nat): Change
    requires k < 20 && |w| == 20
  {
    Change([w[19 - k]], Time.OfInt(clock + k + 1, Time.Cycle), true)
  }

  /**
   * From the start of a word, `n` steps send bits 19, 18, ... of the next
   * word, one cycle apart, and leave the serialiser at bit `20 - n`.
   */
  lemma {:induction false} SerStepsWord(s: SerState, w: seq<L9>, n: nat)
    requires SerValid(s) && s.pos == 0 && |w| == 20 && 1 <= n <= 20
    ensures SerSteps(s, w, n).0 == SerState(Some(w), 20 - n, s.clock + n)
    ensures forall k :: 0 <= k < n ==> SerSteps(s, w, n).1[k] == SentBit(w, s.clock, k)
  {
    if n > 1 {
      SerStepsWord(s, w, n - 1);
    }
  }

  /** A whole word goes out, most significant bit first, in 20 cycles, after which the next word is read. */
  lemma SerializeWord(s: SerState, w: seq<L9>)
    requires SerValid(s) && s.pos == 0 && |w| == 20
    ensures SerSteps(s, w, 20).0 == SerState(Some(w), 0, s.clock + 20)
    ensures SerSteps(s, w, 20).1 == seq(20, k requires 0 <= k < 20 => SentBit(w, s.clock, k))
  {
    SerStepsWord(s, w, 20);
  }

  // ---------------------------------------------------------------------
  // Deserialize: a serial bit stream to 20-bit words

  /** `KOMMA`, `8'b00111110`, and its complement `KOMMA_N`. */
  const COMMA: seq<L9> := FromInt(0x3e, 8)
  const COMMA_N: seq<L9> := FromInt(0xc1, 8)

  /** The comma is sent as 0011111 read from bit 7 down; its second form is every bit flipped. */
  lemma CommaBits()
    ensures COMMA == [L0, L1, L1, L1, L1, L1, L0, L0]
    ensures COMMA_N == [L1, L0, L0, L0, L0, L0, L1, L1]
  {
    assert COMMA[0] == L0 && COMMA[1] == L1 && COMMA[2] == L1 && COMMA[3] == L1;
    assert COMMA[4] == L1 && COMMA[5] == L1 && COMMA[6] == L0 && COMMA[7] == L0;
    assert COMMA_N[0] == L1 && COMMA_N[1] == L0 && COMMA_N[2] == L0 && COMMA_N[3] == L0;
    assert COMMA_N[4] == L0 && COMMA_N[5] == L0 && COMMA_N[6] == L1 && COMMA_N[7] == L1;
  }

  /** The deserialiser: the last bits seen, newest first; the bits of the current word so far; whether a comma was seen. */
  datatype DesState = DesState(buffer: seq<L9>, counter: int, aligned: bool)

  /** At most 20 bits are kept; before alignment nothing is counted; after it the count is of bits held. */
  predicate DesValid(s: DesState)
  {
    |s.buffer| <= 20 && 0 <= s.counter < 20 && (!s.aligned ==> s.counter == 0) && s.counter <= |s.buffer|
  }

  /**
   * `Deserialize._parse` on one change of the serial input: its bit 0 goes
   * in front of the buffer, which keeps 20 bits. Until aligned, the newest
   * 8 bits are compared with the comma and its complement; once aligned,
   * every 20th bit completes a word, which goes out with the time of that
   * bit.
   */
  function ParseStep(s: DesState, chg: Change): (DesState, Option<Change>)
    requires chg.value != []
  {
    var buf := [chg.value[0]] + Slice(s.buffer, 0, 19);
    if !s.aligned then
      var curr := Slice(buf, 0, 8);
      if curr == COMMA || curr == COMMA_N then (DesState(buf, 8, true), None)
      else (DesState(buf, s.counter, false), None)
    else if s.counter + 1 == 20 then (DesState(buf, 0, true), Some(Change(buf, chg.time, true)))
    else (DesState(buf, s.counter + 1, true), None)
  }

  /** Every change has a bit 0. */
  predicate Serial(chgs: seq<Change>)
  {
    forall i :: 0 <= i < |chgs| ==> chgs[i].value != []
  }

  /** `_parse` over a run of changes: the state after them and the words that came out. */
  function DesRun(s: DesState, chgs: seq<Change>): (DesState, seq<Change>)
    requires Serial(chgs)
  {
    if chgs == [] then (s, [])
    else
      var (s1, out) := DesRun(s, chgs[..|chgs| - 1]);
      var (s2, o) := ParseStep(s1, chgs[|chgs| - 1]);
      (s2, if o.Some? then out + [o.value] else out)
  }

  /** `Deserialize`. */
  class Deserializer {
    var buffer: seq<L9>
    var counter: int
    var aligned: bool

    function State(): DesState
      reads this
    {
      DesState(buffer, counter, aligned)
    }

    constructor()
      ensures State() == DesState([], 0, false)
    {
      buffer, counter, aligned := [], 0, false;
    }

    /** `Deserialize._parse`, with `chg` the change the serial input gives. */
    method Parse(chg: Change) returns (r: Option<Change>)
      requires chg.value != []
      modifies this
      ensures (State(), r) == ParseStep(old(State()), chg)
    {
      buffer := [chg.value[0]] + Slice(buffer, 0, 19);
      r := None;
      if !aligned {
        var curr := Slice(buffer, 0, 8);
        if curr == COMMA || curr == COMMA_N {
          aligned := true;
          counter := 8;
        }
      } else {
        counter := counter + 1;
        if counter == 20 {
          counter := 0;
          r := Some(Change(buffer, chg.time, true));
        }
      }
    }

    /**
     * `Deserialize.next`: parses the changes of `input` until a word comes
     * out; running out of input stands for the timeout, which returns
     * None. `used` is the number of changes parsed.
     */
    method Next(input: seq<Change>) returns (r: Option<Change>, used: nat)
      requires Serial(input)
      modifies this
      ensures used <= |input| && (r.None? ==> used == |input|)
      ensures State() == DesRun(old(State()), input[..used]).0
      ensures DesRun(old(State()), input[..used]).1 == if r.Some? then [r.value] else []
    {
      ghost var s0 := State();
      used := 0;
      r := None;
      while used < |input|
        invariant used <= |input|
        invariant State() == DesRun(s0, input[..used]).0 && DesRun(s0, input[..used]).1 == []
        decreases |input| - used
      {
        assert input[..used + 1][..used] == input[..used];
        var chg := Parse(input[used]);
        used := used + 1;
        if chg.Some? {
          return chg, used;
        }
      }
    }
  }

  /** One step keeps the state valid, and every word that comes out is 20 bits wide. */
  lemma ParseKeepsValid(s: DesState, chg: Change)
    requires DesValid(s) && chg.value != []
    ensures DesValid(ParseStep(s, chg).0)
    ensures ParseStep(s, chg).1.Some? ==> |ParseStep(s, chg).1.value.value| == 20
  {
  }

  /**
   * Before alignment nothing comes out, and the deserialiser aligns, with
   * 8 bits counted, exactly when the newest 8 bits are the comma or its
   * complement.
   */
  lemma ParseAligns(s: DesState, chg: Change)
    requires !s.aligned && chg.value != []
    ensures var (s1, o) := ParseStep(s, chg);
      var newest := Slice([chg.value[0]] + Slice(s.buffer, 0, 19), 0, 8);
      o.None? && (s1.aligned <==> newest == COMMA || newest == COMMA_N) && (s1.aligned ==> s1.counter == 8)
  {
  }

  /** Once aligned it stays aligned, and a word comes out exactly on the 20th bit counted. */
  lemma ParseAligned(s: DesState, chg: Change)
    requires s.aligned && DesValid(s) && chg.value != []
    ensures var (s1, o) := ParseStep(s, chg);
      s1.aligned && s1.counter == (if s.counter == 19 then 0 else s.counter + 1) && (o.Some? <==> s.counter == 19) &&
      (o.Some? ==> o.value == Change(s1.buffer, chg.time, true))
  {
  }

  /** Aligned, `n` more bits give exactly `(counter + n) / 20` words. */
  lemma {:induction false} DesRunCount(s: DesState, chgs: seq<Change>)
    requires s.aligned && DesValid(s) && Serial(chgs)
    ensures DesRun(s, chgs).0.aligned && DesValid(DesRun(s, chgs).0)
    ensures DesRun(s, chgs).0.counter == (s.counter + |chgs|) % 20
    ensures |DesRun(s, chgs).1| == (s.counter + |chgs|) / 20
  {
    if chgs == [] {
      DivModUnique(s.counter, 20, 0, s.counter);
    } else {
      var front, last := chgs[..|chgs| - 1], chgs[|chgs| - 1];
      DesRunCount(s, front);
      var s1 := DesRun(s, front).0;
      ParseAligned(s1, last);
      ParseKeepsValid(s1, last);
      CountStep(s.counter + |front|, s.counter + |chgs|, s1.counter, |DesRun(s, front).1|,
        DesRun(s, chgs).0.counter, |DesRun(s, chgs).1|, ParseStep(s1, last).1.Some?);
    }
  }

  /** The counter and the number of words after one more aligned bit, as remainder and quotient of the bits counted. */
  lemma CountStep(x: nat, y: nat, c1: nat, words: nat, c2: nat, words2: nat, more: bool)
    requires y == x + 1 && c1 == x % 20 && words == x / 20
    requires c2 == (if c1 == 19 then 0 else c1 + 1) && (more <==> c1 == 19)
    requires words2 == words + (if more then 1 else 0)
    ensures c2 == y % 20 && words2 == y / 20
  {
    DivModStep(x, 20);
  }

  /** Adding one to a number moves its remainder on by one, and its quotient up exactly when the remainder wraps. */
  lemma DivModStep(x: nat, d: nat)
    requires d > 0
    ensures (x + 1) % d == (if x % d + 1 == d then 0 else x % d + 1)
    ensures (x + 1) / d == x / d + (if x % d + 1 == d then 1 else 0)
  {
    if x % d + 1 == d {
      DivModUnique(x + 1, d, x / d + 1, 0);
    } else {
      DivModUnique(x + 1, d, x / d, x % d + 1);
    }
  }

  /** The changes that carry the bits of `w` from bit 19 down to bit 0. */
  predicate CarriesWord(chgs: seq<Change>, w: seq<L9>)
  {
    |chgs| == 20 && |w| == 20 && Serial(chgs) && forall k :: 0 <= k < 20 ==> chgs[k].value[0] == w[19 - k]
  }

  /** Clipped prefixes: the whole of a short sequence, a prefix of a prefix, and a prefix across a join. */
  lemma PrefixFacts(x: seq<L9>, y: seq<L9>, m: nat, n: nat)
    requires n <= m
    ensures |x| <= n ==> Slice(x, 0, n) == x
    ensures Slice(Slice(x, 0, m), 0, n) == Slice(x, 0, n)
    ensures |y| <= n ==> Slice(y + x, 0, n) == y + Slice(x, 0, n - |y|)
  {
  }

  /**
   * Aligned at a word boundary, the first `k` bits of a word sent from
   * bit 19 down sit newest first in front of the buffer, and nothing has
   * come out yet.
   */
  lemma {:induction false} DesWordPrefix(s: DesState, chgs: seq<Change>, w: seq<L9>, k: nat)
    requires s.aligned && DesValid(s) && s.counter == 0 && CarriesWord(chgs, w) && k < 20
    ensures DesRun(s, chgs[..k]) == (DesState(w[20 - k..] + Slice(s.buffer, 0, 20 - k), k, true), [])
  {
    if k == 0 {
      PrefixFacts(s.buffer, [], 20, 20);
      assert w[20..] == [];
    } else {
      DesWordPrefix(s, chgs, w, k - 1);
      assert chgs[..k][..k - 1] == chgs[..k - 1];
      DesBitIn(s, w, k);
    }
  }

  /** The buffer after `k - 1` bits of the word, with bit `20 - k` pushed in front. */
  lemma DesBitIn(s: DesState, w: seq<L9>, k: nat)
    requires |w| == 20 && 0 < k <= 20
    ensures [w[20 - k]] + Slice(w[21 - k..] + Slice(s.buffer, 0, 21 - k), 0, 19) == w[20 - k..] + Slice(s.buffer, 0, 20 - k)
  {
    var older, kept := w[21 - k..], Slice(s.buffer, 0, 21 - k);
    calc {
      [w[20 - k]] + Slice(older + kept, 0, 19);
      { PrefixFacts(kept, older, 19, 19); }
      [w[20 - k]] + (older + Slice(kept, 0, 20 - k));
      { PrefixFacts(s.buffer, [], 21 - k, 20 - k); }
      [w[20 - k]] + (older + Slice(s.buffer, 0, 20 - k));
      { assert [w[20 - k]] + older == w[20 - k..]; }
      w[20 - k..] + Slice(s.buffer, 0, 20 - k);
    }
  }

  /**
   * Aligned at a word boundary, a word sent from bit 19 down comes out
   * whole on its last bit, with that bit's time, and the deserialiser is at
   * the next boundary.
   */
  lemma DesWord(s: DesState, chgs: seq<Change>, w: seq<L9>)
    requires s.aligned && DesValid(s) && s.counter == 0 && CarriesWord(chgs, w)
    ensures DesRun(s, chgs) == (DesState(w, 0, true), [Change(w, chgs[19].time, true)])
  {
    DesWordPrefix(s, chgs, w, 19);
    var prev := DesState(w[1..] + Slice(s.buffer, 0, 1), 19, true);
    assert chgs[..19] == chgs[..|chgs| - 1];
    assert DesRun(s, chgs[..|chgs| - 1]) == (prev, []);
    DesBitIn(s, w, 20);
    assert [w[0]] + Slice(prev.buffer, 0, 19) == w;
    var step := ParseStep(prev, chgs[19]);
    assert step == (DesState(w, 0, true), Some(Change(w, chgs[19].time, true)));
    assert DesRun(s, chgs) == (step.0, [] + [step.1.value]);
    assert [] + [step.1.value] == [Change(w, chgs[19].time, true)];
  }

  /**
   * Serialising then deserialising gives the word back: a deserialiser
   * aligned at a word boundary that receives the 20 bits the serialiser
   * sends for a word returns that word, at the cycle of its last bit.
   */
  lemma SerializeDeserialize(d: DesState, s: SerState, w: seq<L9>)
    requires d.aligned && DesValid(d) && d.counter == 0
    requires SerValid(s) && s.pos == 0 && |w| == 20
    ensures Serial(SerSteps(s, w, 20).1)
    ensures DesRun(d, SerSteps(s, w, 20).1) == (DesState(w, 0, true), [Change(w, Time.OfInt(s.clock + 20, Time.Cycle), true)])
  {
    SerializeWord(s, w);
    var out := SerSteps(s, w, 20).1;
    assert CarriesWord(out, w) by {
      forall k | 0 <= k < 20
        ensures out[k].value != [] && out[k].value[0] == w[19 - k]
      {
        assert out[k] == SentBit(w, s.clock, k);
      }
    }
    DesWord(d, out, w);
    assert out[19] == SentBit(w, s.clock, 19);
  }
}
