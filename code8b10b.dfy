/**
 * The 8b/10b line code of IEEE 802.3 clause 36.2.4, as the table-driven
 * encoder of `_8b10b.code`: a 9-bit word `KHGFEDCBA` (the K flag, then the
 * three bits HGF, then the five bits EDCBA) becomes a 10-bit symbol
 * `abcdeifghj` — six bits for the five, four bits for the three — chosen
 * by the running disparity, which comes back updated.
 */
module LineCode {
  import opened Wrappers
  import opened Arith

  // ---------------------------------------------------------------------
  // Code tables

  /** A six-bit code `abcdei`, written digit by digit as the binary literals of the tables; `a` is the high bit. */
  datatype Six = Six(a: nat, b: nat, c: nat, d: nat, e: nat, i: nat)

  /** A four-bit code `fghj`; `f` is the high bit. */
  datatype Four = Four(f: nat, g: nat, h: nat, j: nat)

  function SixValue(s: Six): nat
  {
    32 * s.a + 16 * s.b + 8 * s.c + 4 * s.d + 2 * s.e + s.i
  }

  function FourValue(t: Four): nat
  {
    8 * t.f + 4 * t.g + 2 * t.h + t.j
  }

  predicate SixBits(s: Six)
  {
    s.a <= 1 && s.b <= 1 && s.c <= 1 && s.d <= 1 && s.e <= 1 && s.i <= 1
  }

  predicate FourBits(t: Four)
  {
    t.f <= 1 && t.g <= 1 && t.h <= 1 && t.j <= 1
  }

  function SixOnes(s: Six): nat
  {
    s.a + s.b + s.c + s.d + s.e + s.i
  }

  function FourOnes(t: Four): nat
  {
    t.f + t.g + t.h + t.j
  }

  /** A table entry: one code for either disparity, or a pair (taken at RD -1, taken at RD +1). */
  datatype Entry<T> = Code(c: T) | Alt(neg: T, pos: T)

  /** The member of an entry taken at disparity `rd`: the second of a pair exactly when `rd` is +1. */
  function Pick<T>(e: Entry<T>, rd: int): T
  {
    match e
    case Code(c) => c
    case Alt(n, p) => if rd == 1 then p else n
  }

  /** D.x: EDCBA -> abcdei, the code of data five `k` at index `k`. */
  const D56: seq<Entry<Six>> := [
    Alt(Six(1, 0, 0, 1, 1, 1), Six(0, 1, 1, 0, 0, 0)), Alt(Six(0, 1, 1, 1, 0, 1), Six(1, 0, 0, 0, 1, 0)),
    Alt(Six(1, 0, 1, 1, 0, 1), Six(0, 1, 0, 0, 1, 0)), Code(Six(1, 1, 0, 0, 0, 1)),
    Alt(Six(1, 1, 0, 1, 0, 1), Six(0, 0, 1, 0, 1, 0)), Code(Six(1, 0, 1, 0, 0, 1)),
    Code(Six(0, 1, 1, 0, 0, 1)), Alt(Six(1, 1, 1, 0, 0, 0), Six(0, 0, 0, 1, 1, 1)),
    Alt(Six(1, 1, 1, 0, 0, 1), Six(0, 0, 0, 1, 1, 0)), Code(Six(1, 0, 0, 1, 0, 1)),
    Code(Six(0, 1, 0, 1, 0, 1)), Code(Six(1, 1, 0, 1, 0, 0)),
    Code(Six(0, 0, 1, 1, 0, 1)), Code(Six(1, 0, 1, 1, 0, 0)),
    Code(Six(0, 1, 1, 1, 0, 0)), Alt(Six(0, 1, 0, 1, 1, 1), Six(1, 0, 1, 0, 0, 0)),
    Alt(Six(0, 1, 1, 0, 1, 1), Six(1, 0, 0, 1, 0, 0)), Code(Six(1, 0, 0, 0, 1, 1)),
    Code(Six(0, 1, 0, 0, 1, 1)), Code(Six(1, 1, 0, 0, 1, 0)),
    Code(Six(0, 0, 1, 0, 1, 1)), Code(Six(1, 0, 1, 0, 1, 0)),
    Code(Six(0, 1, 1, 0, 1, 0)), Alt(Six(1, 1, 1, 0, 1, 0), Six(0, 0, 0, 1, 0, 1)),
    Alt(Six(1, 1, 0, 0, 1, 1), Six(0, 0, 1, 1, 0, 0)), Code(Six(1, 0, 0, 1, 1, 0)),
    Code(Six(0, 1, 0, 1, 1, 0)), Alt(Six(1, 1, 0, 1, 1, 0), Six(0, 0, 1, 0, 0, 1)),
    Code(Six(0, 0, 1, 1, 1, 0)), Alt(Six(1, 0, 1, 1, 1, 0), Six(0, 1, 0, 0, 0, 1)),
    Alt(Six(0, 1, 1, 1, 1, 0), Six(1, 0, 0, 0, 0, 1)), Alt(Six(1, 0, 1, 0, 1, 1), Six(0, 1, 0, 1, 0, 0))]

  /** K.x: EDCBA -> abcdei, for the five values a control word may have. */
  const KFIVESIX: map<int, Entry<Six>> := map[
    0x17 := Alt(Six(1, 1, 1, 0, 1, 0), Six(0, 0, 0, 1, 0, 1)),
    0x1b := Alt(Six(1, 1, 0, 1, 1, 0), Six(0, 0, 1, 0, 0, 1)),
    0x1c := Alt(Six(0, 0, 1, 1, 1, 1), Six(1, 1, 0, 0, 0, 0)),
    0x1d := Alt(Six(1, 0, 1, 1, 1, 0), Six(0, 1, 0, 0, 0, 1)),
    0x1e := Alt(Six(0, 1, 1, 1, 1, 0), Six(1, 0, 0, 0, 0, 1))]

  /**
   * D.x.y: HGF -> fghj, the code of data three `k` at index `k`. The
   * source keeps the alternate D.x.A7 in the same dictionary under key
   * 0xf; here it is `DA7`.
   */
  const D34: seq<Entry<Four>> := [
    Alt(Four(1, 0, 1, 1), Four(0, 1, 0, 0)), Code(Four(1, 0, 0, 1)),
    Code(Four(0, 1, 0, 1)), Alt(Four(1, 1, 0, 0), Four(0, 0, 1, 1)),
    Alt(Four(1, 1, 0, 1), Four(0, 0, 1, 0)), Code(Four(1, 0, 1, 0)),
    Code(Four(0, 1, 1, 0)), Alt(Four(1, 1, 1, 0), Four(0, 0, 0, 1))]

  /** D.x.A7, the alternate code of data three 7. */
  const DA7: Entry<Four> := Alt(Four(0, 1, 1, 1), Four(1, 0, 0, 0))

  /** K.x.y: HGF -> fghj, the code of control three `k` at index `k`. */
  const K34: seq<Entry<Four>> := [
    Alt(Four(1, 0, 1, 1), Four(0, 1, 0, 0)), Alt(Four(0, 1, 1, 0), Four(1, 0, 0, 1)),
    Alt(Four(1, 0, 1, 0), Four(0, 1, 0, 1)), Alt(Four(1, 1, 0, 0), Four(0, 0, 1, 1)),
    Alt(Four(1, 1, 0, 1), Four(0, 0, 1, 0)), Alt(Four(0, 1, 0, 1), Four(1, 0, 1, 0)),
    Alt(Four(1, 0, 0, 1), Four(0, 1, 1, 0)), Alt(Four(0, 1, 1, 1), Four(1, 0, 0, 0))]

  /** The (disparity, five) pairs of data words x.7 that take the alternate D.x.A7. */
  const DXA7: seq<(int, int)> := [(-1, 17), (-1, 18), (-1, 20), (1, 11), (1, 13), (1, 14)]

  /** The low bytes a control word may have: K28.0-K28.7, K23.7, K27.7, K29.7, K30.7. */
  const KS: seq<int> := [0x1c, 0x3c, 0x5c, 0x7c, 0x9c, 0xbc, 0xdc, 0xfc, 0xf7, 0xfb, 0xfd, 0xfe]

  const ASSERTION: string := "AssertionError"
  const BAD_K: string := "bad K word"
  const BAD_WORD: string := "bad word"

  // ---------------------------------------------------------------------
  // Disparity

  /** The number of one bits of a non-negative number. */
  function Ones(n: nat): nat
  {
    if n == 0 then 0 else n % 2 + Ones(n / 2)
  }

  /** Ones minus zeros in a `len`-bit code. */
  function DispOf(num: nat, len: int): int
  {
    Ones(num) - (len - Ones(num))
  }

  /** `disparity`: the count, and the AssertionError raised unless it is -2, 0 or 2. */
  function DisparitySpec(num: nat, len: int): Result<int>
  {
    var d := DispOf(num, len);
    if d == -2 || d == 0 || d == 2 then Ok(d) else Err(ASSERTION)
  }

  /** `disparity`: counts the one bits by halving until nothing is left. */
  method Disparity(num: nat, len: int) returns (r: Result<int>)
    ensures r == DisparitySpec(num, len)
  {
    var count := 0;
    var sr := num;
    while sr != 0
      invariant count + Ones(sr) == Ones(num)
    {
      if sr % 2 == 1 {
        count := count + 1;
      }
      sr := sr / 2;
    }
    var d := count - (len - count);
    if d == -2 || d == 0 || d == 2 {
      r := Ok(d);
    } else {
      r := Err(ASSERTION);
    }
  }

  /** Appending a bit below a number adds that bit to its count of ones. */
  lemma OnesStep(x: nat, bit: int, y: nat)
    requires 0 <= bit <= 1 && y == 2 * x + bit
    ensures Ones(y) == bit + Ones(x)
  {
    if y != 0 {
      Halve(x, bit);
    }
  }

  /** A six-bit code is below 64 and has as many ones as digits that are 1. */
  lemma SixCount(s: Six)
    requires SixBits(s)
    ensures SixValue(s) < 64 && Ones(SixValue(s)) == SixOnes(s)
  {
    var x1: nat := s.a;
    var x2: nat := 2 * x1 + s.b;
    var x3: nat := 2 * x2 + s.c;
    var x4: nat := 2 * x3 + s.d;
    var x5: nat := 2 * x4 + s.e;
    var x6: nat := 2 * x5 + s.i;
    OnesStep(0, s.a, x1);
    OnesStep(x1, s.b, x2);
    OnesStep(x2, s.c, x3);
    OnesStep(x3, s.d, x4);
    OnesStep(x4, s.e, x5);
    OnesStep(x5, s.i, x6);
    assert SixValue(s) == x6;
  }

  /** A four-bit code is below 16 and has as many ones as digits that are 1. */
  lemma FourCount(t: Four)
    requires FourBits(t)
    ensures FourValue(t) < 16 && Ones(FourValue(t)) == FourOnes(t)
  {
    var x1: nat := t.f;
    var x2: nat := 2 * x1 + t.g;
    var x3: nat := 2 * x2 + t.h;
    var x4: nat := 2 * x3 + t.j;
    OnesStep(0, t.f, x1);
    OnesStep(x1, t.g, x2);
    OnesStep(x2, t.h, x3);
    OnesStep(x3, t.j, x4);
    assert FourValue(t) == x4;
  }

  /**
   * An entry fit for the six-bit half: a single code is balanced, a pair's
   * first code has disparity 0 or +2 and its second the opposite.
   */
  predicate Balanced6(e: Entry<Six>)
  {
    match e
    case Code(c) => SixBits(c) && SixOnes(c) == 3
    case Alt(n, p) => SixBits(n) && SixBits(p) && (SixOnes(n) == 3 || SixOnes(n) == 4) && SixOnes(p) == 6 - SixOnes(n)
  }

  /** The same for the four-bit half. */
  predicate Balanced4(e: Entry<Four>)
  {
    match e
    case Code(c) => FourBits(c) && FourOnes(c) == 2
    case Alt(n, p) => FourBits(n) && FourBits(p) && (FourOnes(n) == 2 || FourOnes(n) == 3) && FourOnes(p) == 4 - FourOnes(n)
  }

  lemma D56Balanced()
    ensures forall k :: 0 <= k < |D56| ==> Balanced6(D56[k])
  {
  }

  lemma KFiveSixBalanced()
    ensures forall k :: k in KFIVESIX ==> Balanced6(KFIVESIX[k])
  {
  }

  lemma D34Balanced()
    ensures forall k :: 0 <= k < |D34| ==> Balanced4(D34[k])
    ensures Balanced4(DA7)
  {
  }

  lemma K34Balanced()
    ensures forall k :: 0 <= k < |K34| ==> Balanced4(K34[k])
  {
  }

  /** The disparity of a six-bit code, from its digits. */
  function SixDisp(s: Six): int
  {
    2 * SixOnes(s) - 6
  }

  /** The disparity of a four-bit code, from its digits. */
  function FourDisp(t: Four): int
  {
    2 * FourOnes(t) - 4
  }

  /** What `disparity(six, 6)` counts for a code with bit digits is the disparity of its digits. */
  lemma SixDisparity(s: Six)
    requires SixBits(s)
    ensures DispOf(SixValue(s), 6) == SixDisp(s)
  {
    SixCount(s);
  }

  /** The same for `disparity(four, 4)`. */
  lemma FourDisparity(t: Four)
    requires FourBits(t)
    ensures DispOf(FourValue(t), 4) == FourDisp(t)
  {
    FourCount(t);
  }

  /** A pick from a balanced six-bit entry at disparity -1 or +1 is a six-bit code that leaves the disparity at -1 or +1. */
  lemma PickSix(e: Entry<Six>, rd: int)
    requires Balanced6(e) && (rd == -1 || rd == 1)
    ensures SixBits(Pick(e, rd)) && SixValue(Pick(e, rd)) < 64
    ensures SixDisp(Pick(e, rd)) in {-2, 0, 2}
    ensures rd + SixDisp(Pick(e, rd)) == -1 || rd + SixDisp(Pick(e, rd)) == 1
  {
    SixCount(Pick(e, rd));
  }

  /** The same for a four-bit entry. */
  lemma PickFour(e: Entry<Four>, rd: int)
    requires Balanced4(e) && (rd == -1 || rd == 1)
    ensures FourBits(Pick(e, rd)) && FourValue(Pick(e, rd)) < 16
    ensures FourDisp(Pick(e, rd)) in {-2, 0, 2}
    ensures rd + FourDisp(Pick(e, rd)) == -1 || rd + FourDisp(Pick(e, rd)) == 1
  {
    FourCount(Pick(e, rd));
  }

  // ---------------------------------------------------------------------
  // Encoding

  /** Bit 8 of the word: a control (K) word. */
  predicate IsK(raw: int)
  {
    (raw / 256) % 2 == 1
  }

  /**
   * The table lookups of `enc8b10b`: the six-bit entry of the five and the
   * four-bit entry of the three (of the alternate D.x.A7 for data words
   * x.7 whose disparity and five are listed in `DXA7`), or the error
   * raised before them.
   */
  function Lookup(raw: int, rd: int): Result<(Entry<Six>, Entry<Four>)>
  {
    if !(0 <= raw <= 0x1ff) || !(rd == -1 || rd == 1) then Err(ASSERTION)
    else if IsK(raw) && raw % 256 !in KS then Err(BAD_K)
    else if IsK(raw) then ControlLookup(raw % 32, (raw / 32) % 8)
    else Ok(DataLookup(raw % 32, (raw / 32) % 8, TakesA7(raw, rd)))
  }

  /** The entries of a control word: a five without a control code raises `bad word`. */
  function ControlLookup(five: int, three: int): Result<(Entry<Six>, Entry<Four>)>
    requires 0 <= three < 8
  {
    if five !in KFIVESIX then Err(BAD_WORD) else Ok((KFIVESIX[five], K34[three]))
  }

  /** A data word whose three is 7, at a disparity and with a five that `DXA7` lists, takes the alternate D.x.A7. */
  predicate TakesA7(raw: int, rd: int)
  {
    (raw / 32) % 8 == 7 && (rd, raw % 32) in DXA7
  }

  /** The entries of a data word: the alternate D.x.A7 when `alt`, else the code of the three. */
  function DataLookup(five: int, three: int, alt: bool): (Entry<Six>, Entry<Four>)
    requires 0 <= five < 32 && 0 <= three < 8
  {
    (D56[five], DataFour(three, alt))
  }

  /** The four-bit entry of a data word. */
  function DataFour(three: int, alt: bool): Entry<Four>
    requires 0 <= three < 8
  {
    if alt then DA7 else D34[three]
  }

  /**
   * The rest of `enc8b10b`: the six-bit code picked by `rd`, the four-bit
   * code by the disparity after it, the disparity after both, and the
   * symbol `(six << 4) | four`, written `six * 16 + four` since `four` is
   * below 16. The disparities are those `disparity` counts (`SixDisparity`,
   * `FourDisparity`); that its assertion never fails on table codes is
   * what `AssembleCodes` proves.
   */
  function Assemble(sixs: Entry<Six>, fours: Entry<Four>, rd: int): (int, int)
  {
    var six := Pick(sixs, rd);
    var nd0 := rd + SixDisp(six);
    var four := Pick(fours, nd0);
    (nd0 + FourDisp(four), Symbol(six, four))
  }

  /** The 10-bit symbol `(six << 4) | four`, written `six * 16 + four` since `four` is below 16. */
  function Symbol(six: Six, four: Four): int
  {
    SixValue(six) * 16 + FourValue(four)
  }

  /** `enc8b10b`: the new running disparity and the 10-bit symbol, or the error raised. */
  function EncSpec(raw: int, rd: int): Result<(int, int)>
  {
    match Lookup(raw, rd)
    case Err(e) => Err(e)
    case Ok((sixs, fours)) => Ok(Assemble(sixs, fours, rd))
  }

  /** The five of every allowed control byte has a control code. */
  lemma KWordFive(b: int)
    requires b in KS
    ensures b % 32 in KFIVESIX
  {
  }

  /** For a word in range, at a disparity of -1 or +1, that is data or an allowed control word, the lookups succeed and give balanced entries. */
  lemma LookupValid(raw: int, rd: int)
    requires 0 <= raw <= 0x1ff && (rd == -1 || rd == 1) && (IsK(raw) ==> raw % 256 in KS)
    ensures Lookup(raw, rd).Ok? && Balanced6(Lookup(raw, rd).value.0) && Balanced4(Lookup(raw, rd).value.1)
  {
    var five, three := raw % 32, (raw / 32) % 8;
    if IsK(raw) {
      KWordFive(raw % 256);
      ModOfMod(raw, 32, 8);
      ControlEntries(five, three);
    } else {
      DataEntries(five, three, TakesA7(raw, rd));
    }
  }

  /** Every lookup that succeeds gives balanced entries. */
  lemma LookupBalanced(raw: int, rd: int)
    requires Lookup(raw, rd).Ok?
    ensures (rd == -1 || rd == 1) && Balanced6(Lookup(raw, rd).value.0) && Balanced4(Lookup(raw, rd).value.1)
  {
    LookupValid(raw, rd);
  }

  lemma ControlEntries(five: int, three: int)
    requires five in KFIVESIX && 0 <= three < 8
    ensures ControlLookup(five, three).Ok?
    ensures Balanced6(ControlLookup(five, three).value.0) && Balanced4(ControlLookup(five, three).value.1)
  {
    KFiveSixBalanced();
    K34Balanced();
  }

  lemma D56At(five: int)
    requires 0 <= five < 32
    ensures Balanced6(D56[five])
  {
    D56Balanced();
  }

  lemma D34At(three: int)
    requires 0 <= three < 8
    ensures Balanced4(D34[three]) && Balanced4(DA7)
  {
    D34Balanced();
  }

  lemma DataFourBalanced(three: int, alt: bool)
    requires 0 <= three < 8
    ensures Balanced4(DataFour(three, alt))
  {
    if !alt {
      D34At(three);
    }
  }

  lemma DataEntries(five: int, three: int, alt: bool)
    requires 0 <= five < 32 && 0 <= three < 8
    ensures Balanced6(DataLookup(five, three, alt).0) && Balanced4(DataLookup(five, three, alt).1)
  {
    D56At(five);
    DataFourBalanced(three, alt);
  }

  /**
   * The symbol of balanced entries has 10 bits: its high six are the
   * six-bit code picked and its low four the four-bit code picked.
   */
  lemma AssembleHalves(sixs: Entry<Six>, fours: Entry<Four>, rd: int)
    requires Balanced6(sixs) && Balanced4(fours) && (rd == -1 || rd == 1)
    ensures var six := Pick(sixs, rd);
      var four := Pick(fours, rd + SixDisp(six));
      var ten := Assemble(sixs, fours, rd).1;
      0 <= ten < 1024 && ten / 16 == SixValue(six) && ten % 16 == FourValue(four)
  {
    var six := Pick(sixs, rd);
    PickSix(sixs, rd);
    var four := Pick(fours, rd + SixDisp(six));
    PickFour(fours, rd + SixDisp(six));
    SymbolHalves(six, four);
  }

  /** The high six bits of a symbol are its six-bit code, the low four its four-bit code. */
  lemma SymbolHalves(six: Six, four: Four)
    requires SixBits(six) && FourBits(four)
    ensures 0 <= Symbol(six, four) < 1024 && Symbol(six, four) / 16 == SixValue(six) && Symbol(six, four) % 16 == FourValue(four)
  {
    SixCount(six);
    FourCount(four);
    DivModUnique(Symbol(six, four), 16, SixValue(six), FourValue(four));
  }

  /** The high six bits of the symbol are a code of the six-bit entry, the low four a code of the four-bit entry. */
  lemma AssembleCodesOf(sixs: Entry<Six>, fours: Entry<Four>, rd: int)
    requires Balanced6(sixs) && Balanced4(fours) && (rd == -1 || rd == 1)
    ensures var ten := Assemble(sixs, fours, rd).1;
      ten / 16 in Codes6(sixs) && ten % 16 in Codes4(fours)
  {
    AssembleHalves(sixs, fours, rd);
  }

  /** The values of the codes of a six-bit entry. */
  function Codes6(e: Entry<Six>): set<nat>
  {
    match e
    case Code(c) => {SixValue(c)}
    case Alt(n, p) => {SixValue(n), SixValue(p)}
  }

  /** The values of the codes of a four-bit entry. */
  function Codes4(e: Entry<Four>): set<nat>
  {
    match e
    case Code(c) => {FourValue(c)}
    case Alt(n, p) => {FourValue(n), FourValue(p)}
  }

  /**
   * A word in range, at a disparity of -1 or +1, that is data or an
   * allowed control word encodes: the new disparity is again -1 or +1, it
   * is `rd` plus the disparities of the six- and four-bit halves, and the
   * symbol has 10 bits.
   */
  lemma EncodeValid(raw: int, rd: int)
    requires 0 <= raw <= 0x1ff && (rd == -1 || rd == 1) && (IsK(raw) ==> raw % 256 in KS)
    ensures EncSpec(raw, rd).Ok?
    ensures var (nd, ten) := EncSpec(raw, rd).value;
      (nd == -1 || nd == 1) && 0 <= ten < 1024 && nd == rd + DispOf(ten / 16, 6) + DispOf(ten % 16, 4)
  {
    LookupValid(raw, rd);
    EncOfLookup(raw, rd);
    EntriesEncode(Lookup(raw, rd).value.0, Lookup(raw, rd).value.1, rd);
  }

  /** `EncodeValid` for the entries looked up. */
  lemma EntriesEncode(sixs: Entry<Six>, fours: Entry<Four>, rd: int)
    requires Balanced6(sixs) && Balanced4(fours) && (rd == -1 || rd == 1)
    ensures var (nd, ten) := Assemble(sixs, fours, rd);
      (nd == -1 || nd == 1) && 0 <= ten < 1024 && nd == rd + DispOf(ten / 16, 6) + DispOf(ten % 16, 4)
  {
    var six := Pick(sixs, rd);
    PickSix(sixs, rd);
    var four := Pick(fours, rd + SixDisp(six));
    PickFour(fours, rd + SixDisp(six));
    SymbolHalves(six, four);
    HalvesDisparity(six, four, Symbol(six, four));
  }

  /** The disparities of the halves of a symbol built from two codes are those of the codes. */
  lemma HalvesDisparity(six: Six, four: Four, ten: int)
    requires SixBits(six) && FourBits(four) && 0 <= ten && ten / 16 == SixValue(six) && ten % 16 == FourValue(four)
    ensures DispOf(ten / 16, 6) == SixDisp(six) && DispOf(ten % 16, 4) == FourDisp(four)
  {
    SixDisparity(six);
    FourDisparity(four);
  }

  /**
   * `enc8b10b` raises exactly for a word out of range or a disparity other
   * than -1 and +1 (the assertions) and for a control word outside `KS`;
   * the `bad word` lookup failure never happens.
   */
  lemma EncodeErrors(raw: int, rd: int)
    ensures EncSpec(raw, rd).Err? <==>
      !(0 <= raw <= 0x1ff) || !(rd == -1 || rd == 1) || (IsK(raw) && raw % 256 !in KS)
    ensures EncSpec(raw, rd).Err? ==>
      EncSpec(raw, rd).error == if 0 <= raw <= 0x1ff && (rd == -1 || rd == 1) then BAD_K else ASSERTION
  {
    if 0 <= raw <= 0x1ff && (rd == -1 || rd == 1) && (IsK(raw) ==> raw % 256 in KS) {
      LookupValid(raw, rd);
    }
  }

  /** No code of the entry is `0111` or `1000`, the codes of D.x.A7. */
  predicate AvoidsA7(e: Entry<Four>)
  {
    match e
    case Code(c) => FourValue(c) != 7 && FourValue(c) != 8
    case Alt(n, p) => FourValue(n) != 7 && FourValue(n) != 8 && FourValue(p) != 7 && FourValue(p) != 8
  }

  /** No code of the ordinary data table is `0111` or `1000`, the codes of D.x.A7. */
  lemma D34AvoidsA7()
    ensures forall k :: 0 <= k < |D34| ==> AvoidsA7(D34[k])
  {
  }

  /** The four-bit code a data word picks is `0111` or `1000` exactly when it takes the alternate. */
  lemma DataFourA7(three: int, alt: bool, d: int)
    requires 0 <= three < 8
    ensures var v := FourValue(Pick(DataFour(three, alt), d)); (v == 7 || v == 8) <==> alt
  {
    if !alt {
      D34AvoidsA7();
      assert AvoidsA7(D34[three]);
    }
  }

  /**
   * A data word's symbol ends in the alternate four-bit code `0111` or
   * `1000` exactly when its three is 7 and its disparity and five are
   * listed in `DXA7`.
   */
  lemma DataA7(raw: int, rd: int)
    requires EncSpec(raw, rd).Ok? && !IsK(raw)
    ensures var ten := EncSpec(raw, rd).value.1;
      (ten % 16 == 7 || ten % 16 == 8) <==> TakesA7(raw, rd)
  {
    EncodeErrors(raw, rd);
    var five, three, alt := raw % 32, (raw / 32) % 8, TakesA7(raw, rd);
    assert Lookup(raw, rd) == Ok((D56[five], DataFour(three, alt)));
    EncOfLookup(raw, rd);
    DataSymbolA7(five, three, alt, rd);
  }

  lemma DataSymbolA7(five: int, three: int, alt: bool, rd: int)
    requires 0 <= five < 32 && 0 <= three < 8 && (rd == -1 || rd == 1)
    ensures var ten := Assemble(D56[five], DataFour(three, alt), rd).1; (ten % 16 == 7 || ten % 16 == 8) <==> alt
  {
    var sixs, fours := D56[five], DataFour(three, alt);
    D56At(five);
    DataFourBalanced(three, alt);
    AssembleHalves(sixs, fours, rd);
    DataFourA7(three, alt, rd + SixDisp(Pick(sixs, rd)));
  }

  /** A lookup that succeeds is assembled. */
  lemma EncOfLookup(raw: int, rd: int)
    requires Lookup(raw, rd).Ok?
    ensures EncSpec(raw, rd) == Ok(Assemble(Lookup(raw, rd).value.0, Lookup(raw, rd).value.1, rd))
  {
  }

  /** `enc8b10b` as the source computes it, calling `disparity` for each half. */
  method Enc8b10b(raw: int, rd: int) returns (r: Result<(int, int)>)
    ensures r == EncSpec(raw, rd)
  {
    var lk := Lookup(raw, rd);
    if lk.Err? {
      return Err(lk.error);
    }
    LookupBalanced(raw, rd);
    var (sixs, fours) := lk.value;
    var enc := AssembleCodes(sixs, fours, rd);
    r := Ok(enc);
  }

  /**
   * The assembly of `enc8b10b`, calling `disparity` for each half: on
   * balanced entries neither call fails its assertion.
   */
  method AssembleCodes(sixs: Entry<Six>, fours: Entry<Four>, rd: int) returns (r: (int, int))
    requires Balanced6(sixs) && Balanced4(fours) && (rd == -1 || rd == 1)
    ensures r == Assemble(sixs, fours, rd)
  {
    var six := Pick(sixs, rd);
    PickSix(sixs, rd);
    var d6 := SixDisparityCall(six);
    var nd0 := rd + d6;
    var four := Pick(fours, nd0);
    PickFour(fours, nd0);
    var d4 := FourDisparityCall(four);
    r := (nd0 + d4, Symbol(six, four));
  }

  /** `disparity(six, 6)` on a six-bit code whose count is -2, 0 or 2: the assertion passes and the count is returned. */
  method SixDisparityCall(s: Six) returns (r: int)
    requires SixBits(s) && SixDisp(s) in {-2, 0, 2}
    ensures r == SixDisp(s)
  {
    SixDisparity(s);
    var res := Disparity(SixValue(s), 6);
    r := res.value;
  }

  /** `disparity(four, 4)` on a four-bit code whose count is -2, 0 or 2. */
  method FourDisparityCall(t: Four) returns (r: int)
    requires FourBits(t) && FourDisp(t) in {-2, 0, 2}
    ensures r == FourDisp(t)
  {
    FourDisparity(t);
    var res := Disparity(FourValue(t), 4);
    r := res.value;
  }


  // ---------------------------------------------------------------------
  // Decoding

  /** Encoding `raw` at disparity `rd` gives the symbol `enc`. */
  predicate Hit(raw: int, rd: int, enc: int)
  {
    EncSpec(raw, rd).Ok? && EncSpec(raw, rd).value.1 == enc
  }

  /** The words that encode to `enc` at `rd`, as a test. */
  function HitAt(rd: int, enc: int): int -> bool
  {
    x => Hit(x, rd, enc)
  }

  /** The first number from `from` on, below 0x1ff, that passes the test. */
  function FindFirst(p: int -> bool, from: nat): Option<int>
    decreases 0x1ff - from
  {
    if from >= 0x1ff then None
    else if p(from) then Some(from)
    else FindFirst(p, from + 1)
  }

  /** `dec8b10b`: the first word below 0x1ff that encodes to `enc`, trying disparity -1 first, then +1. */
  function DecSpec(enc: int): Option<int>
  {
    var a := FindFirst(HitAt(-1, enc), 0);
    if a.Some? then a else FindFirst(HitAt(1, enc), 0)
  }

  /** What the search finds is the first number from `from` on that passes; when it finds nothing, none does. */
  lemma {:induction false} FindFirstFacts(p: int -> bool, from: nat)
    ensures FindFirst(p, from).Some? ==>
      from <= FindFirst(p, from).value < 0x1ff && p(FindFirst(p, from).value) &&
      forall x :: from <= x < FindFirst(p, from).value ==> !p(x)
    ensures FindFirst(p, from).None? ==> forall x :: from <= x < 0x1ff ==> !p(x)
    decreases 0x1ff - from
  {
    if from < 0x1ff && !p(from) {
      FindFirstFacts(p, from + 1);
    }
  }

  /**
   * `dec8b10b` returns a word exactly when some word below 0x1ff encodes
   * to `enc` at disparity -1 or +1, and what it returns is such a word.
   */
  lemma DecodeMeans(enc: int)
    ensures DecSpec(enc).Some? ==>
      0 <= DecSpec(enc).value < 0x1ff && (Hit(DecSpec(enc).value, -1, enc) || Hit(DecSpec(enc).value, 1, enc))
    ensures DecSpec(enc).None? <==>
      forall raw, rd :: 0 <= raw < 0x1ff && (rd == -1 || rd == 1) ==> !Hit(raw, rd, enc)
  {
    var lo, hi := HitAt(-1, enc), HitAt(1, enc);
    FindFirstFacts(lo, 0);
    FindFirstFacts(hi, 0);
    if DecSpec(enc).None? {
      forall raw, rd | 0 <= raw < 0x1ff && (rd == -1 || rd == 1)
        ensures !Hit(raw, rd, enc)
      {
        assert !lo(raw) && !hi(raw);
      }
    } else {
      var v := DecSpec(enc).value;
      assert lo(v) || hi(v);
    }
  }

  /** Every symbol the encoder gives for a word below 0x1ff decodes. */
  lemma DecodesEncoded(raw: int, rd: int)
    requires 0 <= raw < 0x1ff && EncSpec(raw, rd).Ok?
    ensures DecSpec(EncSpec(raw, rd).value.1).Some?
  {
    EncodeErrors(raw, rd);
    var enc := EncSpec(raw, rd).value.1;
    assert Hit(raw, rd, enc);
    DecodeMeans(enc);
  }

  /** The five whose data code has the six-bit value `v`, -1 for a value no data code has. */
  function SixFive(v: int): int
  {
    match v
    case 5 => 23
    case 6 => 8
    case 7 => 7
    case 9 => 27
    case 10 => 4
    case 11 => 20
    case 12 => 24
    case 13 => 12
    case 14 => 28
    case 17 => 29
    case 18 => 2
    case 19 => 18
    case 20 => 31
    case 21 => 10
    case 22 => 26
    case 23 => 15
    case 24 => 0
    case 25 => 6
    case 26 => 22
    case 27 => 16
    case 28 => 14
    case 29 => 1
    case 30 => 30
    case 33 => 30
    case 34 => 1
    case 35 => 17
    case 36 => 16
    case 37 => 9
    case 38 => 25
    case 39 => 0
    case 40 => 15
    case 41 => 5
    case 42 => 21
    case 43 => 31
    case 44 => 13
    case 45 => 2
    case 46 => 29
    case 49 => 3
    case 50 => 19
    case 51 => 24
    case 52 => 11
    case 53 => 4
    case 54 => 27
    case 56 => 7
    case 57 => 8
    case 58 => 23
    case _ => -1
  }

  /** The three whose data code has the four-bit value `v`; 7 for `0111` and `1000`, the codes of D.x.A7. */
  function FourThree(v: int): int
  {
    match v
    case 1 => 7
    case 2 => 4
    case 3 => 3
    case 5 => 2
    case 6 => 6
    case 7 => 7
    case 8 => 7
    case 9 => 1
    case 10 => 5
    case 12 => 3
    case 13 => 4
    case 14 => 7
    case _ => 0
  }

  /** The three of a K28 word whose four-bit code, taken at disparity +1, has the value `v`. */
  function KPosThree(v: int): int
  {
    match v
    case 2 => 4
    case 3 => 3
    case 5 => 2
    case 6 => 6
    case 8 => 7
    case 9 => 1
    case 10 => 5
    case _ => 0
  }

  /** The same at disparity -1. */
  function KNegThree(v: int): int
  {
    match v
    case 5 => 5
    case 6 => 1
    case 7 => 7
    case 9 => 6
    case 10 => 2
    case 12 => 3
    case 13 => 4
    case _ => 0
  }

  /** Every code of the entry is a six-bit value that `SixFive` maps to `k`. */
  predicate SixInverts(e: Entry<Six>, k: int)
  {
    match e
    case Code(c) => SixFive(SixValue(c)) == k
    case Alt(n, p) => SixFive(SixValue(n)) == k && SixFive(SixValue(p)) == k
  }

  /** Every code of the entry is a four-bit value that `FourThree` maps to `k`. */
  predicate FourInverts(e: Entry<Four>, k: int)
  {
    match e
    case Code(c) => FourThree(FourValue(c)) == k
    case Alt(n, p) => FourThree(FourValue(n)) == k && FourThree(FourValue(p)) == k
  }

  /** No two data fives share a six-bit code, and no data code is `001111` or `110000`, the codes of K28. */
  lemma D56Inverts()
    ensures forall k :: 0 <= k < |D56| ==> SixInverts(D56[k], k)
    ensures SixFive(15) == -1 && SixFive(48) == -1
  {
    D56InvertsQuarter0();
    D56InvertsQuarter1();
    D56InvertsQuarter2();
    D56InvertsQuarter3();
  }

  /** `D56Inverts` for the fives 0 to 7 (each quarter of the table is its own proof, to keep each one small). */
  lemma D56InvertsQuarter0()
    ensures forall k :: 0 <= k < 8 ==> SixInverts(D56[k], k)
  {
  }

  lemma D56InvertsQuarter1()
    ensures forall k :: 8 <= k < 16 ==> SixInverts(D56[k], k)
  {
  }

  lemma D56InvertsQuarter2()
    ensures forall k :: 16 <= k < 24 ==> SixInverts(D56[k], k)
  {
  }

  lemma D56InvertsQuarter3()
    ensures forall k :: 24 <= k < 32 ==> SixInverts(D56[k], k)
  {
  }

  /** No two data threes share a four-bit code. */
  lemma D34Inverts()
    ensures forall k :: 0 <= k < |D34| ==> FourInverts(D34[k], k)
    ensures FourThree(7) == 7 && FourThree(8) == 7
  {
  }

  /** After the six bits of K28 the disparity decides the four-bit code, and the threes stay apart at either. */
  lemma K34Inverts()
    ensures forall k :: 0 <= k < |K34| ==> KPosThree(FourValue(K34[k].pos)) == k
    ensures forall k :: 0 <= k < |K34| ==> KNegThree(FourValue(K34[k].neg)) == k
    ensures forall k :: 0 <= k < |K34| ==> K34[k].Alt?
  {
  }

  /**
   * The word a 10-bit symbol was encoded from, read off its halves: the
   * six-bit codes of K28 give a K28 word whose three the four-bit code
   * tells at the disparity the six left; otherwise the six-bit code gives
   * the five, and a D.x.A7 four-bit code after K23, K27, K29 or K30 a
   * control word x.7, after any other five the data word x.7.
   */
  function Unsymbol(enc: int): int
  {
    var s, t := enc / 16, enc % 16;
    if s == 15 then 0x11c + 32 * KPosThree(t)
    else if s == 48 then 0x11c + 32 * KNegThree(t)
    else if (t == 7 || t == 8) && SixFive(s) in {23, 27, 29, 30} then 0x1e0 + SixFive(s)
    else SixFive(s) + 32 * FourThree(t)
  }

  /** A word below 0x1ff is its five, its three and its K flag. */
  lemma WordParts(raw: int)
    requires 0 <= raw < 0x1ff
    ensures raw == raw % 32 + 32 * ((raw / 32) % 8) + (if IsK(raw) then 256 else 0)
  {
  }

  /** An allowed control word is K28.y, or x.7 for x one of 23, 27, 29 and 30. */
  lemma ControlParts(raw: int)
    requires 0 <= raw < 0x1ff && IsK(raw) && raw % 256 in KS
    ensures (raw % 32 == 28 && raw == 0x11c + 32 * ((raw / 32) % 8)) ||
      (raw % 32 in {23, 27, 29, 30} && (raw / 32) % 8 == 7 && raw == 0x1e0 + raw % 32)
  {
    WordParts(raw);
  }

  /** The six-bit code an entry gives at either disparity is one `SixFive` maps to the entry's five. */
  lemma PickSixInverts(e: Entry<Six>, k: int, rd: int)
    requires SixInverts(e, k)
    ensures SixFive(SixValue(Pick(e, rd))) == k
  {
  }

  /** The same for the four-bit code of a data entry. */
  lemma PickFourInverts(e: Entry<Four>, k: int, rd: int)
    requires FourInverts(e, k)
    ensures FourThree(FourValue(Pick(e, rd))) == k
  {
  }

  /** `Unsymbol` reads a symbol from its six-bit half `s` and its four-bit half `t`. */
  lemma UnsymbolHalves(enc: int, s: int, t: int)
    requires 0 <= enc && enc / 16 == s && enc % 16 == t
    ensures Unsymbol(enc) ==
      if s == 15 then 0x11c + 32 * KPosThree(t)
      else if s == 48 then 0x11c + 32 * KNegThree(t)
      else if (t == 7 || t == 8) && SixFive(s) in {23, 27, 29, 30} then 0x1e0 + SixFive(s)
      else SixFive(s) + 32 * FourThree(t)
  {
  }

  /** A symbol whose six-bit half `SixFive` maps to a data five and whose four-bit half `FourThree` maps to a three is read back as that data word. */
  lemma HalvesUnsymbol(enc: int, s: int, t: int, five: int, three: int, alt: bool)
    requires 0 <= enc && enc / 16 == s && enc % 16 == t
    requires SixFive(s) == five && 0 <= five < 32
    requires alt ==> three == 7 && five !in {23, 27, 29, 30} && (t == 7 || t == 8)
    requires !alt ==> t != 7 && t != 8 && FourThree(t) == three
    ensures Unsymbol(enc) == five + 32 * three
  {
    UnsymbolHalves(enc, s, t);
    assert SixFive(15) == -1 && SixFive(48) == -1;
  }

  /**
   * The symbol of a six-bit code that `SixFive` maps to a data five and a
   * four-bit code that `FourThree` maps to a three is read back as the
   * data word of the two.
   */
  lemma SymbolUnsymbol(six: Six, four: Four, five: int, three: int, alt: bool)
    requires SixBits(six) && FourBits(four)
    requires 0 <= five < 32 && SixFive(SixValue(six)) == five
    requires alt ==> three == 7 && five !in {23, 27, 29, 30} && (FourValue(four) == 7 || FourValue(four) == 8)
    requires !alt ==> FourThree(FourValue(four)) == three && FourValue(four) != 7 && FourValue(four) != 8
    ensures 0 <= Symbol(six, four) < 1024 && Unsymbol(Symbol(six, four)) == five + 32 * three
  {
    SymbolHalves(six, four);
    HalvesUnsymbol(Symbol(six, four), SixValue(six), FourValue(four), five, three, alt);
  }

  /** `SymbolUnsymbol` for the codes picked from two balanced entries, the four-bit one at the disparity `d` the six-bit one leaves. */
  lemma PicksUnsymbol(sixs: Entry<Six>, fours: Entry<Four>, rd: int, d: int, five: int, three: int, alt: bool)
    requires Balanced6(sixs) && Balanced4(fours) && (rd == -1 || rd == 1) && d == rd + SixDisp(Pick(sixs, rd))
    requires 0 <= five < 32 && SixFive(SixValue(Pick(sixs, rd))) == five
    requires alt ==> three == 7 && five !in {23, 27, 29, 30}
    requires var t := FourValue(Pick(fours, d));
      ((t == 7 || t == 8) <==> alt) && (!alt ==> FourThree(t) == three)
    ensures var enc := Assemble(sixs, fours, rd).1;
      0 <= enc < 1024 && Unsymbol(enc) == five + 32 * three
  {
    var six := Pick(sixs, rd);
    PickSix(sixs, rd);
    var four := Pick(fours, d);
    PickFour(fours, d);
    SymbolUnsymbol(six, four, five, three, alt);
  }

  /** The symbol of a data word is read back as that word. */
  lemma DataUnsymbol(five: int, three: int, alt: bool, rd: int)
    requires 0 <= five < 32 && 0 <= three < 8 && (rd == -1 || rd == 1)
    requires alt ==> three == 7 && five !in {23, 27, 29, 30}
    ensures var enc := Assemble(D56[five], DataFour(three, alt), rd).1;
      0 <= enc < 1024 && Unsymbol(enc) == five + 32 * three
  {
    DataSixFacts(five, rd);
    var d := rd + SixDisp(Pick(D56[five], rd));
    DataFourFacts(three, alt, d);
    PicksUnsymbol(D56[five], DataFour(three, alt), rd, d, five, three, alt);
  }

  /** The six-bit entry of a data five is balanced, and the code picked from it is mapped back to the five. */
  lemma DataSixFacts(five: int, rd: int)
    requires 0 <= five < 32
    ensures Balanced6(D56[five]) && SixFive(SixValue(Pick(D56[five], rd))) == five
  {
    D56At(five);
    D56InvertsAt(five);
    PickSixInverts(D56[five], five, rd);
  }

  /**
   * The four-bit entry of a data three is balanced; the code picked from
   * it is a D.x.A7 code exactly for the alternate, and otherwise mapped
   * back to the three.
   */
  lemma DataFourFacts(three: int, alt: bool, d: int)
    requires 0 <= three < 8
    ensures Balanced4(DataFour(three, alt))
    ensures var t := FourValue(Pick(DataFour(three, alt), d));
      ((t == 7 || t == 8) <==> alt) && (!alt ==> FourThree(t) == three)
  {
    DataFourBalanced(three, alt);
    DataFourA7(three, alt, d);
    if !alt {
      D34InvertsAt(three);
      PickFourInverts(D34[three], three, d);
    }
  }

  lemma D56InvertsAt(five: int)
    requires 0 <= five < 32
    ensures SixInverts(D56[five], five)
  {
    D56Inverts();
  }

  lemma D34InvertsAt(three: int)
    requires 0 <= three < 8
    ensures FourInverts(D34[three], three) && AvoidsA7(D34[three])
  {
    D34Inverts();
    D34AvoidsA7();
  }

  /** A symbol assembled from the K28 six-bit entry and an entry of `K34` is read back as that K28 word. */
  lemma K28Unsymbol(fours: Entry<Four>, rd: int, three: int)
    requires Balanced4(fours) && (rd == -1 || rd == 1)
    requires fours.Alt? && KPosThree(FourValue(fours.pos)) == three && KNegThree(FourValue(fours.neg)) == three
    ensures var enc := Assemble(KFIVESIX[28], fours, rd).1;
      0 <= enc < 1024 && Unsymbol(enc) == 0x11c + 32 * three
  {
    var sixs := KFIVESIX[28];
    KFiveSixBalanced();
    AssembleHalves(sixs, fours, rd);
    var six := Pick(sixs, rd);
    var four := Pick(fours, rd + SixDisp(six));
    UnsymbolHalves(Assemble(sixs, fours, rd).1, SixValue(six), FourValue(four));
  }

  /** A symbol whose six-bit half `SixFive` maps to 23, 27, 29 or 30 and whose four-bit half is a K.x.7 code is read back as control word x.7. */
  lemma K7Unsymbol(six: Six, four: Four, five: int)
    requires SixBits(six) && FourBits(four)
    requires five in {23, 27, 29, 30} && SixFive(SixValue(six)) == five
    requires FourValue(four) == 7 || FourValue(four) == 8
    ensures 0 <= Symbol(six, four) < 1024 && Unsymbol(Symbol(six, four)) == 0x1e0 + five
  {
    SymbolHalves(six, four);
    UnsymbolHalves(Symbol(six, four), SixValue(six), FourValue(four));
    assert SixFive(15) == -1 && SixFive(48) == -1;
  }

  /** The codes picked for control word x.7, x one of 23, 27, 29 and 30: the six-bit code of D.x, then a K.x.7 code. */
  lemma K7Picks(five: int, d: int)
    requires five in {23, 27, 29, 30}
    ensures five in KFIVESIX && KFIVESIX[five] == D56[five]
    ensures Balanced4(K34[7]) && FourBits(Pick(K34[7], d))
    ensures FourValue(Pick(K34[7], d)) == 7 || FourValue(Pick(K34[7], d)) == 8
  {
    assert K34[7] == Alt(Four(0, 1, 1, 1), Four(1, 0, 0, 0));
    if d == 1 {
      assert Pick(K34[7], d) == Four(1, 0, 0, 0);
    } else {
      assert Pick(K34[7], d) == Four(0, 1, 1, 1);
    }
  }

  /**
   * The symbol assembled from a six-bit entry that `SixFive` maps to 23,
   * 27, 29 or 30 and a four-bit entry whose pick is a K.x.7 code is read
   * back as control word x.7.
   */
  lemma K7EntryUnsymbol(sixs: Entry<Six>, fours: Entry<Four>, rd: int, d: int, five: int)
    requires Balanced6(sixs) && (rd == -1 || rd == 1) && d == rd + SixDisp(Pick(sixs, rd))
    requires five in {23, 27, 29, 30} && SixFive(SixValue(Pick(sixs, rd))) == five
    requires FourBits(Pick(fours, d)) && (FourValue(Pick(fours, d)) == 7 || FourValue(Pick(fours, d)) == 8)
    ensures var enc := Assemble(sixs, fours, rd).1;
      0 <= enc < 1024 && Unsymbol(enc) == 0x1e0 + five
  {
    var six := Pick(sixs, rd);
    PickSix(sixs, rd);
    K7Unsymbol(six, Pick(fours, d), five);
  }

  /** The symbol of an allowed control word is read back as that word. */
  lemma ControlUnsymbol(five: int, three: int, rd: int)
    requires 0 <= three < 8 && (rd == -1 || rd == 1)
    requires five == 28 || (five in {23, 27, 29, 30} && three == 7)
    ensures five in KFIVESIX
    ensures var enc := Assemble(KFIVESIX[five], K34[three], rd).1;
      0 <= enc < 1024 && Unsymbol(enc) == 0x100 + five + 32 * three
  {
    if five == 28 {
      K34Balanced();
      K34Inverts();
      K28Unsymbol(K34[three], rd, three);
    } else {
      DataSixFacts(five, rd);
      var d := rd + SixDisp(Pick(D56[five], rd));
      K7Picks(five, d);
      K7EntryUnsymbol(D56[five], K34[7], rd, d, five);
    }
  }

  /** `Unsymbol` undoes the encoder: whatever word encodes, at whatever disparity, is read back from its symbol. */
  lemma UnsymbolOfEncoded(raw: int, rd: int)
    requires EncSpec(raw, rd).Ok?
    ensures 0 <= EncSpec(raw, rd).value.1 < 1024 && Unsymbol(EncSpec(raw, rd).value.1) == raw
  {
    if IsK(raw) {
      ControlWordUnsymbol(raw, rd);
    } else {
      DataWordUnsymbol(raw, rd);
    }
  }

  /** `UnsymbolOfEncoded` for a data word. */
  lemma DataWordUnsymbol(raw: int, rd: int)
    requires EncSpec(raw, rd).Ok? && !IsK(raw)
    ensures 0 <= EncSpec(raw, rd).value.1 < 1024 && Unsymbol(EncSpec(raw, rd).value.1) == raw
  {
    EncodeErrors(raw, rd);
    DataWordRange(raw);
    WordParts(raw);
    EncOfLookup(raw, rd);
    A7Fives(raw, rd);
    DataUnsymbol(raw % 32, (raw / 32) % 8, TakesA7(raw, rd), rd);
  }

  /** A data word in range is a byte. */
  lemma DataWordRange(raw: int)
    requires 0 <= raw <= 0x1ff && !IsK(raw)
    ensures raw < 0x100
  {
  }

  /** The data words that take the alternate D.x.A7 are x.7 for a five other than 23, 27, 29 and 30. */
  lemma A7Fives(raw: int, rd: int)
    ensures TakesA7(raw, rd) ==> (raw / 32) % 8 == 7 && raw % 32 !in {23, 27, 29, 30}
  {
  }

  /** `UnsymbolOfEncoded` for a control word. */
  lemma ControlWordUnsymbol(raw: int, rd: int)
    requires EncSpec(raw, rd).Ok? && IsK(raw)
    ensures 0 <= EncSpec(raw, rd).value.1 < 1024 && Unsymbol(EncSpec(raw, rd).value.1) == raw
  {
    EncodeErrors(raw, rd);
    ControlParts(raw);
    EncOfLookup(raw, rd);
    ControlUnsymbol(raw % 32, (raw / 32) % 8, rd);
  }

  /** No two words share a symbol, whatever the disparities they are encoded at. */
  lemma EncodeInjective(raw1: int, rd1: int, raw2: int, rd2: int)
    requires EncSpec(raw1, rd1).Ok? && EncSpec(raw2, rd2).Ok?
    requires EncSpec(raw1, rd1).value.1 == EncSpec(raw2, rd2).value.1
    ensures raw1 == raw2
  {
    UnsymbolOfEncoded(raw1, rd1);
    UnsymbolOfEncoded(raw2, rd2);
  }

  /** `dec8b10b` undoes `enc8b10b`: the search finds the very word that was encoded. */
  lemma DecodeOfEncode(raw: int, rd: int)
    requires EncSpec(raw, rd).Ok?
    ensures DecSpec(EncSpec(raw, rd).value.1) == Some(raw)
  {
    var enc := EncSpec(raw, rd).value.1;
    EncodedWord(raw, rd);
    DecodeMeans(enc);
    FoundIsEncoded(DecSpec(enc).value, raw, rd, enc);
  }

  /** A word that encodes is below 0x1ff, at disparity -1 or +1, and hits its own symbol. */
  lemma EncodedWord(raw: int, rd: int)
    requires EncSpec(raw, rd).Ok?
    ensures 0 <= raw < 0x1ff && (rd == -1 || rd == 1) && Hit(raw, rd, EncSpec(raw, rd).value.1)
  {
    EncodeErrors(raw, rd);
    WordBelowFull(raw);
  }

  /** The word 0x1ff is a control word whose low byte is not allowed. */
  lemma WordBelowFull(raw: int)
    requires 0 <= raw <= 0x1ff && (IsK(raw) ==> raw % 256 in KS)
    ensures raw < 0x1ff
  {
    assert IsK(0x1ff) && 0x1ff % 256 !in KS;
  }

  /** A word that encodes to the symbol of `raw` at either disparity is `raw`. */
  lemma FoundIsEncoded(v: int, raw: int, rd: int, enc: int)
    requires (Hit(v, -1, enc) || Hit(v, 1, enc)) && Hit(raw, rd, enc)
    ensures v == raw
  {
    if Hit(v, -1, enc) {
      EncodeInjective(v, -1, raw, rd);
    } else {
      EncodeInjective(v, 1, raw, rd);
    }
  }

  /** `dec8b10b`: tries every word below 0x1ff at disparity -1, then at +1. */
  method Dec8b10b(enc: int) returns (r: Option<int>)
    ensures r == DecSpec(enc)
  {
    var rds := [-1, 1];
    for k := 0 to 2
      invariant k >= 1 ==> FindFirst(HitAt(-1, enc), 0) == None
      invariant k == 2 ==> FindFirst(HitAt(1, enc), 0) == None
    {
      var rd := rds[k];
      var raw := 0;
      while raw < 0x1ff
        invariant 0 <= raw <= 0x1ff && FindFirst(HitAt(rd, enc), 0) == FindFirst(HitAt(rd, enc), raw)
      {
        var tst := Enc8b10b(raw, rd);
        if tst.Ok? && tst.value.1 == enc {
          return Some(raw);
        }
        raw := raw + 1;
      }
    }
    return None;
  }
}
