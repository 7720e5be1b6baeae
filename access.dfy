/**
 * `BiSetBitsTrafo`: BiSet requests carried over a bit-vector channel. Each
 * request goes out as one 41-bit word; the reply that comes back is cut
 * to its low 32 bits and committed to the request.
 */
module Access {
  import opened Wrappers
  import opened Arith
  import opened Fn
  import opened Signal
  import opened BiSet
  import Bimem

  /** Bits of data, of address, and of the whole word with its write bit. */
  const DATA_BITS: nat := 32
  const ADDR_BITS: nat := 8
  const WORD_WIDTH: nat := DATA_BITS + ADDR_BITS + 1

  /** The word a request goes out as: data (0 if none), then address, then the write bit. */
  function RequestWord(r: BiSetReq): int
  {
    var w1 := Added(0, 0, if r.data.Some? then r.data.value else 0, DATA_BITS);
    var w2 := Added(w1, DATA_BITS, r.addr, ADDR_BITS);
    Added(w2, DATA_BITS + ADDR_BITS, if r.write then 1 else 0, 1)
  }

  /** The vector a request is sent as. */
  function SentWord(r: BiSetReq): seq<L9>
  {
    FromInt(RequestWord(r), WORD_WIDTH)
  }

  /** The result a reply gives: its number, 0 if it is not pure, cut to 32 bits. */
  function ReplyValue(reply: seq<L9>): nat
  {
    match ToIntSpec(reply)
    case Ok(n) => n % U32
    case Err(_) => 0
  }

  /**
   * The 41-bit word holds the data modulo 2^32 in bits 0-31, the address
   * modulo 2^8 in bits 32-39 and the write flag in bit 40.
   */
  lemma RequestWordFields(r: BiSetReq)
    ensures 0 <= RequestWord(r) < Pow2(WORD_WIDTH)
    ensures Field(RequestWord(r), 0, DATA_BITS) == (if r.data.Some? then r.data.value else 0) % Pow2(DATA_BITS)
    ensures Field(RequestWord(r), DATA_BITS, ADDR_BITS) == r.addr % Pow2(ADDR_BITS)
    ensures Field(RequestWord(r), DATA_BITS + ADDR_BITS, 1) == (if r.write then 1 else 0) % Pow2(1)
  {
    var d := if r.data.Some? then r.data.value else 0;
    var w1 := Added(0, 0, d, DATA_BITS);
    var w2 := Added(w1, DATA_BITS, r.addr, ADDR_BITS);
    Bimem.ThreeAt(0, 0, d, DATA_BITS, w1, DATA_BITS, r.addr, ADDR_BITS, w2, DATA_BITS + ADDR_BITS,
      if r.write then 1 else 0, RequestWord(r));
  }

  /** The vector sent reads back as exactly the request word. */
  lemma SentWordReadsBack(r: BiSetReq)
    ensures ToIntSpec(SentWord(r)) == Ok(RequestWord(r))
  {
    var w := RequestWord(r);
    RequestWordFields(r);
    ToIntOfFromInt(w, WORD_WIDTH);
    DivModUnique(w, Pow2(WORD_WIDTH), 0, w);
  }

  /**
   * A reply vector `Bits(n, w)` is committed as `n mod 2^w` when it is at
   * most 32 bits wide, and as `n mod 2^32` when it is wider.
   */
  lemma ReplyOfWord(n: int, w: nat)
    ensures ReplyValue(FromInt(n, w)) == if w <= 32 then n % Pow2(w) else n % U32
  {
    ToIntOfFromInt(n, w);
    var v := n % Pow2(w);
    assert Pure(FromInt(n, w)) && Value(FromInt(n, w)) == v;
    Pow2Of32();
    if w <= 32 {
      Pow2Monotone(w, 32);
      DivModUnique(v, U32, 0, v);
    } else {
      Pow2Add(32, w - 32);
      ModOfMod(n, U32, Pow2(w - 32));
    }
  }

  /** A reply that is not pure is committed as 0. */
  lemma ImpureReplyIsZero(reply: seq<L9>)
    requires !Pure(reply)
    ensures ReplyValue(reply) == 0
  {
  }

  /** The words sent for the requests, in order. */
  function SentWords(reqs: seq<BiSetReq>): (r: seq<seq<L9>>)
    ensures |r| == |reqs|
  {
    if reqs == [] then [] else SentWords(reqs[..|reqs| - 1]) + [SentWord(reqs[|reqs| - 1])]
  }

  /** The results committed for the replies, in order. */
  function Results(replies: seq<seq<L9>>): (r: seq<int>)
    ensures |r| == |replies|
  {
    if replies == [] then [] else Results(replies[..|replies| - 1]) + [ReplyValue(replies[|replies| - 1])]
  }

  lemma {:induction false} SentWordsAt(reqs: seq<BiSetReq>, k: nat)
    requires k < |reqs|
    ensures SentWords(reqs)[k] == SentWord(reqs[k])
  {
    if k < |reqs| - 1 {
      SentWordsAt(reqs[..|reqs| - 1], k);
    }
  }

  lemma {:induction false} ResultsAt(replies: seq<seq<L9>>, k: nat)
    requires k < |replies|
    ensures Results(replies)[k] == ReplyValue(replies[k])
  {
    if k < |replies| - 1 {
      ResultsAt(replies[..|replies| - 1], k);
    }
  }

  /**
   * `BiSetBitsTrafo.run` over the requests that arrive and the replies
   * the channel gives back. Each request sends one word and then takes one
   * reply before the next request is read; when the replies run out the
   * loop waits for good after its last send.
   */
  method Run(reqs: seq<BiSetReq>, replies: seq<seq<L9>>) returns (sent: seq<seq<L9>>, results: seq<int>)
    ensures |results| == if |reqs| <= |replies| then |reqs| else |replies|
    ensures |sent| == if |reqs| <= |replies| then |reqs| else |replies| + 1
    ensures sent == SentWords(reqs[..|sent|]) && results == Results(replies[..|results|])
  {
    sent, results := [], [];
    var i := 0;
    while i < |reqs| && i < |replies|
      invariant 0 <= i <= |reqs| && i <= |replies|
      invariant sent == SentWords(reqs[..i]) && results == Results(replies[..i])
    {
      var word := Pack(reqs[i]);
      var r := Unpack(replies[i]);
      assert reqs[..i + 1][..i] == reqs[..i];
      assert replies[..i + 1][..i] == replies[..i];
      sent, results := sent + [word], results + [r];
      i := i + 1;
    }
    if i < |reqs| {
      // the last request is sent, and its reply never comes
      var word := Pack(reqs[i]);
      assert reqs[..i + 1][..i] == reqs[..i];
      sent := sent + [word];
    }
  }

  /** The sending half of one turn of `run`: the request packed into a fresh `Packer`. */
  method Pack(req: BiSetReq) returns (word: seq<L9>)
    ensures word == SentWord(req)
  {
    var p := new Packer(0);
    p.Add(if req.data.Some? then req.data.value else 0, DATA_BITS);
    p.Add(req.addr, ADDR_BITS);
    p.Add(if req.write then 1 else 0, 1);
    word := FromInt(p.val, WORD_WIDTH);
  }

  /** The receiving half: the reply read as a number, 0 if not pure, and its low 32 bits taken. */
  method Unpack(repl: seq<L9>) returns (r: int)
    ensures r == ReplyValue(repl)
  {
    var v := ToInt(repl);
    var intVal: int := if v.Ok? then v.value as int else 0;
    var q := new Packer(intVal);
    r := q.Get(32);
    Pow2Of32();
    DivModUnique(intVal, 1, intVal, 0);
  }
}
