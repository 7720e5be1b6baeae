// The simulator side's runtime objects (C++ library `SiCo`): the message
// queue of a channel, the control object with its break list, and the
// player and recorder of a signal channel. Sockets, threads, mutexes and
// condition variables are not modelled: every method is one atomic step,
// and a wait for a message that never comes is an empty queue.
module SiCoControl {
  import opened Wrappers
  import opened BigEndian
  import opened Arith
  import opened SiCo
  import Comm
  import Time

  const TIMED_OUT: string := "TimedOut"
  const BREAK_NOT_FOUND: string := "break id not found"
  const U64: nat := 0x1_0000_0000_0000_0000

  /** The control channel "ctrl". */
  const CTRL: seq<byte> := Comm.SC_CHAN

  // ---------------------------------------------------------------------
  // MessageQueue

  /** `MessageQueue`: the messages of one channel, first in, first out. */
  class MessageQueue {
    var queue: seq<SimMessage>

    constructor()
      ensures queue == []
    {
      queue := [];
    }

    /** `push`: the message joins the back of the queue. */
    method Push(m: SimMessage)
      modifies this
      ensures queue == old(queue) + [m]
    {
      queue := queue + [m];
    }

    /** `pop`: the earliest message still queued leaves; the wait for one is the precondition. */
    method Pop() returns (m: SimMessage)
      requires queue != []
      modifies this
      ensures [m] + queue == old(queue)
    {
      m := queue[0];
      queue := queue[1..];
    }
  }

  // ---------------------------------------------------------------------
  // Replies of the control channel

  /** The 13 bytes of a `tock`: the command, then the current time as a period. */
  function TockData(now: u64): (r: seq<byte>)
    ensures |r| == 13
  {
    Encode(Comm.Command.Tock.Code(), 4) + SimTimeBytes(now, false)
  }

  /** The 17 bytes of an `ackBreak` or `hitBreak`: the command, the break id, a time as a period. */
  function BreakReply(cmd: Comm.Command, id: u32, t: u64): (r: seq<byte>)
    ensures |r| == 17
  {
    Encode(cmd.Code(), 4) + Encode(id, 4) + SimTimeBytes(t, false)
  }

  /** The command field as the host reads it. */
  lemma CommandReadByHost(cmd: Comm.Command, rest: seq<byte>)
    ensures Comm.CommandFromBytes(Encode(cmd.Code(), 4) + rest) == Ok(cmd)
  {
    PowersOf256();
    assert Comm.CommandToBytes(cmd) == Encode(cmd.Code(), 4);
    Comm.CommandRoundTrip(cmd, rest);
  }

  /** A simulator time (a period) as the host reads it. */
  lemma TimeReadByHost(t: u64)
    ensures Time.FromBytes(SimTimeBytes(t, false)) == Ok(Time.Tme(Some(t), None))
  {
    PowersOf256();
    SimTimeBytesAreTmeBytes(t, false);
    Time.BytesRoundTrip(Time.Tme(Some(t), None), []);
    assert SimTimeBytes(t, false) + [] == SimTimeBytes(t, false);
  }

  /** The host reads a `tock` as that command with the simulator's time. */
  lemma TockReadByHost(now: u64)
    ensures Comm.CommandFromBytes(TockData(now)) == Ok(Comm.Command.Tock)
    ensures Time.FromBytes(Drop(TockData(now), 4)) == Ok(Time.Tme(Some(now), None))
  {
    CommandReadByHost(Comm.Command.Tock, SimTimeBytes(now, false));
    assert Drop(TockData(now), 4) == SimTimeBytes(now, false);
    TimeReadByHost(now);
  }

  /**
   * The host reads an `ackBreak`/`hitBreak` as that command, takes the id
   * from bytes 4..8 and the time from byte 8 on, as its `ccProcess` does.
   */
  lemma BreakReplyReadByHost(cmd: Comm.Command, id: u32, t: u64)
    ensures Comm.CommandFromBytes(BreakReply(cmd, id, t)) == Ok(cmd)
    ensures Decode(Slice(BreakReply(cmd, id, t), 4, 8)) == id
    ensures Time.FromBytes(Drop(BreakReply(cmd, id, t), 8)) == Ok(Time.Tme(Some(t), None))
  {
    var d := BreakReply(cmd, id, t);
    assert Comm.CommandFromBytes(d) == Ok(cmd) by {
      assert d == Encode(cmd.Code(), 4) + (Encode(id, 4) + SimTimeBytes(t, false));
      CommandReadByHost(cmd, Encode(id, 4) + SimTimeBytes(t, false));
    }
    assert Decode(Slice(d, 4, 8)) == id by {
      assert Slice(d, 4, 8) == d[4..8];
      PowersOf256();
      GetEncoded(d, 4, id, 4);
    }
    assert Drop(d, 8) == SimTimeBytes(t, false);
    TimeReadByHost(t);
  }

  /** `Message("ctrl", 13)` filled by `put32` and `putSimTime`. */
  method MakeTock(now: u64) returns (m: SimMessage)
    ensures m == SimMessage(CTRL, TockData(now))
  {
    var buf := new byte[13];
    ghost var b0 := buf[..];
    Put(buf, 0, Comm.Command.Tock.Code(), 4);
    PutSimTime(buf, 4, now, false);
    WrittenTwice(b0, 0, Encode(Comm.Command.Tock.Code(), 4), SimTimeBytes(now, false));
    m := SimMessage(CTRL, buf[..]);
  }

  /** `Message("ctrl", 17)` filled by `put32`, `put32` and `putSimTime`. */
  method MakeBreakReply(cmd: Comm.Command, id: u32, t: u64) returns (m: SimMessage)
    ensures m == SimMessage(CTRL, BreakReply(cmd, id, t))
  {
    var buf := new byte[17];
    ghost var b0 := buf[..];
    Put(buf, 0, cmd.Code(), 4);
    Put(buf, 4, id, 4);
    WrittenTwice(b0, 0, Encode(cmd.Code(), 4), Encode(id, 4));
    PutSimTime(buf, 8, t, false);
    WrittenTwice(b0, 0, Encode(cmd.Code(), 4) + Encode(id, 4), SimTimeBytes(t, false));
    m := SimMessage(CTRL, buf[..]);
  }

  /** The `shutdown` message: the command alone; the host reads it as `shutdown`. */
  method MakeShutdown() returns (m: SimMessage)
    ensures m.channel == CTRL && |m.data| == 4
    ensures Comm.CommandFromBytes(m.data) == Ok(Comm.Command.Shutdown)
  {
    var buf := new byte[4];
    Put(buf, 0, Comm.Command.Shutdown.Code(), 4);
    PowersOf256();
    assert Comm.CommandToBytes(Comm.Command.Shutdown) == buf[..] + [];
    Comm.CommandRoundTrip(Comm.Command.Shutdown, []);
    m := SimMessage(CTRL, buf[..]);
  }

  // ---------------------------------------------------------------------
  // Breaks

  /** `Break`: `thresh` is relative to the acknowledging time while `rel` and not `ack`. */
  datatype SimBreak = SimBreak(id: u32, thresh: u64, typ: byte, hit: bool, ack: bool, rel: bool)

  /** The `Break` constructor: neither acknowledged nor hit yet. */
  function NewBreak(id: u32, typ: byte, tme: u64, relative: bool): (b: SimBreak)
    ensures b.id == id && b.typ == typ && b.thresh == tme && b.rel == relative
    ensures !b.hit && !b.ack
  {
    SimBreak(id, tme, typ, false, false, relative)
  }

  /**
   * One break's turn in `checkBreak` at time `now`: an unacknowledged
   * break gets its threshold made absolute (a uint64 addition) and raised
   * to at least `now`, and is acknowledged; then a break of the asked
   * type whose threshold is reached is hit, announced the first time only.
   */
  function Turned(b: SimBreak, typ: byte, now: u64): SimBreak
  {
    var acked := Ack(b, now);
    if acked.typ == typ && acked.thresh <= now && !acked.hit then acked.(hit := true) else acked
  }

  /** The messages of a turn: the acknowledgement on the first turn, then the announcement of a new hit. */
  function TurnReplies(b: SimBreak, typ: byte, now: u64): seq<SimMessage>
  {
    var acked := Ack(b, now);
    (if b.ack then [] else [SimMessage(CTRL, BreakReply(Comm.Command.AckBreak, b.id, acked.thresh))]) +
    (if acked.typ == typ && acked.thresh <= now && !acked.hit
     then [SimMessage(CTRL, BreakReply(Comm.Command.HitBreak, b.id, now))] else [])
  }

  /** The acknowledgement part of a turn: a relative threshold is added to `now` (uint64), then raised to `now`. */
  function Ack(b: SimBreak, now: u64): SimBreak
  {
    if b.ack then b
    else
      var t := if b.rel then (b.thresh + now) % U64 else b.thresh;
      b.(thresh := if t < now then now else t, ack := true)
  }

  /** A break of the asked type whose threshold is reached. */
  predicate Reached(b: SimBreak, typ: byte, now: u64)
  {
    b.typ == typ && b.thresh <= now
  }

  /**
   * The loop body of `checkBreak` on one break, updated in place: the
   * acknowledgement with its message, then the hit test.
   */
  method Turn(b: SimBreak, typ: byte, now: u64) returns (c: SimBreak, replies: seq<SimMessage>)
    ensures c == Turned(b, typ, now) && replies == TurnReplies(b, typ, now)
  {
    c := b;
    replies := [];
    if !c.ack {
      if c.rel {
        c := c.(thresh := (c.thresh + now) % U64);
      }
      if c.thresh < now {
        c := c.(thresh := now);
      }
      c := c.(ack := true);
      var m := MakeBreakReply(Comm.Command.AckBreak, c.id, c.thresh);
      replies := [m];
    }
    assert c == Ack(b, now);
    ghost var acks := replies;
    assert acks == if b.ack then [] else [SimMessage(CTRL, BreakReply(Comm.Command.AckBreak, b.id, c.thresh))];
    if c.typ == typ && c.thresh <= now && !c.hit {
      c := c.(hit := true);
      var m := MakeBreakReply(Comm.Command.HitBreak, c.id, now);
      replies := replies + [m];
    } else {
      assert replies == acks + [];
    }
  }

  /** The break list after `checkBreak`. */
  function Checked(list: seq<SimBreak>, typ: byte, now: u64): (r: seq<SimBreak>)
    ensures |r| == |list|
  {
    if list == [] then [] else Checked(list[..|list| - 1], typ, now) + [Turned(list[|list| - 1], typ, now)]
  }

  /** Each break of the list takes its own turn, in place. */
  lemma {:induction false} CheckedAt(list: seq<SimBreak>, typ: byte, now: u64, j: nat)
    requires j < |list|
    ensures Checked(list, typ, now)[j] == Turned(list[j], typ, now)
    decreases |list|
  {
    if j < |list| - 1 {
      CheckedAt(list[..|list| - 1], typ, now, j);
    }
  }

  lemma CheckedStep(list: seq<SimBreak>, i: nat, typ: byte, now: u64)
    requires i < |list|
    ensures Checked(list[..i + 1], typ, now) == Checked(list[..i], typ, now) + [Turned(list[i], typ, now)]
  {
    assert list[..i + 1][..i] == list[..i];
  }

  /** The messages `checkBreak` sends, break by break. */
  function Replies(list: seq<SimBreak>, typ: byte, now: u64): seq<SimMessage>
  {
    if list == [] then [] else Replies(list[..|list| - 1], typ, now) + TurnReplies(list[|list| - 1], typ, now)
  }

  /**
   * A break is acknowledged once: its first turn acknowledges it with a
   * threshold no earlier than `now`, and later turns keep the threshold.
   * It is announced as hit once: exactly when its turn newly sets `hit`,
   * which it does iff it has the asked type and its threshold is reached.
   */
  lemma TurnSpec(b: SimBreak, typ: byte, now: u64)
    ensures var c, ms := Turned(b, typ, now), TurnReplies(b, typ, now);
      c.id == b.id && c.typ == b.typ && c.rel == b.rel && c.ack &&
      (b.ack ==> c.thresh == b.thresh) && (!b.ack ==> c.thresh >= now) &&
      (!b.ack && !b.rel ==> c.thresh == if b.thresh < now then now else b.thresh) &&
      (c.hit <==> b.hit || (b.typ == typ && c.thresh <= now)) &&
      |ms| == (if b.ack then 0 else 1) + (if c.hit && !b.hit then 1 else 0) &&
      (!b.ack ==> ms[0] == SimMessage(CTRL, BreakReply(Comm.Command.AckBreak, b.id, c.thresh))) &&
      (c.hit && !b.hit ==> ms[|ms| - 1] == SimMessage(CTRL, BreakReply(Comm.Command.HitBreak, b.id, now)))
  {
  }

  /** A second turn at the same time and type changes nothing and sends nothing. */
  lemma TurnTwice(b: SimBreak, typ: byte, now: u64)
    ensures Turned(Turned(b, typ, now), typ, now) == Turned(b, typ, now)
    ensures TurnReplies(Turned(b, typ, now), typ, now) == []
  {
  }

  /** `checkBreak` twice at the same time and type: the second call sends nothing and keeps the list. */
  lemma {:induction false} CheckedTwice(list: seq<SimBreak>, typ: byte, now: u64)
    ensures Checked(Checked(list, typ, now), typ, now) == Checked(list, typ, now)
    ensures Replies(Checked(list, typ, now), typ, now) == []
    decreases |list|
  {
    if list != [] {
      var c := Checked(list, typ, now);
      var init := list[..|list| - 1];
      CheckedTwice(init, typ, now);
      assert c[..|c| - 1] == Checked(init, typ, now);
      TurnTwice(list[|list| - 1], typ, now);
    }
  }

  /** A pass acknowledges every break of the list. */
  lemma {:induction false} CheckedAcked(list: seq<SimBreak>, typ: byte, now: u64)
    ensures forall j :: 0 <= j < |list| ==> Checked(list, typ, now)[j].ack
  {
    forall j | 0 <= j < |list|
      ensures Checked(list, typ, now)[j].ack
    {
      CheckedAt(list, typ, now, j);
    }
  }

  /** The `hitBreak` announcements at `now` for the breaks of the list not yet hit whose threshold is reached. */
  function Hits(list: seq<SimBreak>, typ: byte, now: u64): (r: seq<SimMessage>)
    ensures |r| <= |list|
  {
    if list == [] then []
    else
      var b := list[|list| - 1];
      Hits(list[..|list| - 1], typ, now) +
      (if Reached(b, typ, now) && !b.hit then [SimMessage(CTRL, BreakReply(Comm.Command.HitBreak, b.id, now))] else [])
  }

  /** Once every break is acknowledged, a pass sends no acknowledgement: only the announcements of new hits. */
  lemma {:induction false} AckedReplies(list: seq<SimBreak>, typ: byte, now: u64)
    requires forall j :: 0 <= j < |list| ==> list[j].ack
    ensures Replies(list, typ, now) == Hits(list, typ, now)
    decreases |list|
  {
    if list != [] {
      AckedReplies(list[..|list| - 1], typ, now);
    }
  }

  /** Some break of the list has the asked type and its threshold reached. */
  predicate AnyReached(list: seq<SimBreak>, typ: byte, now: u64)
  {
    list != [] && (AnyReached(list[..|list| - 1], typ, now) || Reached(list[|list| - 1], typ, now))
  }

  lemma AnyReachedStep(list: seq<SimBreak>, i: nat, typ: byte, now: u64)
    requires i < |list|
    ensures AnyReached(list[..i + 1], typ, now) == (AnyReached(list[..i], typ, now) || Reached(list[i], typ, now))
  {
    assert list[..i + 1][..i] == list[..i];
  }

  lemma {:induction false} AnyReachedExists(list: seq<SimBreak>, typ: byte, now: u64)
    ensures AnyReached(list, typ, now) <==> exists j :: 0 <= j < |list| && Reached(list[j], typ, now)
  {
    if list != [] {
      AnyReachedExists(list[..|list| - 1], typ, now);
      assert forall j :: 0 <= j < |list| - 1 ==> list[..|list| - 1][j] == list[j];
    }
  }

  lemma RepliesStep(list: seq<SimBreak>, i: nat, typ: byte, now: u64)
    requires i < |list|
    ensures Replies(list[..i + 1], typ, now) == Replies(list[..i], typ, now) + TurnReplies(list[i], typ, now)
  {
    assert list[..i + 1][..i] == list[..i];
  }

  /**
   * One pass of the `checkBreak` loop, on the list with breaks 0..i done:
   * break i takes its turn, its replies are sent and the hit test is
   * accumulated.
   */
  method CheckStep(bl: seq<SimBreak>, sent: seq<SimMessage>, ret: bool, i: nat, typ: byte, now: u64,
                   ghost list: seq<SimBreak>)
    returns (bl': seq<SimBreak>, sent': seq<SimMessage>, ret': bool)
    requires i < |list| && bl == Checked(list[..i], typ, now) + list[i..]
    requires sent == Replies(list[..i], typ, now) && ret == AnyReached(Checked(list[..i], typ, now), typ, now)
    ensures bl' == Checked(list[..i + 1], typ, now) + list[i + 1..]
    ensures sent' == Replies(list[..i + 1], typ, now)
    ensures ret' == AnyReached(Checked(list[..i + 1], typ, now), typ, now)
  {
    ghost var pre := Checked(list[..i], typ, now);
    assert bl[i] == list[i] && list[i..][1..] == list[i + 1..];
    var b, replies := Turn(bl[i], typ, now);
    bl' := bl[i := b];
    sent' := sent + replies;
    ret' := ret || Reached(b, typ, now);
    ReplaceFirst(pre, list[i..], b);
    CheckedStep(list, i, typ, now);
    RepliesStep(list, i, typ, now);
    assert (pre + [b])[..i] == pre;
  }

  /** Replacing the first element after a prefix. */
  lemma ReplaceFirst(pre: seq<SimBreak>, rest: seq<SimBreak>, b: SimBreak)
    requires rest != []
    ensures (pre + rest)[|pre| := b] == pre + [b] + rest[1..]
  {
  }

  /** The loop of `checkBreak` over the break list: the new list, the replies in order and the hit test. */
  method CheckAll(list: seq<SimBreak>, typ: byte, now: u64) returns (bl: seq<SimBreak>, sent: seq<SimMessage>, ret: bool)
    ensures bl == Checked(list, typ, now) && sent == Replies(list, typ, now)
    ensures ret <==> exists j :: 0 <= j < |bl| && Reached(bl[j], typ, now)
  {
    bl := list;
    sent := [];
    ret := false;
    var i := 0;
    while i < |bl|
      invariant 0 <= i <= |bl| == |list|
      invariant bl == Checked(list[..i], typ, now) + list[i..]
      invariant sent == Replies(list[..i], typ, now)
      invariant ret == AnyReached(Checked(list[..i], typ, now), typ, now)
    {
      bl, sent, ret := CheckStep(bl, sent, ret, i, typ, now, list);
      i := i + 1;
    }
    assert list[..i] == list;
    AnyReachedExists(bl, typ, now);
  }

  /** The first break with this id, if any. */
  function FirstWithId(list: seq<SimBreak>, id: u32): (r: Option<nat>)
    ensures r.Some? ==> r.value < |list| && list[r.value].id == id && forall j :: 0 <= j < r.value ==> list[j].id != id
    ensures r.None? <==> forall j :: 0 <= j < |list| ==> list[j].id != id
  {
    if list == [] then None
    else if list[0].id == id then Some(0)
    else match FirstWithId(list[1..], id)
      case None => None
      case Some(k) => Some(k + 1)
  }

  // ---------------------------------------------------------------------
  // setConfig

  /** `std::string(data + at)`: the bytes up to the first NUL; a string running off the buffer is an error. */
  function CStr(data: seq<byte>, at: nat): (r: Result<seq<byte>>)
    ensures r.Ok? ==> at + |r.value| < |data| && data[at + |r.value|] == 0 && data[at..at + |r.value|] == r.value
    ensures r.Ok? ==> forall k :: 0 <= k < |r.value| ==> r.value[k] != 0
    ensures r.Err? <==> forall k :: at <= k < |data| ==> data[k] != 0
    decreases |data| - at
  {
    if at >= |data| then Err(PAST_BUFFER)
    else if data[at] == 0 then Ok([])
    else
      match CStr(data, at + 1)
      case Err(e) => Err(e)
      case Ok(s) => Ok([data[at]] + s)
  }

  /** A NUL-free string stored at `at` and followed by NUL reads back. */
  lemma {:induction false} CStrAt(data: seq<byte>, at: nat, s: seq<byte>)
    requires at + |s| < |data| && data[at..at + |s|] == s && data[at + |s|] == 0
    requires forall k :: 0 <= k < |s| ==> s[k] != 0
    ensures CStr(data, at) == Ok(s)
    decreases |s|
  {
    if s != [] {
      assert data[at] == s[0];
      assert data[at + 1..at + 1 + |s[1..]|] == s[1..];
      CStrAt(data, at + 1, s[1..]);
      assert [data[at]] + s[1..] == s;
    }
  }

  /** "loglevel" */
  const LOGLEVEL: seq<byte> := [0x6c, 0x6f, 0x67, 0x6c, 0x65, 0x76, 0x65, 0x6c]

  /** The `int` of a `uint32_t`: two's complement. */
  function Signed32(x: u32): (r: int)
    ensures -0x8000_0000 <= r < 0x8000_0000 && (r - x) % 0x1_0000_0000 == 0
  {
    if x < 0x8000_0000 then x else x - 0x1_0000_0000
  }

  /**
   * `setConfig`: after the command, a length and a NUL-terminated name at
   * 8; for "loglevel", a length and a NUL-terminated scope follow, then the
   * level as a 32-bit int. Other names are only logged (None).
   */
  function ConfigOf(data: seq<byte>): (r: Result<Option<(seq<byte>, int)>>)
  {
    if |data| < 8 then Err(PAST_BUFFER)
    else
      match CStr(data, 8)
      case Err(e) => Err(e)
      case Ok(name) =>
        var pos := 8 + Get(data, 4, 4);
        if name != LOGLEVEL then Ok(None)
        else if pos + 4 > |data| then Err(PAST_BUFFER)
        else
          match CStr(data, pos + 4)
          case Err(e) => Err(e)
          case Ok(scope) =>
            var pos2 := pos + 4 + Get(data, pos, 4);
            if pos2 + 4 > |data| then Err(PAST_BUFFER)
            else Ok(Some((scope, Signed32(Get(data, pos2, 4)))))
  }

  /** A `set loglevel` message: each string with its length (counting the NUL) in front. */
  function LogLevelData(scope: seq<byte>, level: u32): (r: seq<byte>)
  {
    Encode(Comm.Command.Set.Code(), 4) + Encode(|LOGLEVEL| + 1, 4) + LOGLEVEL + [0] +
    Encode(|scope| + 1, 4) + scope + [0] + Encode(level, 4)
  }

  /** `setConfig` on a "loglevel" name and a scope, each read at the offset its length field gives. */
  lemma ConfigOfLogLevel(d: seq<byte>, scope: seq<byte>, level: u32)
    requires |d| == 26 + |scope|
    requires CStr(d, 8) == Ok(LOGLEVEL) && Get(d, 4, 4) == |LOGLEVEL| + 1
    requires CStr(d, 21) == Ok(scope) && Get(d, 17, 4) == |scope| + 1
    requires Get(d, 22 + |scope|, 4) == level
    ensures ConfigOf(d) == Ok(Some((scope, Signed32(level))))
  {
  }

  /** The fields of a `set loglevel` message at their offsets. */
  lemma LogLevelFields(scope: seq<byte>, level: u32)
    requires |scope| + 1 < 0x1_0000_0000
    ensures var d := LogLevelData(scope, level);
      |d| == 26 + |scope| && d[4..8] == Encode(|LOGLEVEL| + 1, 4) && d[8..16] == LOGLEVEL && d[16] == 0 &&
      d[17..21] == Encode(|scope| + 1, 4) && d[21..21 + |scope|] == scope && d[21 + |scope|] == 0 &&
      d[22 + |scope|..26 + |scope|] == Encode(level, 4)
  {
    var d := LogLevelData(scope, level);
    var head := Encode(Comm.Command.Set.Code(), 4) + Encode(|LOGLEVEL| + 1, 4) + LOGLEVEL + [0];
    var tail := Encode(|scope| + 1, 4) + scope + [0] + Encode(level, 4);
    assert d == head + tail;
    assert |head| == 17;
    assert d[4..8] == head[4..8] == Encode(|LOGLEVEL| + 1, 4);
    assert d[8..16] == head[8..16] == LOGLEVEL;
    assert d[16] == head[16] == 0;
    ScopeFields(head, Encode(|scope| + 1, 4), scope, Encode(level, 4));
  }

  /** The scope part of a `set loglevel` message, after a 17-byte head: its length, the string, NUL, the level. */
  lemma ScopeFields(head: seq<byte>, len: seq<byte>, scope: seq<byte>, level: seq<byte>)
    requires |head| == 17 && |len| == 4 && |level| == 4
    ensures var d := head + (len + scope + [0] + level);
      |d| == 26 + |scope| &&
      d[17..21] == len && d[21..21 + |scope|] == scope && d[21 + |scope|] == 0 &&
      d[22 + |scope|..26 + |scope|] == level
  {
    var tail := len + scope + [0] + level;
    var d := head + tail;
    assert d[17..21] == tail[0..4] == len;
    assert d[21..21 + |scope|] == tail[4..4 + |scope|] == scope;
    assert d[21 + |scope|] == tail[4 + |scope|] == 0;
    assert d[22 + |scope|..26 + |scope|] == tail[5 + |scope|..] == level;
  }

  /** `setConfig` reads the scope and level of a `set loglevel` message back. */
  lemma LogLevelRoundTrip(scope: seq<byte>, level: u32)
    requires forall k :: 0 <= k < |scope| ==> scope[k] != 0
    requires |scope| + 1 < 0x1_0000_0000
    ensures ConfigOf(LogLevelData(scope, level)) == Ok(Some((scope, Signed32(level))))
  {
    var d := LogLevelData(scope, level);
    LogLevelFields(scope, level);
    U32Fits(|LOGLEVEL| + 1);
    U32Fits(|scope| + 1);
    U32Fits(level);
    CStrAt(d, 8, LOGLEVEL);
    CStrAt(d, 21, scope);
    GetEncoded(d, 4, |LOGLEVEL| + 1, 4);
    GetEncoded(d, 17, |scope| + 1, 4);
    GetEncoded(d, 22 + |scope|, level, 4);
    ConfigOfLogLevel(d, scope, level);
  }

  // ---------------------------------------------------------------------
  // Control

  /** `Control`: the time reported by the simulator, the breaks, the channels and the outgoing messages. */
  class SimControl {
    var nowAt: u64
    var breakList: seq<SimBreak>
    var inShutdown: bool
    var channels: map<seq<byte>, MessageQueue>
    /** The scope levels of `setLogLevel`. */
    var logLevels: map<seq<byte>, int>
    /** What `push` hands to the connection, oldest first. */
    var outbox: seq<SimMessage>

    /** Each channel has a queue of its own. */
    ghost predicate Valid()
      reads this
    {
      forall c, d :: c in channels && d in channels && c != d ==> channels[c] != channels[d]
    }

    constructor()
      ensures Valid()
      ensures nowAt == 0 && breakList == [] && !inShutdown && channels == map[] && logLevels == map[] && outbox == []
    {
      nowAt := 0;
      breakList := [];
      inShutdown := false;
      channels := map[];
      logLevels := map[];
      outbox := [];
    }

    /** `push`: the message goes to the connection. */
    method Push(m: SimMessage)
      modifies this
      ensures outbox == old(outbox) + [m]
      ensures nowAt == old(nowAt) && breakList == old(breakList) && inShutdown == old(inShutdown)
      ensures channels == old(channels) && logLevels == old(logLevels)
    {
      outbox := outbox + [m];
    }

    /** `getQueue`: the queue of a channel, created empty on first use. */
    method GetQueue(chan: seq<byte>) returns (q: MessageQueue)
      requires Valid()
      modifies this
      ensures Valid()
      ensures chan in old(channels) ==> channels == old(channels) && q == channels[chan]
      ensures chan !in old(channels) ==> fresh(q) && q.queue == [] && channels == old(channels)[chan := q]
      ensures nowAt == old(nowAt) && breakList == old(breakList) && inShutdown == old(inShutdown)
      ensures logLevels == old(logLevels) && outbox == old(outbox)
    {
      if chan in channels {
        q := channels[chan];
      } else {
        q := new MessageQueue();
        channels := channels[chan := q];
      }
    }

    /** One step of `dispatchRun`: a received message joins its channel's queue. */
    method Dispatch(m: SimMessage)
      requires Valid()
      modifies this, channels.Values
      ensures Valid()
      ensures m.channel in channels
      ensures channels[m.channel].queue ==
        (if m.channel in old(channels) then old(channels[m.channel].queue) else []) + [m]
      ensures forall c :: c in old(channels) && c != m.channel ==>
        c in channels && channels[c] == old(channels[c]) && channels[c].queue == old(channels[c].queue)
      ensures nowAt == old(nowAt) && breakList == old(breakList) && inShutdown == old(inShutdown)
      ensures logLevels == old(logLevels) && outbox == old(outbox)
    {
      var q := GetQueue(m.channel);
      q.Push(m);
    }

    /** `reportTime`. */
    method ReportTime(tme: u64)
      modifies this
      ensures nowAt == tme
      ensures breakList == old(breakList) && inShutdown == old(inShutdown)
      ensures channels == old(channels) && logLevels == old(logLevels) && outbox == old(outbox)
    {
      nowAt := tme;
    }

    /** `shutdown`: the shutdown message goes out and the control is marked as shutting down. */
    method Shutdown()
      modifies this
      ensures inShutdown && |outbox| == |old(outbox)| + 1 && outbox[..|old(outbox)|] == old(outbox)
      ensures Comm.CommandFromBytes(outbox[|outbox| - 1].data) == Ok(Comm.Command.Shutdown)
      ensures outbox[|outbox| - 1].channel == CTRL
      ensures nowAt == old(nowAt) && breakList == old(breakList)
      ensures channels == old(channels) && logLevels == old(logLevels)
    {
      var m := MakeShutdown();
      Push(m);
      inShutdown := true;
    }

    /** `addBreak`: the new break joins the end of the list. */
    method AddBreak(id: u32, typ: byte, tme: u64, relative: bool)
      modifies this
      ensures breakList == old(breakList) + [NewBreak(id, typ, tme, relative)]
      ensures nowAt == old(nowAt) && inShutdown == old(inShutdown)
      ensures channels == old(channels) && logLevels == old(logLevels) && outbox == old(outbox)
    {
      breakList := breakList + [NewBreak(id, typ, tme, relative)];
    }

    /** `remBreak`: the first break with the id is removed; without one the call throws. */
    method RemBreak(id: u32) returns (r: Result<()>)
      modifies this
      ensures r.Ok? <==> FirstWithId(old(breakList), id).Some?
      ensures r.Ok? ==> var k := FirstWithId(old(breakList), id).value;
        breakList == old(breakList)[..k] + old(breakList)[k + 1..]
      ensures r.Err? ==> r.error == BREAK_NOT_FOUND && breakList == old(breakList)
      ensures nowAt == old(nowAt) && inShutdown == old(inShutdown)
      ensures channels == old(channels) && logLevels == old(logLevels) && outbox == old(outbox)
    {
      var i := 0;
      while i < |breakList|
        invariant 0 <= i <= |breakList|
        invariant forall j :: 0 <= j < i ==> breakList[j].id != id
      {
        if breakList[i].id == id {
          breakList := breakList[..i] + breakList[i + 1..];
          return Ok(());
        }
        i := i + 1;
      }
      return Err(BREAK_NOT_FOUND);
    }

    /**
     * `checkBreak`: every break takes its turn (`Turned`, `TurnReplies`) in list order,
     * the replies go out in that order, and the result says whether some
     * break of the asked type has its threshold reached.
     */
    method CheckBreak(typ: byte) returns (ret: bool)
      modifies this
      ensures breakList == Checked(old(breakList), typ, nowAt)
      ensures outbox == old(outbox) + Replies(old(breakList), typ, nowAt)
      ensures ret <==> exists j :: 0 <= j < |breakList| && Reached(breakList[j], typ, nowAt)
      ensures nowAt == old(nowAt) && inShutdown == old(inShutdown)
      ensures channels == old(channels) && logLevels == old(logLevels)
    {
      var bl, sent, r := CheckAll(breakList, typ, nowAt);
      breakList := bl;
      outbox := outbox + sent;
      ret := r;
    }

    /** `setConfig`: a "loglevel" setting is stored for its scope; other names change nothing. */
    method SetConfig(data: seq<byte>) returns (r: Result<()>)
      modifies this
      ensures r.Ok? <==> ConfigOf(data).Ok?
      ensures logLevels == if ConfigOf(data).Ok? && ConfigOf(data).value.Some? then
        old(logLevels)[ConfigOf(data).value.value.0 := ConfigOf(data).value.value.1] else old(logLevels)
      ensures nowAt == old(nowAt) && breakList == old(breakList) && inShutdown == old(inShutdown)
      ensures channels == old(channels) && outbox == old(outbox)
    {
      var c := ConfigOf(data);
      if c.Err? {
        return Err(c.error);
      }
      if c.value.Some? {
        logLevels := logLevels[c.value.value.0 := c.value.value.1];
      }
      return Ok(());
    }

    /**
     * `ctrlProcess`: the command in bytes 0..4 selects the step; a tick is
     * answered with a tock of the current time, and unknown commands are
     * only logged. Fields read past the end of the data are an error.
     */
    method CtrlProcess(data: seq<byte>) returns (r: Result<()>)
      modifies this
      ensures |data| < 4 ==> r.Err? && breakList == old(breakList) && outbox == old(outbox)
      ensures |data| >= 4 && Get(data, 0, 4) == Comm.Command.Tick.Code() ==>
        r.Ok? && outbox == old(outbox) + [SimMessage(CTRL, TockData(nowAt))] && breakList == old(breakList)
      ensures |data| >= 4 && Get(data, 0, 4) == Comm.Command.AddBreak.Code() ==>
        (r.Ok? <==> |data| >= 19) &&
        breakList == old(breakList) + (if |data| >= 19
          then [NewBreak(Get(data, 4, 4), data[17], Get(data, 8, 8), data[18] != 0)] else [])
      ensures |data| >= 4 && Get(data, 0, 4) == Comm.Command.RemBreak.Code() ==>
        (r.Ok? <==> |data| >= 8 && FirstWithId(old(breakList), Get(data, 4, 4)).Some?) &&
        (r.Ok? ==> var k := FirstWithId(old(breakList), Get(data, 4, 4)).value;
          breakList == old(breakList)[..k] + old(breakList)[k + 1..]) &&
        (r.Err? ==> breakList == old(breakList))
      ensures |data| >= 4 && Get(data, 0, 4) == Comm.Command.Shutdown.Code() ==> r.Ok? && inShutdown
      ensures |data| >= 4 && Get(data, 0, 4) == Comm.Command.Set.Code() ==>
        (r.Ok? <==> ConfigOf(data).Ok?) &&
        logLevels == if ConfigOf(data).Ok? && ConfigOf(data).value.Some? then
          old(logLevels)[ConfigOf(data).value.value.0 := ConfigOf(data).value.value.1] else old(logLevels)
      ensures |data| >= 4 && Get(data, 0, 4) !in {0, 3, 4, 5, 6} ==>
        r.Ok? && breakList == old(breakList) && outbox == old(outbox) && inShutdown == old(inShutdown)
      ensures |data| >= 4 && Get(data, 0, 4) != 4 ==> logLevels == old(logLevels)
      ensures nowAt == old(nowAt) && channels == old(channels)
    {
      if |data| < 4 {
        return Err(PAST_BUFFER);
      }
      var cmd := Get(data, 0, 4);
      if cmd == Comm.Command.Tick.Code() {
        var m := MakeTock(nowAt);
        Push(m);
        r := Ok(());
      } else if cmd == Comm.Command.AddBreak.Code() {
        if |data| < 19 {
          return Err(PAST_BUFFER);
        }
        AddBreak(Get(data, 4, 4), data[17], Get(data, 8, 8), data[18] != 0);
        r := Ok(());
      } else if cmd == Comm.Command.RemBreak.Code() {
        if |data| < 8 {
          return Err(PAST_BUFFER);
        }
        r := RemBreak(Get(data, 4, 4));
      } else if cmd == Comm.Command.Shutdown.Code() {
        Shutdown();
        r := Ok(());
      } else if cmd == Comm.Command.Set.Code() {
        r := SetConfig(data);
      } else {
        r := Ok(());
      }
    }
  }

  /** The break the host asks for with `addBreak` is the one `ctrlProcess` files. */
  lemma AddBreakDecoded(uid: nat, request: Time.Tme, typ: Comm.BreakType, relative: bool)
    requires request.Valid() && Comm.AddBreakPayload(uid, request, typ, relative).Ok?
    ensures var p := Comm.AddBreakPayload(uid, request, typ, relative).value;
      |p| == 19 && Get(p, 0, 4) == Comm.Command.AddBreak.Code() &&
      NewBreak(Get(p, 4, 4), p[17], Get(p, 8, 8), p[18] != 0) ==
        NewBreak(uid, typ.Code(), request.ToInt().value, relative)
  {
    var p := Comm.AddBreakPayload(uid, request, typ, relative).value;
    Comm.AddBreakFields(uid, request, typ, relative);
    assert Slice(p[..4], 0, 4) == p[0..4];
    assert p[8..17][..8] == p[8..16];
    assert p[17..18][0] == p[17];
  }

  // ---------------------------------------------------------------------
  // Player

  /** Every queued message holds a change (`change(raw)` reads past a shorter buffer). */
  predicate AllChanges(msgs: seq<SimMessage>)
  {
    msgs == [] || (ChangeOfRaw(msgs[0].data).Ok? && AllChanges(msgs[1..]))
  }

  /** The changes of the queued messages. */
  function Decoded(msgs: seq<SimMessage>): (r: seq<SimChange>)
    requires AllChanges(msgs)
    ensures |r| == |msgs|
  {
    if msgs == [] then [] else [ChangeOfRaw(msgs[0].data).value] + Decoded(msgs[1..])
  }

  /** Each decoded change is the one its message holds. */
  lemma {:induction false} DecodedAt(msgs: seq<SimMessage>, k: nat)
    requires AllChanges(msgs) && k < |msgs|
    ensures Ok(Decoded(msgs)[k]) == ChangeOfRaw(msgs[k].data)
  {
    if k > 0 {
      DecodedAt(msgs[1..], k - 1);
    }
  }

  /** Dropping j messages drops j changes. */
  lemma {:induction false} DecodedTail(msgs: seq<SimMessage>, j: nat)
    requires AllChanges(msgs) && j <= |msgs|
    ensures AllChanges(msgs[j..])
    ensures Decoded(msgs[j..]) == Decoded(msgs)[j..]
  {
    if j > 0 {
      DecodedTail(msgs[1..], j - 1);
      assert msgs[1..][j - 1..] == msgs[j..];
    }
  }

  /** The first change later than `tme`, or |s| if there is none. */
  function FirstAfter(s: seq<SimChange>, tme: u64): (k: nat)
    ensures k <= |s| && (k < |s| ==> s[k].time > tme)
    ensures forall j :: 0 <= j < k ==> s[j].time <= tme
  {
    if s == [] || s[0].time > tme then 0 else 1 + FirstAfter(s[1..], tme)
  }

  /** With the changes in time order, `FirstAfter` splits them into those at or before `tme` and those after. */
  lemma FirstAfterSorted(s: seq<SimChange>, tme: u64)
    requires forall i, j :: 0 <= i < j < |s| ==> s[i].time <= s[j].time
    ensures forall j :: FirstAfter(s, tme) <= j < |s| ==> s[j].time > tme
  {
  }

  /**
   * `Player`: plays the changes of a channel into the simulation.
   * `current` is the value driven now, `next` the change that follows;
   * `ahead` says `next` is a received change not yet taken.
   */
  class Player {
    const queue: MessageQueue
    const cycles: bool
    var next: SimChange
    var current: SimChange
    var valid: bool
    var ahead: bool

    /** Both changes start as the reset value at time 0. */
    constructor(q: MessageQueue, reset: seq<nib>, sync: bool, cycl: bool)
      ensures queue == q && cycles == cycl && !valid && !ahead
      ensures next == SimChange(0, cycl, reset, sync) && current == next
    {
      queue := q;
      cycles := cycl;
      next := SimChange(0, cycl, reset, sync);
      current := SimChange(0, cycl, reset, sync);
      valid := false;
      ahead := false;
    }

    /** `parseMessage`: the change in the message becomes `next`. */
    method ParseMessage(m: SimMessage)
      requires ChangeOfRaw(m.data).Ok?
      modifies this
      ensures Ok(next) == ChangeOfRaw(m.data) && ahead
      ensures current == old(current) && valid == old(valid)
    {
      next := ChangeOfRaw(m.data).value;
      ahead := true;
    }

    /** `updateNext`: a queued message, if there is one, becomes `next`. */
    method UpdateNext()
      requires AllChanges(queue.queue)
      modifies this, queue
      ensures old(queue.queue) == [] ==> queue.queue == [] && next == old(next) && ahead == old(ahead)
      ensures old(queue.queue) != [] ==>
        queue.queue == old(queue.queue)[1..] && next == Decoded(old(queue.queue))[0] && ahead
      ensures AllChanges(queue.queue)
      ensures current == old(current) && valid == old(valid)
    {
      if queue.queue != [] {
        var m := queue.Pop();
        assert m == old(queue.queue)[0];
        ParseMessage(m);
      }
    }

    /**
     * `get`: rolls forward over every change due at `tme`, and gives the
     * value, whether it is synchronous, and until when it holds. With
     * s the pending changes (`next`, then the queue) and k the first of
     * them later than `tme`: for k = 0 nothing changes; otherwise the
     * value is that of change k-1, synchronous because change k has
     * arrived; when all are due the last one stays, and if it is
     * synchronous the player times out waiting for its successor.
     */
    method Get(tme: u64) returns (r: Result<(seq<nib>, bool, u64)>)
      requires AllChanges(queue.queue)
      modifies this, queue
      ensures valid == old(valid)
      ensures var s := [old(next)] + Decoded(old(queue.queue)); FirstAfter(s, tme) == 0 ==>
        next == old(next) && current == old(current) && ahead == old(ahead) &&
        queue.queue == old(queue.queue) &&
        r == Ok((current.value, current.sync, if current.sync then next.time else 0))
      ensures var s := [old(next)] + Decoded(old(queue.queue)); var k := FirstAfter(s, tme);
        0 < k < |s| ==>
          current == s[k - 1].(sync := true) && next == s[k] && ahead &&
          queue.queue == old(queue.queue)[k..] && r == Ok((s[k - 1].value, true, s[k].time))
      ensures var s := [old(next)] + Decoded(old(queue.queue)); var k := FirstAfter(s, tme);
        k == |s| ==>
          current == s[k - 1] && next == s[k - 1] && !ahead && queue.queue == [] &&
          r == if s[k - 1].sync then Err(TIMED_OUT) else Ok((s[k - 1].value, false, 0))
    {
      ghost var q0 := queue.queue;
      ghost var s := [next] + Decoded(q0);
      ghost var k := FirstAfter(s, tme);
      ghost var j := 0;
      while next.time <= tme
        invariant 0 <= j < |s| && j <= k
        invariant next == s[j] && queue.queue == q0[j..]
        invariant j == 0 ==> current == old(current) && ahead == old(ahead)
        invariant j > 0 ==> current == s[j - 1].(sync := true) && ahead
        invariant valid == old(valid)
        decreases |s| - j
      {
        RollForward(q0, j);
        if ahead {
          j := j + 1;
        } else {
          assert j + 1 == |s| == k;
          if current.sync {
            return Err(TIMED_OUT);
          }
          break;
        }
      }
      assert k == |s| || (k == j && next.time > tme);
      r := Ok((current.value, current.sync, if current.sync then next.time else 0));
    }

    /**
     * One step of `get` rolling forward: `next` becomes current, and a
     * queued change, if any, becomes `next` and makes current synchronous.
     */
    method RollForward(ghost q0: seq<SimMessage>, ghost j: nat)
      requires AllChanges(q0) && j <= |q0| && queue.queue == q0[j..]
      modifies this, queue
      ensures j == |q0| ==> current == old(next) && next == old(next) && !ahead && queue.queue == []
      ensures j < |q0| ==>
        current == old(next).(sync := true) && next == Decoded(q0)[j] && ahead && queue.queue == q0[j + 1..]
      ensures valid == old(valid)
    {
      DecodedTail(q0, j);
      current := next;
      ahead := false;
      UpdateNext();
      if ahead {
        current := current.(sync := true);
      }
    }

    /**
     * `getNext`: without a value waiting to be taken, the next received
     * change (a queued one, else one `get` left ahead) becomes current, or
     * a synchronous player times out. A waiting value is reported new, and
     * taken, once `tme` reaches its time.
     */
    method GetNext(tme: u64) returns (r: Result<(seq<nib>, bool)>)
      requires AllChanges(queue.queue)
      modifies this, queue
      ensures var got := old(queue.queue) != [] || old(ahead);
        var arrived := if old(queue.queue) != [] then Decoded(old(queue.queue))[0] else old(next);
        var waiting := old(valid) || got;
        var cur := if !old(valid) && got then arrived else old(current);
        (old(valid) ==> queue.queue == old(queue.queue) && next == old(next) && ahead == old(ahead)) &&
        (!old(valid) ==>
          queue.queue == (if old(queue.queue) != [] then old(queue.queue)[1..] else []) &&
          next == arrived && ahead == (!got && old(ahead))) &&
        current == cur &&
        (!waiting && cur.sync ==> r == Err(TIMED_OUT) && valid == old(valid)) &&
        (waiting || !cur.sync ==>
          r == Ok((cur.value, waiting && tme >= cur.time)) && valid == (waiting && tme < cur.time))
    {
      if !valid {
        UpdateNext();
        if ahead {
          valid := true;
          current := next;
          ahead := false;
        } else if current.sync {
          return Err(TIMED_OUT);
        }
      }
      var newval := false;
      if valid && tme >= current.time {
        valid := false;
        newval := true;
      }
      return Ok((current.value, newval));
    }
  }

  // ---------------------------------------------------------------------
  // Recorder

  /** `Recorder`: sends the changes of a channel, leaving out repeats of the last value. */
  class Recorder {
    const ctrl: SimControl
    const channel: seq<byte>
    const cycles: bool
    var last: seq<nib>
    var now: u64

    constructor(c: SimControl, chan: seq<byte>, reset: seq<nib>, cycl: bool)
      ensures ctrl == c && channel == chan && cycles == cycl && last == reset && now == 0
    {
      ctrl := c;
      channel := chan;
      cycles := cycl;
      last := reset;
      now := 0;
    }

    /**
     * `put`: a value equal to the last one is dropped unless forced;
     * otherwise it becomes the last value and one change message goes out.
     */
    method Put(curr: u64, val: seq<nib>, sync: bool, force: bool) returns (changed: bool)
      modifies this, ctrl
      ensures now == curr
      ensures changed <==> force || val != old(last)
      ensures changed ==>
        last == val &&
        ctrl.outbox == old(ctrl.outbox) + [SimMessage(channel, ChangeBytes(SimChange(curr, cycles, val, sync)))]
      ensures !changed ==> last == old(last) && ctrl.outbox == old(ctrl.outbox)
      ensures ctrl.nowAt == old(ctrl.nowAt) && ctrl.breakList == old(ctrl.breakList)
      ensures ctrl.inShutdown == old(ctrl.inShutdown) && ctrl.channels == old(ctrl.channels)
      ensures ctrl.logLevels == old(ctrl.logLevels)
    {
      now := curr;
      if !force && val == last {
        return false;
      }
      last := val;
      var ch := SimChange(now, cycles, val, sync);
      var buf := new byte[ChangeRawSize(ch)];
      ChangeRawDump(ch, buf, 0);
      assert buf[..] == buf[..][0..buf.Length];
      ctrl.Push(SimMessage(channel, buf[..]));
      return true;
    }
  }
}
