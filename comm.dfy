// The host side of the simulation-control protocol (Python package `sico`):
// framed messages, the control commands, breaks and waits registered with
// the simulator, and the channel that turns a stream of changes into
// messages. Channel names are kept as their UTF-8 bytes.
module Comm {
  import opened Wrappers
  import opened Arith
  import opened BigEndian
  import Time
  import opened Signal

  const BASE_LENGTH: nat := 8
  /** The control channel "ctrl". */
  const SC_CHAN: seq<byte> := [0x63, 0x74, 0x72, 0x6c]
  const KEY_ERROR: string := "KeyError"

  // ---------------------------------------------------------------------
  // Message framing: length(4), channel length(4), channel, data

  datatype Message = Message(channel: seq<byte>, data: Option<seq<byte>>)

  /** The data bytes written: None and empty data both write nothing. */
  function Payload(m: Message): seq<byte>
  {
    if m.data.Some? then m.data.value else []
  }

  /** `Message.toBytes`; the two lengths must fit in 32 bits. */
  function MessageToBytes(m: Message): (r: Result<seq<byte>>)
    ensures r.Ok? <==> BASE_LENGTH + |m.channel| + |Payload(m)| < Pow(256, 4)
    ensures r.Ok? ==> |r.value| == BASE_LENGTH + |m.channel| + |Payload(m)|
    ensures r.Ok? ==> Decode(r.value[..4]) == |r.value|
  {
    var total := BASE_LENGTH + |m.channel| + |Payload(m)|;
    match BigEndian.ToBytes(total, 4)
    case Err(e) => Err(e)
    case Ok(lb) =>
      match BigEndian.ToBytes(|m.channel|, 4)
      case Err(e) => Err(e)
      case Ok(cb) =>
        assert (lb + cb + m.channel + Payload(m))[..4] == lb;
        Ok(lb + cb + m.channel + Payload(m))
  }

  /** `Message.fromBytes`: the length field is not looked at, the rest after the channel is data. */
  function MessageFromBytes(raw: seq<byte>): (m: Message)
    ensures m.data.Some?
    ensures |m.channel| + |m.data.value| <= |raw|
  {
    var chanLength := Decode(Slice(raw, 4, 8));
    Message(Slice(raw, 8, 8 + chanLength), Some(Drop(raw, 8 + chanLength)))
  }

  /** Decoding an encoded message restores the channel and the data (None coming back empty). */
  lemma MessageRoundTrip(m: Message)
    requires MessageToBytes(m).Ok?
    ensures MessageFromBytes(MessageToBytes(m).value) == Message(m.channel, Some(Payload(m)))
  {
    var r := MessageToBytes(m).value;
    var n := |m.channel|;
    PowersOf256();
    var cb := BigEndian.ToBytes(n, 4).value;
    var lb := BigEndian.ToBytes(BASE_LENGTH + n + |Payload(m)|, 4).value;
    assert r == lb + cb + m.channel + Payload(m);
    assert r[4..8] == cb;
    assert r[8..8 + n] == m.channel;
    assert r[8 + n..] == Payload(m);
  }

  /**
   * The receiving side of a connection: four bytes give the total length,
   * then the rest of the message is read. A stream that ends early raises
   * `IncompleteReadError`.
   */
  function ReadFrame(stream: seq<byte>): (r: Result<(Message, seq<byte>)>)
    ensures r.Ok? ==> |r.value.1| < |stream|
  {
    if |stream| < 4 then Err("IncompleteReadError")
    else
      var size := Decode(stream[..4]);
      if size < 4 then Err("ValueError: readexactly size can not be less than zero")
      else if |stream| < size then Err("IncompleteReadError")
      else Ok((MessageFromBytes(stream[..size]), stream[size..]))
  }

  /** A stream of encoded messages is read back message by message. */
  lemma ReadFrameOfMessage(m: Message, rest: seq<byte>)
    requires MessageToBytes(m).Ok?
    ensures ReadFrame(MessageToBytes(m).value + rest) == Ok((Message(m.channel, Some(Payload(m))), rest))
  {
    var r := MessageToBytes(m).value;
    var s := r + rest;
    assert s[..4] == r[..4];
    assert s[..|r|] == r;
    assert s[|r|..] == rest;
    MessageRoundTrip(m);
  }

  // ---------------------------------------------------------------------
  // Commands and break kinds

  datatype Command = Tick | Tock | Exit | Shutdown | Set | AddBreak | RemBreak | AckBreak | HitBreak
  {
    function Code(): (c: nat)
      ensures c <= 8
    {
      match this
      case Tick => 0 case Tock => 1 case Exit => 2 case Shutdown => 3 case Set => 4
      case AddBreak => 5 case RemBreak => 6 case AckBreak => 7 case HitBreak => 8
    }
  }

  function CommandOfCode(n: nat): (r: Result<Command>)
    ensures r.Ok? <==> n <= 8
    ensures r.Ok? ==> r.value.Code() == n
  {
    if n == 0 then Ok(Tick) else if n == 1 then Ok(Tock) else if n == 2 then Ok(Exit)
    else if n == 3 then Ok(Shutdown) else if n == 4 then Ok(Set) else if n == 5 then Ok(AddBreak)
    else if n == 6 then Ok(RemBreak) else if n == 7 then Ok(AckBreak) else if n == 8 then Ok(HitBreak)
    else Err("ValueError: not a valid Command")
  }

  /** `Command.toBytes`: the code in four big-endian bytes. */
  function CommandToBytes(c: Command): (r: seq<byte>)
    ensures |r| == 4 && Decode(r) == c.Code()
  {
    PowersOf256();
    BigEndian.ToBytes(c.Code(), 4).value
  }

  /** `Command.fromBytes`: the code in `data[0:4]`; an unknown code raises. */
  function CommandFromBytes(data: seq<byte>): (r: Result<Command>)
    ensures r.Ok? ==> Decode(Slice(data, 0, 4)) == r.value.Code()
  {
    CommandOfCode(Decode(Slice(data, 0, 4)))
  }

  /** Every command decodes back from its four bytes, whatever follows them. */
  lemma CommandRoundTrip(c: Command, rest: seq<byte>)
    ensures CommandFromBytes(CommandToBytes(c) + rest) == Ok(c)
  {
    assert Slice(CommandToBytes(c) + rest, 0, 4) == CommandToBytes(c);
    CodeInjective(c, CommandOfCode(c.Code()).value);
  }

  /** Four bytes that decode to a command are that command's encoding. */
  lemma CommandBytesUnique(data: seq<byte>)
    requires |data| == 4 && CommandFromBytes(data).Ok?
    ensures CommandToBytes(CommandFromBytes(data).value) == data
  {
    assert Slice(data, 0, 4) == data;
    EncodeDecode(data);
    EncodeDecode(CommandToBytes(CommandFromBytes(data).value));
  }

  lemma CodeInjective(a: Command, b: Command)
    requires a.Code() == b.Code()
    ensures a == b
  {
  }

  datatype BreakType = Hold | Stop | Finish
  {
    function Code(): (c: byte)
    {
      match this case Hold => 0 case Stop => 1 case Finish => 2
    }
  }

  /** `BreakType.toBytes`: one byte. */
  function BreakTypeToBytes(t: BreakType): (r: seq<byte>)
    ensures |r| == 1 && BreakTypeFromBytes(r) == Ok(t)
  {
    [t.Code()]
  }

  /** `BreakType.fromBytes`: `data[0]`; an empty input or an unknown code raises. */
  function BreakTypeFromBytes(data: seq<byte>): (r: Result<BreakType>)
    ensures r.Ok? ==> |data| > 0 && data[0] == r.value.Code()
  {
    if |data| == 0 then Err("IndexError: index out of range")
    else if data[0] == 0 then Ok(Hold)
    else if data[0] == 1 then Ok(Stop)
    else if data[0] == 2 then Ok(Finish)
    else Err("ValueError: not a valid BreakType")
  }

  // ---------------------------------------------------------------------
  // Break requests

  /**
   * The `addBreak` payload: command(4), uid(4), requested time(9),
   * kind(1), relative flag(1). The uid and the time must be encodable.
   */
  function AddBreakPayload(uid: nat, request: Time.Tme, typ: BreakType, relative: bool): (r: Result<seq<byte>>)
    requires request.Valid()
    ensures r.Ok? <==> uid < Pow(256, 4) && Time.ToBytes(request).Ok?
    ensures r.Ok? ==> |r.value| == 19
  {
    match BigEndian.ToBytes(uid, 4)
    case Err(e) => Err(e)
    case Ok(ub) =>
      match Time.ToBytes(request)
      case Err(e) => Err(e)
      case Ok(tb) => Ok(CommandToBytes(AddBreak) + ub + tb + BreakTypeToBytes(typ) + [if relative then 1 else 0])
  }

  /** Each field of an `addBreak` payload reads back at its offset. */
  lemma AddBreakFields(uid: nat, request: Time.Tme, typ: BreakType, relative: bool)
    requires request.Valid() && AddBreakPayload(uid, request, typ, relative).Ok?
    ensures var p := AddBreakPayload(uid, request, typ, relative).value;
      CommandFromBytes(p[..4]) == Ok(AddBreak) && Decode(p[4..8]) == uid &&
      Time.FromBytes(p[8..17]) == Ok(request) && BreakTypeFromBytes(p[17..18]) == Ok(typ) &&
      p[18] == (if relative then 1 else 0)
  {
    var p := AddBreakPayload(uid, request, typ, relative).value;
    var cb, ub, tb := CommandToBytes(AddBreak), BigEndian.ToBytes(uid, 4).value, Time.ToBytes(request).value;
    assert p == cb + ub + tb + BreakTypeToBytes(typ) + [if relative then 1 else 0];
    assert p[..4] == cb + [];
    CommandRoundTrip(AddBreak, []);
    assert p[4..8] == ub;
    assert p[8..17] == tb + [];
    Time.BytesRoundTrip(request, []);
    assert p[17..18] == BreakTypeToBytes(typ);
  }

  /** The `remBreak` payload: command(4), uid(4). */
  function RemBreakPayload(uid: nat): (r: Result<seq<byte>>)
    ensures r.Ok? <==> uid < Pow(256, 4)
    ensures r.Ok? ==> |r.value| == 8 && CommandFromBytes(r.value) == Ok(RemBreak) && Decode(r.value[4..]) == uid
  {
    match BigEndian.ToBytes(uid, 4)
    case Err(e) => Err(e)
    case Ok(ub) =>
      CommandRoundTrip(RemBreak, ub);
      assert (CommandToBytes(RemBreak) + ub)[4..] == ub;
      Ok(CommandToBytes(RemBreak) + ub)
  }

  /** `Break`: a requested threshold, acknowledged and hit by the simulator. */
  class Break {
    const uid: nat
    const request: Time.Tme
    const relative: bool
    const typ: BreakType
    var thresh: Option<Time.Tme>
    var stopped: Option<Time.Tme>
    var ack: bool
    var hit: bool

    constructor(uid: nat, request: Time.Tme, typ: BreakType, relative: bool)
      ensures this.uid == uid && this.request == request && this.typ == typ && this.relative == relative
      ensures thresh.None? && stopped.None? && !ack && !hit
    {
      this.uid := uid;
      this.request := request;
      this.typ := typ;
      this.relative := relative;
      thresh := None;
      stopped := None;
      ack := false;
      hit := false;
    }

    /** `setAck`: the promised threshold arrives. */
    method SetAck(t: Time.Tme)
      modifies this
      ensures thresh == Some(t) && ack && stopped == old(stopped) && hit == old(hit)
    {
      thresh := Some(t);
      ack := true;
    }

    /** `setHit`: the simulator stopped at the break. */
    method SetHit(t: Time.Tme)
      modifies this
      ensures stopped == Some(t) && hit && thresh == old(thresh) && ack == old(ack)
    {
      stopped := Some(t);
      hit := true;
    }
  }

  // ---------------------------------------------------------------------
  // Waits

  /** `Wait`: resolved by the first `tock` whose time reaches the threshold. */
  class Wait {
    const thresh: Time.Tme
    const duration: Time.Tme
    var hitTime: Option<Time.Tme>
    var hit: bool

    constructor(thresh: Time.Tme, duration: Time.Tme)
      ensures this.thresh == thresh && this.duration == duration && hitTime.None? && !hit
    {
      this.thresh := thresh;
      this.duration := duration;
      hitTime := None;
      hit := false;
    }
  }

  /** The threshold and duration of a wait set at `now`: `now + time` when relative, `time` otherwise. */
  function WaitBounds(now: Time.Tme, time: Time.Tme, relative: bool): (r: Result<(Time.Tme, Time.Tme)>)
    requires now.Valid() && time.Valid()
    ensures r.Ok? ==> r.value.0.Valid() && r.value.1.Valid()
    ensures r.Ok? && relative ==> r.value.1 == time && Time.Sub(r.value.0, Time.TmeOp(time)) == Ok(now)
    ensures r.Ok? && !relative ==> r.value.0 == time && Time.Sub(time, Time.TmeOp(now)) == Ok(r.value.1)
    ensures r.Ok? <==> now.Typ() == time.Typ() && now.ToInt().Some? && time.ToInt().Some?
  {
    if relative then
      match Time.Add(now, Time.TmeOp(time))
      case Err(e) => Err(e)
      case Ok(th) =>
        Time.AddSubDomain(now, Time.TmeOp(time), false);
        Time.AddThenSub(now, Time.TmeOp(time));
        Ok((th, time))
    else
      Time.AddSubDomain(time, Time.TmeOp(now), true);
      match Time.Sub(time, Time.TmeOp(now))
      case Err(e) => Err(e)
      case Ok(d) => Ok((time, d))
  }

  /** A wait whose threshold has been reached. */
  predicate Due(w: Wait, now: Time.Tme)
  {
    Time.Le(w.thresh, now) == Ok(true)
  }

  /** The waits `checkWaits` keeps, in order; a comparison that raises stops it. */
  function Remaining(ws: seq<Wait>, now: Time.Tme): (r: Result<seq<Wait>>)
    ensures r.Ok? ==> |r.value| <= |ws|
  {
    if ws == [] then Ok([])
    else
      match Remaining(ws[..|ws| - 1], now)
      case Err(e) => Err(e)
      case Ok(rest) =>
        match Time.Le(ws[|ws| - 1].thresh, now)
        case Err(e) => Err(e)
        case Ok(due) => Ok(if due then rest else rest + [ws[|ws| - 1]])
  }

  /** Exactly the waits not yet due are kept. */
  lemma {:induction false} RemainingMembers(ws: seq<Wait>, now: Time.Tme)
    requires Remaining(ws, now).Ok?
    ensures forall w :: w in Remaining(ws, now).value <==> w in ws && Time.Le(w.thresh, now) == Ok(false)
  {
    if ws != [] {
      var init := ws[..|ws| - 1];
      RemainingMembers(init, now);
      assert ws == init + [ws[|ws| - 1]];
    }
  }

  /** `checkWaits` raises exactly when some threshold cannot be compared with now. */
  lemma {:induction false} RemainingDefined(ws: seq<Wait>, now: Time.Tme)
    ensures Remaining(ws, now).Ok? <==> forall k :: 0 <= k < |ws| ==> Time.Le(ws[k].thresh, now).Ok?
  {
    if ws != [] {
      RemainingDefined(ws[..|ws| - 1], now);
    }
  }

  // ---------------------------------------------------------------------
  // Control

  /** The message that keeps the tick-tock going. */
  function TickMessage(): Message
  {
    Message(SC_CHAN, Some(CommandToBytes(Tick)))
  }

  /**
   * `Control`: the simulator's time as last reported, the breaks by uid,
   * the pending waits, the outgoing queue and one incoming queue per
   * channel. `unique` is the next break uid.
   */
  class Control {
    var now: Time.Tme
    var breaks: map<nat, Break>
    var waits: seq<Wait>
    var sendQueue: seq<Message>
    var recvQueues: map<seq<byte>, seq<Message>>
    var shutdownRequest: bool
    var unique: nat

    /** Breaks are filed under their own uid, and every uid handed out is below `unique`. */
    ghost predicate Valid()
      reads this
    {
      now.Valid() && unique >= 2 && forall u :: u in breaks ==> breaks[u].uid == u && u < unique
    }

    /** A new control at time zero; its command task starts by sending a tick. */
    constructor()
      ensures Valid() && now == Time.Zero(Time.NoRef) && breaks == map[] && waits == []
      ensures sendQueue == [TickMessage()] && recvQueues == map[] && !shutdownRequest && unique == 2
    {
      now := Time.Zero(Time.NoRef);
      breaks := map[];
      waits := [];
      sendQueue := [TickMessage()];
      recvQueues := map[];
      shutdownRequest := false;
      unique := 2;
    }

    /** `getQueue`: the queue of a channel, created empty on first use. */
    method GetQueue(name: seq<byte>) returns (q: seq<Message>)
      modifies this
      ensures recvQueues == if name in old(recvQueues) then old(recvQueues) else old(recvQueues)[name := []]
      ensures q == recvQueues[name]
      ensures now == old(now) && breaks == old(breaks) && waits == old(waits) && sendQueue == old(sendQueue)
      ensures shutdownRequest == old(shutdownRequest) && unique == old(unique)
    {
      if name !in recvQueues {
        recvQueues := recvQueues[name := []];
      }
      q := recvQueues[name];
    }

    /** One step of the dispatcher: a received message joins its channel's queue. */
    method Dispatch(msg: Message)
      modifies this
      ensures msg.channel in recvQueues
      ensures recvQueues == old(recvQueues)[msg.channel :=
        (if msg.channel in old(recvQueues) then old(recvQueues)[msg.channel] else []) + [msg]]
      ensures now == old(now) && breaks == old(breaks) && waits == old(waits) && sendQueue == old(sendQueue)
      ensures shutdownRequest == old(shutdownRequest) && unique == old(unique)
    {
      var q := GetQueue(msg.channel);
      recvQueues := recvQueues[msg.channel := q + [msg]];
    }

    /** `ccPush`. */
    method Push(msg: Message)
      modifies this
      ensures sendQueue == old(sendQueue) + [msg]
      ensures now == old(now) && breaks == old(breaks) && waits == old(waits) && recvQueues == old(recvQueues)
      ensures shutdownRequest == old(shutdownRequest) && unique == old(unique)
    {
      sendQueue := sendQueue + [msg];
    }

    /**
     * `checkWaits`: resolves every wait whose threshold is reached, with
     * the current time, and keeps the others in order.
     */
    method CheckWaits() returns (r: Result<()>)
      modifies this, set w | w in waits
      ensures r.Ok? <==> Remaining(old(waits), now).Ok?
      ensures r.Ok? ==> waits == Remaining(old(waits), now).value
      ensures r.Err? ==> waits == old(waits)
      ensures r.Ok? ==> forall w :: w in old(waits) && Due(w, now) ==> w.hit && w.hitTime == Some(now)
      ensures forall w :: w in old(waits) && !Due(w, now) ==> w.hit == old(w.hit) && w.hitTime == old(w.hitTime)
      ensures now == old(now) && breaks == old(breaks) && sendQueue == old(sendQueue)
      ensures recvQueues == old(recvQueues) && shutdownRequest == old(shutdownRequest) && unique == old(unique)
    {
      var ws := waits;
      var newlist: seq<Wait> := [];
      var i := 0;
      while i < |ws|
        invariant i <= |ws| && waits == ws
        invariant now == old(now) && breaks == old(breaks) && sendQueue == old(sendQueue)
        invariant recvQueues == old(recvQueues) && shutdownRequest == old(shutdownRequest) && unique == old(unique)
        invariant Remaining(ws[..i], now) == Ok(newlist)
        invariant forall j :: 0 <= j < i && Due(ws[j], now) ==> ws[j].hit && ws[j].hitTime == Some(now)
        invariant forall w :: w in ws && !Due(w, now) ==> w.hit == old(w.hit) && w.hitTime == old(w.hitTime)
      {
        assert ws[..i + 1][..i] == ws[..i];
        var w := ws[i];
        var due := Time.Le(w.thresh, now);
        if due.Err? {
          RemainingErr(ws, i + 1, now);
          return Err(due.error);
        }
        if due.value {
          w.hitTime := Some(now);
          w.hit := true;
        } else {
          newlist := newlist + [w];
        }
        i := i + 1;
      }
      assert ws[..i] == ws;
      waits := newlist;
      return Ok(());
    }

    /** `ccProcess` for a `tock`: the simulator's time is taken over, waits are checked, the next tick goes out. */
    method TockStep(data: seq<byte>) returns (r: Result<()>)
      requires Valid()
      modifies this, set w | w in waits
      ensures Valid()
      ensures r.Ok? <==> Time.FromBytes(Drop(data, 4)).Ok? && Remaining(old(waits), now).Ok?
      ensures r.Ok? ==> Time.FromBytes(Drop(data, 4)) == Ok(now)
      ensures r.Ok? ==> waits == Remaining(old(waits), now).value && sendQueue == old(sendQueue) + [TickMessage()]
      ensures r.Ok? ==> forall w :: w in old(waits) && Due(w, now) ==> w.hit && w.hitTime == Some(now)
      ensures forall w :: w in old(waits) && !Due(w, now) ==> w.hit == old(w.hit) && w.hitTime == old(w.hitTime)
      ensures breaks == old(breaks) && recvQueues == old(recvQueues) && unique == old(unique)
      ensures shutdownRequest == old(shutdownRequest)
    {
      var t := Time.FromBytes(Drop(data, 4));
      if t.Err? {
        return Err(t.error);
      }
      now := t.value;
      r := CheckWaits();
      if r.Ok? {
        Push(TickMessage());
      }
    }

    /** `ccProcess` for `ackBreak`/`hitBreak`: the uid in bytes 4..8 addresses the break, the time follows. */
    method AckOrHit(data: seq<byte>, isHit: bool) returns (r: Result<()>)
      requires Valid()
      modifies breaks.Values
      ensures var uid := Decode(Slice(data, 4, 8));
        r.Ok? <==> uid in breaks && Time.FromBytes(Drop(data, 8)).Ok?
      ensures r.Ok? && !isHit ==> var b := breaks[Decode(Slice(data, 4, 8))];
        b.thresh.Some? && Time.FromBytes(Drop(data, 8)) == Ok(b.thresh.value) && b.ack &&
        b.stopped == old(b.stopped) && b.hit == old(b.hit)
      ensures r.Ok? && isHit ==> var b := breaks[Decode(Slice(data, 4, 8))];
        b.stopped.Some? && Time.FromBytes(Drop(data, 8)) == Ok(b.stopped.value) && b.hit &&
        b.thresh == old(b.thresh) && b.ack == old(b.ack)
      ensures forall u :: u in breaks && (r.Err? || u != Decode(Slice(data, 4, 8))) ==>
        breaks[u].thresh == old(breaks[u].thresh) && breaks[u].ack == old(breaks[u].ack) &&
        breaks[u].stopped == old(breaks[u].stopped) && breaks[u].hit == old(breaks[u].hit)
    {
      var uid := Decode(Slice(data, 4, 8));
      if uid !in breaks {
        return Err(KEY_ERROR);
      }
      var t := Time.FromBytes(Drop(data, 8));
      if t.Err? {
        return Err(t.error);
      }
      var b := breaks[uid];
      if isHit {
        b.SetHit(t.value);
      } else {
        b.SetAck(t.value);
      }
      return Ok(());
    }

    /**
     * `ccProcess`: one message of the control channel. Commands other
     * than tock, ackBreak, hitBreak and shutdown are ignored; an unknown
     * code raises.
     */
    method Process(msg: Message) returns (r: Result<()>)
      requires Valid()
      modifies this, (set w | w in waits), breaks.Values
      ensures Valid()
      ensures msg.data.None? ==> r.Err?
      ensures msg.data.Some? && CommandFromBytes(msg.data.value).Err? ==> r.Err?
      ensures shutdownRequest == old(shutdownRequest) ||
        (msg.data.Some? && CommandFromBytes(msg.data.value) == Ok(Shutdown) && shutdownRequest)
      ensures (msg.data.Some? && CommandFromBytes(msg.data.value).Ok? &&
        CommandFromBytes(msg.data.value).value !in {Command.Tock, AckBreak, HitBreak, Shutdown}) ==>
        (r.Ok? && now == old(now) && waits == old(waits) && sendQueue == old(sendQueue))
      ensures breaks == old(breaks) && recvQueues == old(recvQueues) && unique == old(unique)
      ensures msg.data.Some? && CommandFromBytes(msg.data.value) == Ok(Command.Tock) ==>
        var d := msg.data.value;
        (r.Ok? <==> Time.FromBytes(Drop(d, 4)).Ok? && Remaining(old(waits), now).Ok?) &&
        (r.Ok? ==>
           Time.FromBytes(Drop(d, 4)) == Ok(now) && waits == Remaining(old(waits), now).value &&
           sendQueue == old(sendQueue) + [TickMessage()])
      ensures msg.data.Some? && CommandFromBytes(msg.data.value) == Ok(Command.Tock) && r.Ok? ==>
        forall w :: w in old(waits) && Due(w, now) ==> w.hit && w.hitTime == Some(now)
      ensures forall w :: w in old(waits) && !Due(w, now) ==> w.hit == old(w.hit) && w.hitTime == old(w.hitTime)
      ensures msg.data.Some? && CommandFromBytes(msg.data.value) in {Ok(AckBreak), Ok(HitBreak)} ==>
        var d := msg.data.value;
        (r.Ok? <==> Decode(Slice(d, 4, 8)) in breaks && Time.FromBytes(Drop(d, 8)).Ok?) &&
        now == old(now) && waits == old(waits) && sendQueue == old(sendQueue)
      ensures msg.data.Some? && CommandFromBytes(msg.data.value) == Ok(AckBreak) && r.Ok? ==>
        var b := breaks[Decode(Slice(msg.data.value, 4, 8))];
        b.thresh.Some? && Time.FromBytes(Drop(msg.data.value, 8)) == Ok(b.thresh.value) && b.ack &&
        b.stopped == old(b.stopped) && b.hit == old(b.hit)
      ensures msg.data.Some? && CommandFromBytes(msg.data.value) == Ok(HitBreak) && r.Ok? ==>
        var b := breaks[Decode(Slice(msg.data.value, 4, 8))];
        b.stopped.Some? && Time.FromBytes(Drop(msg.data.value, 8)) == Ok(b.stopped.value) && b.hit &&
        b.thresh == old(b.thresh) && b.ack == old(b.ack)
      ensures forall u ::
        (u in breaks && (r.Err? || msg.data.None? ||
           CommandFromBytes(msg.data.value) !in {Ok(AckBreak), Ok(HitBreak)} ||
           u != Decode(Slice(msg.data.value, 4, 8)))) ==>
        breaks[u].thresh == old(breaks[u].thresh) && breaks[u].ack == old(breaks[u].ack) &&
        breaks[u].stopped == old(breaks[u].stopped) && breaks[u].hit == old(breaks[u].hit)
    {
      if msg.data.None? {
        return Err("TypeError: 'NoneType' object is not subscriptable");
      }
      var data := msg.data.value;
      var cmd := CommandFromBytes(data);
      if cmd.Err? {
        return Err(cmd.error);
      }
      match cmd.value {
        case Tock =>
          r := TockStep(data);
        case AckBreak =>
          r := AckOrHit(data, false);
        case HitBreak =>
          r := AckOrHit(data, true);
        case Shutdown =>
          shutdownRequest := true;
          r := Ok(());
        case _ =>
          r := Ok(());
      }
    }

    /**
     * `setBreak`: without a time the break is relative zero; with a time
     * and no `relative` it is absolute. The new break is filed under a
     * fresh uid and its `addBreak` request is queued.
     */
    method SetBreak(typ: BreakType, time: Option<Time.Tme>, relative: Option<bool>) returns (b: Break)
      requires Valid() && (time.Some? ==> time.value.Valid())
      modifies this
      ensures Valid() && fresh(b)
      ensures b.uid == old(unique) && unique == old(unique) + 1 && b.uid !in old(breaks)
      ensures b.relative == (if relative.Some? then relative.value else time.None?)
      ensures b.request == (if time.Some? then time.value else Time.Zero(Time.NoRef))
      ensures b.typ == typ && !b.ack && !b.hit
      ensures breaks == old(breaks)[b.uid := b]
      ensures sendQueue == old(sendQueue) +
        (match AddBreakPayload(b.uid, b.request, typ, b.relative)
         case Ok(p) => [Message(SC_CHAN, Some(p))]
         case Err(_) => [])
      ensures now == old(now) && waits == old(waits) && recvQueues == old(recvQueues)
    {
      var rel := if relative.Some? then relative.value else time.None?;
      var t := if time.Some? then time.value else Time.Zero(Time.NoRef);
      b := new Break(unique, t, typ, rel);
      unique := unique + 1;
      breaks := breaks[b.uid := b];
      var p := AddBreakPayload(b.uid, t, typ, rel);
      if p.Ok? {
        Push(Message(SC_CHAN, Some(p.value)));
      }
    }

    /** `Break.ccRelease`: the break leaves the registry (KeyError if it is not there) and `remBreak` is queued. */
    method Release(b: Break) returns (r: Result<()>)
      requires Valid()
      modifies this
      ensures Valid()
      ensures b.uid !in old(breaks) ==> r == Err(KEY_ERROR) && breaks == old(breaks) && sendQueue == old(sendQueue)
      ensures b.uid in old(breaks) ==> breaks == old(breaks) - {b.uid} && b.uid !in breaks
      ensures b.uid in old(breaks) ==> (sendQueue == old(sendQueue) +
        (match RemBreakPayload(b.uid) case Ok(p) => [Message(SC_CHAN, Some(p))] case Err(_) => []))
      ensures r.Ok? <==> b.uid in old(breaks) && b.uid < Pow(256, 4)
      ensures now == old(now) && waits == old(waits) && recvQueues == old(recvQueues) && unique == old(unique)
    {
      if b.uid !in breaks {
        return Err(KEY_ERROR);
      }
      breaks := breaks - {b.uid};
      var p := RemBreakPayload(b.uid);
      if p.Err? {
        return Err(p.error);
      }
      Push(Message(SC_CHAN, Some(p.value)));
      return Ok(());
    }

    /** `setWait` (the Wait constructor and its registration). */
    method SetWait(time: Time.Tme, relative: bool) returns (r: Result<Wait>)
      requires Valid() && time.Valid()
      modifies this
      ensures Valid()
      ensures r.Ok? <==> WaitBounds(now, time, relative).Ok?
      ensures r.Ok? ==> fresh(r.value) && !r.value.hit && r.value.hitTime.None? && waits == old(waits) + [r.value]
      ensures r.Ok? ==> (r.value.thresh, r.value.duration) == WaitBounds(now, time, relative).value
      ensures r.Err? ==> waits == old(waits)
      ensures now == old(now) && breaks == old(breaks) && sendQueue == old(sendQueue) && unique == old(unique)
    {
      var bounds := WaitBounds(now, time, relative);
      if bounds.Err? {
        return Err(bounds.error);
      }
      var w := new Wait(bounds.value.0, bounds.value.1);
      waits := waits + [w];
      return Ok(w);
    }
  }

  /** A failing comparison at position i - 1 makes `Remaining` of every longer prefix fail. */
  lemma {:induction false} RemainingErr(ws: seq<Wait>, i: nat, now: Time.Tme)
    requires 0 < i <= |ws| && (Remaining(ws[..i - 1], now).Ok? ==> Time.Le(ws[i - 1].thresh, now).Err?)
    ensures Remaining(ws, now).Err?
    decreases |ws| - i
  {
    assert ws[..i][..i - 1] == ws[..i - 1];
    if i < |ws| {
      assert ws[..i + 1][..i] == ws[..i];
      RemainingErr(ws, i + 1, now);
    } else {
      assert ws[..i] == ws;
    }
  }

  // ---------------------------------------------------------------------
  // Channel

  /** The margin added to a frame's promised start: `Tme.fromFreq(MEGA)`, one microsecond. */
  const BREAK_MARGIN: Time.Tme := Time.Tme(Some(1000000), None)

  /** Python's `max(a, b)`: b only when it is greater. */
  function MaxTme(a: Time.Tme, b: Time.Tme): (r: Result<Time.Tme>)
    ensures r.Ok? ==> Time.Comp(a, b).Ok? && (r.value == a || r.value == b)
    ensures r.Ok? ==> Time.Le(a, r.value) == Ok(true) && Time.Le(b, r.value) == Ok(true)
    ensures r.Ok? <==> Time.Comp(a, b).Ok?
  {
    match Time.Gt(b, a)
    case Err(e) => Err(e)
    case Ok(gt) => Ok(if gt then b else a)
  }

  /** What the receive task forwards for a sample: always a synchronous change. */
  function Forwarded(sample: Change): (r: Change)
    ensures r.sync && r.value == sample.value && r.time == sample.time
    ensures sample.sync ==> r == sample
  {
    if sample.sync then sample else Change(sample.value, sample.time, true)
  }

  /**
   * What the sampler synthesises at the current time: the last
   * asynchronous sample again, one sample cycle ago, if that is later
   * than the sample itself.
   */
  function SampleAt(now: Time.Tme, sampleCycle: Time.Tme, sample: Option<Change>): (r: Result<Option<Change>>)
    requires now.Valid() && sampleCycle.Valid()
    ensures r.Ok? && r.value.Some? ==> (sample.Some? && !sample.value.sync &&
      r.value.value == Change(sample.value.value, r.value.value.time, true) && r.value.value.time.Valid() &&
      Time.Add(r.value.value.time, Time.TmeOp(sampleCycle)) == Ok(now) &&
      Time.Gt(r.value.value.time, sample.value.time) == Ok(true))
    ensures (sample.None? || sample.value.sync) && Time.Sub(now, Time.TmeOp(sampleCycle)).Ok? ==> r == Ok(None)
  {
    match Time.Sub(now, Time.TmeOp(sampleCycle))
    case Err(e) => Err(e)
    case Ok(sTime) =>
      Time.AddSubDomain(now, Time.TmeOp(sampleCycle), true);
      assert Time.Add(sTime, Time.TmeOp(sampleCycle)) == Ok(now) by {
        Time.OfIntOfSelf(now);
      }
      if sample.None? || sample.value.sync then Ok(None)
      else
        match Time.Gt(sTime, sample.value.time)
        case Err(e) => Err(e)
        case Ok(later) => Ok(if later then Some(Change(sample.value.value, sTime, true)) else None)
  }

  /**
   * `Channel`: forwards changes to the simulator, shifted by the offset
   * of the open frame, and samples coming back as changes. A frame is
   * opened by a hold break at relative zero; the simulator's promise for
   * it is the parameter `promised`.
   */
  class Channel {
    const name: seq<byte>
    var offset: Option<Time.Tme>
    var pos: Time.Tme
    var breakPoint: Option<Break>
    var sample: Option<Change>

    constructor(name: seq<byte>)
      ensures this.name == name && offset.None? && pos == Time.Zero(Time.NoRef) && breakPoint.None? && sample.None?
    {
      this.name := name;
      offset := None;
      pos := Time.Zero(Time.NoRef);
      breakPoint := None;
      sample := None;
    }

    /**
     * `FrameStart`: only when no frame is open. The frame starts at the
     * promised time plus the margin, but never before the last position sent.
     */
    method FrameStart(ctrl: Control, promised: Time.Tme) returns (r: Result<()>)
      requires ctrl.Valid() && promised.Valid()
      modifies this, ctrl
      ensures ctrl.Valid()
      ensures old(breakPoint).Some? ==> r.Err? && breakPoint == old(breakPoint) && offset == old(offset)
      ensures old(breakPoint).None? ==> (breakPoint.Some? && fresh(breakPoint.value) &&
        breakPoint.value.typ == Hold && breakPoint.value.relative && breakPoint.value.request == Time.Zero(Time.NoRef) &&
        ctrl.breaks == old(ctrl.breaks)[breakPoint.value.uid := breakPoint.value])
      ensures r.Ok? ==> (offset.Some? && Time.Add(promised, Time.TmeOp(BREAK_MARGIN)).Ok? &&
        MaxTme(Time.Add(promised, Time.TmeOp(BREAK_MARGIN)).value, pos) == Ok(offset.value))
      ensures r.Ok? ==> Time.Le(pos, offset.value) == Ok(true)
      ensures pos == old(pos) && sample == old(sample)
    {
      if breakPoint.Some? {
        return Err("Frame start! but frame already started");
      }
      var b := ctrl.SetBreak(Hold, Some(Time.Zero(Time.NoRef)), Some(true));
      breakPoint := Some(b);
      var promise := Time.Add(promised, Time.TmeOp(BREAK_MARGIN));
      if promise.Err? {
        return Err(promise.error);
      }
      var m := MaxTme(promise.value, pos);
      if m.Err? {
        return Err(m.error);
      }
      offset := Some(m.value);
      return Ok(());
    }

    /** `FrameEnd`: only when a frame is open; releases its break and drops the offset. */
    method FrameEnd(ctrl: Control) returns (r: Result<()>)
      requires ctrl.Valid()
      modifies this, ctrl
      ensures ctrl.Valid()
      ensures old(breakPoint).None? ==> r.Err? && offset == old(offset) && ctrl.breaks == old(ctrl.breaks)
      ensures old(breakPoint).Some? ==> ctrl.breaks == old(ctrl.breaks) - {old(breakPoint).value.uid}
      ensures r.Ok? ==> breakPoint.None? && offset.None?
      ensures pos == old(pos) && sample == old(sample)
    {
      if breakPoint.None? {
        return Err("Frame end! but no frame opened");
      }
      var rel := ctrl.Release(breakPoint.value);
      if rel.Err? {
        return Err(rel.error);
      }
      breakPoint := None;
      offset := None;
      return Ok(());
    }

    /** A change for the simulator: shifted by the open frame's offset, then queued on this channel. */
    method Send(ctrl: Control, chg: Change) returns (r: Result<Change>)
      requires chg.time.Valid() && (offset.Some? ==> offset.value.Valid())
      modifies this, ctrl
      ensures offset == old(offset) && breakPoint == old(breakPoint) && sample == old(sample)
      ensures offset.None? ==> r.Ok? ==> r.value == chg
      ensures offset.Some? ==> r.Ok? ==> Shifted(chg, offset.value, true) == Ok(r.value) && pos == r.value.time
      ensures offset.None? ==> pos == old(pos)
      ensures r.Ok? <==> ((offset.None? || Shifted(chg, offset.value, true).Ok?) &&
        ChangeBytesSpec(if offset.None? then chg else Shifted(chg, offset.value, true).value).Ok?)
      ensures r.Ok? ==> ctrl.sendQueue == old(ctrl.sendQueue) + [Message(name, Some(ChangeBytesSpec(r.value).value))]
      ensures r.Err? ==> ctrl.sendQueue == old(ctrl.sendQueue)
      ensures ctrl.breaks == old(ctrl.breaks) && ctrl.now == old(ctrl.now) && ctrl.waits == old(ctrl.waits)
    {
      var c := chg;
      if offset.Some? {
        var s := Shifted(chg, offset.value, true);
        if s.Err? {
          return Err(s.error);
        }
        c := s.value;
        pos := c.time;
      }
      var bytes := ChangeToBytes(c);
      if bytes.Err? {
        return Err(bytes.error);
      }
      ctrl.Push(Message(name, Some(bytes.value)));
      return Ok(c);
    }

    /** One step of the receive task: the sample is decoded, kept, and forwarded as a synchronous change. */
    method Recv(msg: Message) returns (r: Result<Change>)
      modifies this
      ensures msg.data.None? ==> r.Err?
      ensures msg.data.Some? ==> (r.Ok? <==> ChangeFromSpec(msg.data.value).Ok?)
      ensures r.Ok? ==> sample == Some(ChangeFromSpec(msg.data.value).value) && r.value == Forwarded(sample.value)
      ensures r.Err? ==> sample == old(sample)
      ensures offset == old(offset) && pos == old(pos) && breakPoint == old(breakPoint)
    {
      if msg.data.None? {
        return Err("TypeError: 'NoneType' object is not subscriptable");
      }
      var s := ChangeFromBytes(msg.data.value);
      if s.Err? {
        return Err(s.error);
      }
      sample := Some(s.value);
      return Ok(Forwarded(s.value));
    }
  }
}
