// The port graph of the choc library: typed sockets owned by items, joined
// by `connect` into single-slot rendezvous gates, plus the request slot that
// carries a result back to whoever posted the request.
module Pipe {
  import opened Wrappers
  import Decimal

  // ---------------------------------------------------------------------
  // Pipe types

  /**
   * The three attributes of a pipe type: the Python type of the values
   * (by name), a type name and extra information. `None` is a wildcard.
   */
  datatype PipeTypeVal = PipeTypeVal(typ: Option<string>, name: Option<string>, extra: Option<string>)

  /** The inner `match(a, b)` of `PipeType.match`. */
  predicate Agrees(a: Option<string>, b: Option<string>)
  {
    a.None? || b.None? || a == b
  }

  /** `PipeType.match`. */
  predicate MatchVal(a: PipeTypeVal, b: PipeTypeVal)
  {
    Agrees(a.typ, b.typ) && Agrees(a.name, b.name) && Agrees(a.extra, b.extra)
  }

  /** The attributes after `a.update(b)`. */
  function Updated(a: PipeTypeVal, b: PipeTypeVal): (r: PipeTypeVal)
    ensures r.typ == (if b.typ.Some? then b.typ else a.typ)
    ensures r.name == (if b.name.Some? then b.name else a.name)
    ensures r.extra == (if b.extra.Some? then b.extra else a.extra)
  {
    PipeTypeVal(if b.typ.Some? then b.typ else a.typ,
                if b.name.Some? then b.name else a.name,
                if b.extra.Some? then b.extra else a.extra)
  }

  lemma MatchReflexiveSymmetric(a: PipeTypeVal, b: PipeTypeVal)
    ensures MatchVal(a, a)
    ensures MatchVal(a, b) <==> MatchVal(b, a)
  {
  }

  /** A pipe type without attributes matches every type, and only wildcards can make unequal types match. */
  lemma MatchWildcard(a: PipeTypeVal, b: PipeTypeVal)
    ensures MatchVal(PipeTypeVal(None, None, None), a)
    ensures (MatchVal(a, b) && a.typ.Some? && a.name.Some? && a.extra.Some? &&
             b.typ.Some? && b.name.Some? && b.extra.Some?) ==> a == b
  {
  }

  /**
   * After an update the type matches what it was updated with, a second
   * update with the same type changes nothing, and matching the updated
   * type implies matching the old one: an update only narrows.
   */
  lemma UpdatedNarrows(a: PipeTypeVal, b: PipeTypeVal, c: PipeTypeVal)
    ensures MatchVal(Updated(a, b), b)
    ensures Updated(Updated(a, b), b) == Updated(a, b)
    ensures MatchVal(a, b) && MatchVal(Updated(a, b), c) ==> MatchVal(a, c)
  {
  }

  /** A `PipeType` object; sockets may share one, and `update` changes it in place. */
  class PipeType {
    var typ: Option<string>
    var name: Option<string>
    var extra: Option<string>

    constructor(typ: Option<string>, name: Option<string>, extra: Option<string>)
      ensures Value() == PipeTypeVal(typ, name, extra)
    {
      this.typ := typ;
      this.name := name;
      this.extra := extra;
    }

    function Value(): PipeTypeVal
      reads this
    {
      PipeTypeVal(typ, name, extra)
    }

    predicate Match(other: PipeType)
      reads this, other
    {
      MatchVal(Value(), other.Value())
    }

    /** `update(other)`: copies the attributes that are set in `other`. */
    method Update(other: PipeTypeVal)
      modifies this
      ensures Value() == Updated(old(Value()), other)
    {
      if other.typ.Some? {
        typ := other.typ;
      }
      if other.name.Some? {
        name := other.name;
      }
      if other.extra.Some? {
        extra := other.extra;
      }
    }
  }

  // ---------------------------------------------------------------------
  // Values on the pipes

  datatype Direction = Sender | Receiver
  {
    function Opposing(): (r: Direction)
      ensures r != this
    {
      if Receiver? then Sender else Receiver
    }
  }

  datatype OffbandKind = Noop | FrameStart | FrameEnd | PipeEnd

  /**
   * A value sent over a pipe: an out-of-band marker, or data whose Python
   * type has the given name and whose `getTypeName`/`getTypeExtra` give
   * the other two attributes.
   */
  datatype Value = Offband(kind: OffbandKind) | Data(typeName: string, name: Option<string>, extra: Option<string>, payload: int)

  /** `PipeType.fromObject(val)` for a data value. */
  function TypeOf(v: Value): (r: PipeTypeVal)
    requires v.Data?
    ensures r.typ.Some? && MatchVal(r, r)
  {
    PipeTypeVal(Some(v.typeName), v.name, v.extra)
  }

  // ---------------------------------------------------------------------
  // Gate

  datatype GateState = Idle | Pushing | Pulled

  /**
   * A rendezvous slot. `push` deposits only when idle and returns only after
   * the value was pulled; `pull` takes only a deposited value. Each blocking
   * wait of the source is a precondition on the step that follows it. The
   * ghost histories record every value deposited and every value taken.
   */
  class Gate {
    var state: GateState
    var store: Option<Value>
    ghost var pushed: seq<Value>
    ghost var pulled: seq<Value>

    ghost predicate Valid()
      reads this
    {
      match state
      case Idle => pulled == pushed
      case Pushing => |pushed| == |pulled| + 1 && pulled == pushed[..|pulled|] && store == Some(pushed[|pulled|])
      case Pulled => pulled == pushed && |pushed| > 0 && store == Some(pushed[|pushed| - 1])
    }

    constructor()
      ensures Valid() && state == Idle && store == None && pushed == [] && pulled == []
    {
      state := Idle;
      store := None;
      pushed := [];
      pulled := [];
    }

    /** The first half of `push`, once the gate is idle: deposit and signal. */
    method PushDeposit(v: Value)
      requires Valid() && state == Idle
      modifies this
      ensures Valid() && state == Pushing && store == Some(v)
      ensures pushed == old(pushed) + [v] && pulled == old(pulled)
    {
      store := Some(v);
      state := Pushing;
      pushed := pushed + [v];
    }

    /** `pull`, once a value is deposited: take it and signal. */
    method Pull() returns (v: Value)
      requires Valid() && state == Pushing
      modifies this
      ensures Valid() && state == Pulled && store == old(store)
      ensures v == pushed[|pushed| - 1] && pulled == old(pulled) + [v] && pushed == old(pushed)
    {
      v := store.value;
      state := Pulled;
      pulled := pulled + [v];
    }

    /** The second half of `push`, once the value is pulled: free the gate. */
    method PushFinish()
      requires Valid() && state == Pulled
      modifies this
      ensures Valid() && state == Idle && store == old(store)
      ensures pushed == old(pushed) && pulled == old(pulled)
    {
      state := Idle;
    }
  }

  /** One complete hand-off: the value pulled is the value pushed, and the gate is idle again. */
  method HandOff(g: Gate, v: Value) returns (got: Value)
    requires g.Valid() && g.state == Idle
    modifies g
    ensures got == v && g.Valid() && g.state == Idle
    ensures g.pushed == old(g.pushed) + [v] && g.pulled == g.pushed
  {
    g.PushDeposit(v);
    got := g.Pull();
    g.PushFinish();
  }

  // ---------------------------------------------------------------------
  // Sockets

  class Socket {
    const name: string
    const direction: Direction
    const typ: PipeType
    var pipe: Gate?
    var connected: bool

    /** A socket is connected exactly when it has a gate. */
    predicate Bound()
      reads this
    {
      connected <==> pipe != null
    }

    constructor(name: string, dir: Direction, typ: PipeType)
      ensures this.name == name && direction == dir && this.typ == typ
      ensures pipe == null && !connected && Bound()
    {
      this.name := name;
      direction := dir;
      this.typ := typ;
      pipe := null;
      connected := false;
    }

    /**
     * `connectForward(peer)`: raises unless this socket is unbound, then
     * joins both sockets to one fresh idle gate and marks both connected.
     */
    method ConnectForward(peer: Socket) returns (r: Result<Gate>)
      modifies this, peer
      ensures old(pipe) != null <==> r.Err?
      ensures r.Err? ==> r.error == CONNECTED
      ensures r.Err? ==> unchanged(this) && unchanged(peer)
      ensures r.Ok? ==> fresh(r.value) && r.value.Valid() && r.value.state == Idle && r.value.pushed == [] &&
                        pipe == r.value && peer.pipe == r.value && connected && peer.connected
    {
      if pipe != null {
        return Err(CONNECTED);
      }
      var g := new Gate();
      pipe := g;
      peer.pipe := g;
      connected := true;
      peer.connected := true;
      return Ok(g);
    }

    /**
     * `send(val)`: raises on a receiver, or on data whose type does not match
     * the socket's; otherwise narrows the socket type to the data's type and,
     * once connected and the gate is idle, deposits the value.
     */
    method Send(v: Value) returns (r: Result<()>)
      requires direction == Sender && (v.Offband? || MatchVal(typ.Value(), TypeOf(v))) ==>
               connected && pipe != null && pipe.Valid() && pipe.state == Idle
      modifies typ, pipe
      ensures r.Ok? <==> direction == Sender && (v.Offband? || MatchVal(old(typ.Value()), TypeOf(v)))
      ensures r.Err? ==> typ.Value() == old(typ.Value()) && (pipe != null ==> pipe.state == old(pipe.state))
      ensures r.Ok? ==> typ.Value() == (if v.Offband? then old(typ.Value()) else Updated(old(typ.Value()), TypeOf(v)))
      ensures r.Ok? ==> pipe.Valid() && pipe.state == Pushing && pipe.pushed == old(pipe.pushed) + [v]
    {
      if direction != Sender {
        return Err("cannot send on receiver");
      }
      if !v.Offband? {
        if !MatchVal(typ.Value(), TypeOf(v)) {
          return Err("socket detected type change");
        }
        typ.Update(TypeOf(v));
      }
      pipe.PushDeposit(v);
      return Ok(());
    }

    /**
     * `recv()`: raises on a sender; otherwise, once a value is deposited,
     * takes it and raises if it is data of a type that does not match.
     */
    method Recv() returns (r: Result<Value>)
      requires direction == Receiver ==> connected && pipe != null && pipe.Valid() && pipe.state == Pushing
      modifies typ, pipe
      ensures direction == Sender <==> r.Err? && r.error == "cannot recv on sender"
      ensures direction == Receiver ==> pipe.Valid() && pipe.state == Pulled && pipe.pulled == old(pipe.pulled) + [pipe.store.value]
      ensures direction == Receiver ==> (r.Ok? <==> (pipe.store.value.Offband? || MatchVal(old(typ.Value()), TypeOf(pipe.store.value))))
      ensures r.Ok? ==> r.value == pipe.store.value
      ensures r.Ok? ==>
        typ.Value() == (if r.value.Offband? then old(typ.Value()) else Updated(old(typ.Value()), TypeOf(r.value)))
    {
      if direction != Receiver {
        return Err("cannot recv on sender");
      }
      var v := pipe.Pull();
      if !v.Offband? {
        if !MatchVal(typ.Value(), TypeOf(v)) {
          return Err("socket detected type change");
        }
        typ.Update(TypeOf(v));
      }
      return Ok(v);
    }
  }

  // ---------------------------------------------------------------------
  // Items

  /**
   * How an item answers `forgeRecvSocket(typ)`: a plain item never forges;
   * a multiplexing converter forges a receiver of its `fromType`; a
   * `Multiplexer` forges one of the type object of its `out` socket, which
   * its constructor adds and which is never replaced.
   */
  datatype ForgeRule = NoForge | ConverterForge(typ: PipeType) | MultiplexerForge(typ: PipeType)

  class Item {
    const name: string
    var names: seq<string>
    var sockets: map<string, Socket>
    var nPorts: nat
    const rule: ForgeRule

    /** The socket dictionary in insertion order, as `iterSockets` yields it. */
    ghost predicate Valid()
      reads this
    {
      (forall i, j :: 0 <= i < j < |names| ==> names[i] != names[j]) &&
      (forall n :: n in names <==> n in sockets)
    }

    constructor(name: string, rule: ForgeRule)
      ensures this.name == name && names == [] && sockets == map[] && nPorts == 0 && this.rule == rule && Valid()
    {
      this.name := name;
      names := [];
      sockets := map[];
      nPorts := 0;
      this.rule := rule;
    }

    /** The sockets in the order `iterSockets` yields them. */
    function Sockets(): (r: seq<Socket>)
      requires Valid()
      reads this
      ensures |r| == |names| && forall i :: 0 <= i < |names| ==> r[i] == sockets[names[i]]
    {
      var ns, m := names, sockets;
      seq(|ns|, i requires 0 <= i < |ns| => m[ns[i]])
    }

    /**
     * `itemAdd(name, dir, typ)`: a new unconnected socket named
     * `<item>+<name>` (sender) or `<item>-<name>` (receiver); raises on a
     * duplicate name and then changes nothing.
     */
    method ItemAdd(n: string, dir: Direction, typ: PipeType) returns (r: Result<Socket>)
      requires Valid()
      modifies this
      ensures Valid() && nPorts == old(nPorts)
      ensures r.Err? <==> n in old(sockets)
      ensures r.Err? ==> r.error == EXISTS
      ensures r.Err? ==> names == old(names) && sockets == old(sockets)
      ensures r.Ok? ==> fresh(r.value) && names == old(names) + [n] && sockets == old(sockets)[n := r.value]
      ensures r.Ok? ==> r.value.name == name + (if dir.Sender? then "+" else "-") + n
      ensures r.Ok? ==> r.value.direction == dir && r.value.typ == typ && r.value.pipe == null && !r.value.connected
    {
      var sock := new Socket(name + (if dir.Sender? then "+" else "-") + n, dir, typ);
      if n in sockets {
        return Err(EXISTS);
      }
      names := names + [n];
      sockets := sockets[n := sock];
      return Ok(sock);
    }

    /** `itemGet(name)`: the socket of that name; raises for an unknown name. */
    method ItemGet(n: string) returns (r: Result<Socket>)
      ensures r.Ok? <==> n in sockets
      ensures r.Err? ==> r.error == MISSING
      ensures r.Ok? ==> r.value == sockets[n]
    {
      if n !in sockets {
        return Err(MISSING);
      }
      return Ok(sockets[n]);
    }
  }

  /** The name of the n-th forged receiver, `in<n>`. */
  function PortName(n: nat): (r: string)
    ensures |r| > 2 && r[0] == 'i' && r != "out"
  {
    "in" + Decimal.NatToStr(n)
  }

  /** The type object a forged receiver gets, if an item with this rule forges for `t` at all. */
  function ForgeType(rule: ForgeRule, t: PipeTypeVal): (r: Option<PipeType>)
    reads if rule.NoForge? then {} else {rule.typ}
    ensures r.Some? <==> !rule.NoForge? && MatchVal(t, rule.typ.Value())
    ensures r.Some? ==> r.value == rule.typ
  {
    if rule.NoForge? || !MatchVal(t, rule.typ.Value()) then None else Some(rule.typ)
  }

  /** Different port numbers give different port names. */
  lemma PortNameInjective(m: nat, n: nat)
    requires m != n
    ensures PortName(m) != PortName(n)
  {
    Decimal.NatToStrValue(m);
    Decimal.NatToStrValue(n);
    assert Decimal.NatToStr(m) == PortName(m)[2..];
    assert Decimal.NatToStr(n) == PortName(n)[2..];
  }

  /**
   * `Multiplexer.newPort(typ)`, also the forging half of
   * `Converter.forgeRecvSocket`: adds receiver `in<nPorts>` of the given
   * type and counts it. A taken name raises before the count changes.
   */
  method NewPort(b: Item, typ: PipeType) returns (r: Result<Socket>)
    requires b.Valid()
    modifies b
    ensures b.Valid()
    ensures r.Err? <==> PortName(old(b.nPorts)) in old(b.sockets)
    ensures r.Err? ==> r.error == EXISTS && b.names == old(b.names) && b.sockets == old(b.sockets) && b.nPorts == old(b.nPorts)
    ensures r.Ok? ==>
      var s := r.value;
      fresh(s) && s.name == b.name + "-" + PortName(old(b.nPorts)) && s.direction == Receiver && s.typ == typ &&
      !s.connected && s.pipe == null
    ensures r.Ok? ==>
      b.names == old(b.names) + [PortName(old(b.nPorts))] && b.sockets == old(b.sockets)[PortName(old(b.nPorts)) := r.value] &&
      b.nPorts == old(b.nPorts) + 1
  {
    r := b.ItemAdd(PortName(b.nPorts), Receiver, typ);
    if r.Ok? {
      b.nPorts := b.nPorts + 1;
    }
  }

  /**
   * `forgeRecvSocket(typ)` of `Converter` and `Multiplexer` (a plain item
   * returns None): when the item forges for the type, `NewPort` adds a
   * receiver of the forging type.
   */
  method ForgeRecvSocket(b: Item, t: PipeTypeVal) returns (r: Result<Option<Socket>>)
    requires b.Valid()
    modifies b
    ensures b.Valid()
    ensures r.Err? <==> ForgeType(b.rule, t).Some? && PortName(old(b.nPorts)) in old(b.sockets)
    ensures r.Err? ==> r.error == EXISTS
    ensures r.Ok? ==> (r.value.Some? <==> ForgeType(b.rule, t).Some?)
    ensures (r.Err? || r.value.None?) ==> b.names == old(b.names) && b.sockets == old(b.sockets) && b.nPorts == old(b.nPorts)
    ensures r.Ok? && r.value.Some? ==>
      var s := r.value.value;
      fresh(s) && s.direction == Receiver && !s.connected && s.pipe == null && Some(s.typ) == ForgeType(b.rule, t) &&
      b.names == old(b.names) + [PortName(old(b.nPorts))] && b.sockets == old(b.sockets)[PortName(old(b.nPorts)) := s] &&
      b.nPorts == old(b.nPorts) + 1
  {
    if b.rule.NoForge? || !MatchVal(t, b.rule.typ.Value()) {
      return Ok(None);
    }
    var s := NewPort(b, b.rule.typ);
    if s.Err? {
      return Err(s.error);
    }
    return Ok(Some(s.value));
  }

  /** A socket `connect` may join a sender of type t to. */
  predicate Available(y: Socket, t: PipeTypeVal)
    reads y, y.typ
  {
    y.direction == Receiver && !y.connected && MatchVal(t, y.typ.Value())
  }

  /** The inner loop of `connect`: the first available receiver in `bs`. */
  method FindReceiver(t: PipeTypeVal, bs: seq<Socket>) returns (j: Option<nat>)
    ensures j.Some? ==> j.value < |bs| && Available(bs[j.value], t)
    ensures j.Some? ==> forall k :: 0 <= k < j.value ==> !Available(bs[k], t)
    ensures j.None? ==> forall k :: 0 <= k < |bs| ==> !Available(bs[k], t)
  {
    var k := 0;
    while k < |bs|
      invariant 0 <= k <= |bs|
      invariant forall i :: 0 <= i < k ==> !Available(bs[i], t)
    {
      var y := bs[k];
      if y.direction == Sender || y.connected {
        k := k + 1;
        continue;
      }
      if MatchVal(t, y.typ.Value()) {
        return Some(k);
      }
      k := k + 1;
    }
    return None;
  }

  /**
   * The receiver one turn of `connect`'s outer loop picks for a sender of
   * type t: the first available receiver of b, else one b forges, else
   * none. Only b's socket table changes, and only by a forged socket.
   */
  method ChoosePeer(t: PipeTypeVal, b: Item) returns (r: Result<Option<Socket>>, ghost key: string)
    requires b.Valid()
    modifies b
    ensures b.Valid()
    ensures forall n :: n in old(b.sockets) ==> n in b.sockets && b.sockets[n] == old(b.sockets[n])
    ensures r.Err? ==> r.error == EXISTS
    ensures (r.Err? || r.value.None?) ==> b.sockets == old(b.sockets)
    ensures r.Ok? && r.value.None? ==>
      ForgeType(b.rule, t).None? && forall n :: n in b.sockets ==> !Available(b.sockets[n], t)
    ensures r.Ok? && r.value.Some? ==>
      var y := r.value.value;
      y.direction == Receiver && !y.connected && key in b.sockets && b.sockets[key] == y
    ensures r.Ok? && r.value.Some? && r.value.value in old(b.sockets.Values) ==>
      b.sockets == old(b.sockets) && MatchVal(t, r.value.value.typ.Value())
    ensures r.Ok? && r.value.Some? && r.value.value !in old(b.sockets.Values) ==>
      var y := r.value.value;
      fresh(y) && Some(y.typ) == ForgeType(b.rule, t) && b.sockets == old(b.sockets)[PortName(old(b.nPorts)) := y]
  {
    var bs := b.Sockets();
    var j := FindReceiver(t, bs);
    if j.Some? {
      var k := j.value;
      key := b.names[k];
      assert key in b.sockets && b.sockets[key] == bs[k];
      return Ok(Some(bs[k])), key;
    }
    forall n | n in b.sockets
      ensures !Available(b.sockets[n], t)
    {
      var k :| 0 <= k < |b.names| && b.names[k] == n;
      assert bs[k] == b.sockets[n];
    }
    r := ForgeRecvSocket(b, t);
    key := PortName(old(b.nPorts));
  }

  /** x is a sender and y a receiver, both connected through one gate. */
  ghost predicate Joined(x: Socket, y: Socket)
    reads x, y
  {
    x.direction == Sender && y.direction == Receiver && x.connected && y.connected &&
    x.pipe != null && y.pipe == x.pipe
  }

  /** No socket occurs twice. */
  ghost predicate Distinct(s: seq<Socket>)
    decreases |s|
  {
    |s| == 0 || (s[|s| - 1] !in s[..|s| - 1] && Distinct(s[..|s| - 1]))
  }

  lemma {:induction false} DistinctAll(s: seq<Socket>)
    requires Distinct(s)
    ensures forall k, l :: 0 <= k < l < |s| ==> s[k] != s[l]
    decreases |s|
  {
    if |s| > 0 {
      DistinctAll(s[..|s| - 1]);
      assert forall k :: 0 <= k < |s| - 1 ==> s[k] == s[..|s| - 1][k];
    }
  }

  /**
   * What `connect` has joined so far: distinct senders of a, each joined
   * to a distinct receiver whose type matches, which b either had before
   * (its table was `before`) or forged for that sender's type.
   */
  ghost predicate Pairs(aSocks: seq<Socket>, rule: ForgeRule, linked: seq<Socket>, peers: seq<Socket>, before: map<string, Socket>)
    reads set x | x in linked, set y | y in peers, set x | x in linked :: x.typ, set y | y in peers :: y.typ
    reads if rule.NoForge? then {} else {rule.typ}
  {
    |linked| == |peers| && Distinct(linked) && Distinct(peers) &&
    forall k :: 0 <= k < |linked| ==>
      linked[k] in aSocks && Joined(linked[k], peers[k]) && MatchVal(linked[k].typ.Value(), peers[k].typ.Value()) &&
      (peers[k] in before.Values || Some(peers[k].typ) == ForgeType(rule, linked[k].typ.Value()))
  }

  /** b has no receiver a sender of type t could be joined to, and forges none for it. */
  ghost predicate Stranded(t: PipeTypeVal, b: Item)
    reads b, b.sockets.Values, set y | y in b.sockets.Values :: y.typ, if b.rule.NoForge? then {} else {b.rule.typ}
  {
    ForgeType(b.rule, t).None? && forall n :: n in b.sockets ==> !Available(b.sockets[n], t)
  }

  /** After the first i turns of `connect`, every sender among them is connected or stranded. */
  ghost predicate Covered(aSocks: seq<Socket>, i: nat, b: Item)
    reads b, b.sockets.Values, set y | y in b.sockets.Values :: y.typ, if b.rule.NoForge? then {} else {b.rule.typ}
    reads set x | x in aSocks, set x | x in aSocks :: x.typ
  {
    forall j :: 0 <= j < i && j < |aSocks| && aSocks[j].direction == Sender ==>
      aSocks[j].connected || Stranded(aSocks[j].typ.Value(), b)
  }

  /** Every socket b gained since its table was `before` is connected. */
  ghost predicate Gained(b: Item, before: map<string, Socket>)
    reads b, b.sockets.Values
  {
    forall n :: n in b.sockets && n !in before ==> b.sockets[n].connected
  }

  /**
   * The sockets of a, the turn, the item b, the pairs joined so far and b's
   * table before the first turn: what the lemmas about one turn of
   * `connect` are stated over.
   */
  datatype Turn = Turn(aSocks: seq<Socket>, i: nat, b: Item, linked: seq<Socket>, peers: seq<Socket>, before: map<string, Socket>)

  /**
   * Across a change of state that only connects sockets, keeps every type
   * and gives b only new sockets that are connected or of its forging
   * type, what was covered stays covered.
   */
  twostate lemma CoveredKept(t: Turn)
    requires old(Covered(t.aSocks, t.i, t.b))
    requires forall n :: n in old(t.b.sockets) ==> n in t.b.sockets && t.b.sockets[n] == old(t.b.sockets[n])
    requires forall n :: n in t.b.sockets && n !in old(t.b.sockets) ==>
      t.b.sockets[n].connected || (!t.b.rule.NoForge? && t.b.sockets[n].typ == t.b.rule.typ)
    requires forall s: Socket :: old(allocated(s)) && old(s.connected) ==> s.connected
    requires forall p: PipeType :: old(allocated(p)) ==> p.Value() == old(p.Value())
    ensures Covered(t.aSocks, t.i, t.b)
  {
    var aSocks, b := t.aSocks, t.b;
    forall j | 0 <= j < t.i && j < |aSocks| && aSocks[j].direction == Sender && !aSocks[j].connected
      ensures Stranded(aSocks[j].typ.Value(), b)
    {
      var ty := aSocks[j].typ.Value();
      assert old(Stranded(aSocks[j].typ.Value(), b));
      forall n | n in b.sockets
        ensures !Available(b.sockets[n], ty)
      {
        if n in old(b.sockets) {
          assert old(!Available(b.sockets[n], aSocks[j].typ.Value()));
        }
      }
    }
  }

  /** Across the same kind of change, the pairs joined so far stay as they are. */
  twostate lemma PairsKept(t: Turn)
    requires old(Pairs(t.aSocks, t.b.rule, t.linked, t.peers, t.before))
    requires forall k :: 0 <= k < |t.linked| ==> unchanged(t.linked[k], t.peers[k])
    requires forall p: PipeType :: old(allocated(p)) ==> p.Value() == old(p.Value())
    ensures Pairs(t.aSocks, t.b.rule, t.linked, t.peers, t.before)
  {
  }

  /** A sender joined to a receiver it matches extends the pairs. */
  lemma PairsSnoc(aSocks: seq<Socket>, rule: ForgeRule, linked: seq<Socket>, peers: seq<Socket>, before: map<string, Socket>,
                  x: Socket, y: Socket)
    requires Pairs(aSocks, rule, linked, peers, before)
    requires x in aSocks && Joined(x, y) && MatchVal(x.typ.Value(), y.typ.Value())
    requires y in before.Values || Some(y.typ) == ForgeType(rule, x.typ.Value())
    requires x !in linked && y !in peers
    ensures Pairs(aSocks, rule, linked + [x], peers + [y], before)
  {
    assert (linked + [x])[..|linked|] == linked && (peers + [y])[..|peers|] == peers;
  }

  /**
   * The end of a turn of `connect`: `connectForward` joins the i-th socket
   * x of a, an unconnected sender, to the receiver y chosen for it.
   */
  method JoinChosen(aSocks: seq<Socket>, i: nat, b: Item, y: Socket, ghost linked: seq<Socket>, ghost peers: seq<Socket>,
                    ghost before: map<string, Socket>) returns (r: Result<Gate>)
    requires i < |aSocks| && aSocks[i].direction == Sender && !aSocks[i].connected
    requires y.direction == Receiver && !y.connected && MatchVal(aSocks[i].typ.Value(), y.typ.Value())
    requires y in before.Values || Some(y.typ) == ForgeType(b.rule, aSocks[i].typ.Value())
    requires Pairs(aSocks, b.rule, linked, peers, before) && Covered(aSocks, i, b)
    requires forall n :: n in b.sockets && n !in before && b.sockets[n] != y ==> b.sockets[n].connected
    modifies aSocks[i], y
    ensures Pairs(aSocks, b.rule, linked, peers, before)
    ensures r.Err? ==> r.error == CONNECTED
    ensures r.Ok? ==> Pairs(aSocks, b.rule, linked + [aSocks[i]], peers + [y], before)
    ensures r.Ok? ==> Covered(aSocks, i + 1, b) && Gained(b, before)
  {
    var x := aSocks[i];
    assert forall k :: 0 <= k < |linked| ==> linked[k] != x && linked[k] != y && peers[k] != x && peers[k] != y;
    var g := x.ConnectForward(y);
    PairsKept(Turn(aSocks, i, b, linked, peers, before));
    if g.Ok? {
      CoveredKept(Turn(aSocks, i, b, linked, peers, before));
      PairsSnoc(aSocks, b.rule, linked, peers, before, x, y);
    }
    return g;
  }

  /**
   * One turn of `connect`'s outer loop, for the i-th socket x of a: skipped
   * when it is a receiver or connected; otherwise joined to the receiver
   * `ChoosePeer` picks, if any, by `connectForward`.
   */
  method ConnectTurn(aSocks: seq<Socket>, i: nat, b: Item, ghost linked: seq<Socket>, ghost peers: seq<Socket>,
                     ghost before: map<string, Socket>) returns (r: Result<Option<Socket>>)
    requires i < |aSocks| && b.Valid()
    requires Pairs(aSocks, b.rule, linked, peers, before) && Covered(aSocks, i, b) && Gained(b, before)
    requires forall n :: n in before ==> n in b.sockets && b.sockets[n] == before[n]
    modifies aSocks[i], b, b.sockets.Values
    ensures b.Valid()
    ensures forall n :: n in old(b.sockets) ==> n in b.sockets && b.sockets[n] == old(b.sockets[n])
    ensures forall n :: n in b.sockets && n !in old(b.sockets) ==> fresh(b.sockets[n])
    ensures r.Err? ==> r.error in {EXISTS, CONNECTED}
    ensures r.Ok? ==> Covered(aSocks, i + 1, b) && Gained(b, before)
    ensures (r.Err? || r.value.None?) ==> Pairs(aSocks, b.rule, linked, peers, before)
    ensures r.Ok? && r.value.Some? ==>
      Pairs(aSocks, b.rule, linked + [aSocks[i]], peers + [r.value.value], before) &&
      (r.value.value in before.Values || fresh(r.value.value))
  {
    var x := aSocks[i];
    if x.direction == Receiver || x.connected {
      return Ok(None);
    }
    var peer, key := ChoosePeer(x.typ.Value(), b);
    PairsKept(Turn(aSocks, i, b, linked, peers, before));
    if peer.Err? {
      return Err(peer.error);
    }
    CoveredKept(Turn(aSocks, i, b, linked, peers, before));
    if peer.value.None? {
      return Ok(None);
    }
    var y := peer.value.value;
    assert y in old(b.sockets.Values) ==> key in before && before[key] == y;
    var g := JoinChosen(aSocks, i, b, y, linked, peers, before);
    if g.Err? {
      return Err(g.error);
    }
    return Ok(Some(y));
  }

  /**
   * `connect(a, b)` for the sockets `a.iterSockets()` yields and an item b:
   * every unconnected sender of a is handed to `ChoosePeer` and joined to
   * the receiver it picks; raises when nothing was joined. The ghost
   * results list the senders joined and their receivers, pair by pair.
   */
  method Connect(aSocks: seq<Socket>, b: Item) returns (r: Result<nat>, ghost linked: seq<Socket>, ghost peers: seq<Socket>)
    requires b.Valid()
    modifies (set x | x in aSocks), b, b.sockets.Values
    ensures b.Valid()
    ensures forall n :: n in old(b.sockets) ==> n in b.sockets && b.sockets[n] == old(b.sockets[n])
    ensures |linked| == |peers|
    ensures r.Ok? ==> r.value == |linked| >= 1
    ensures r.Err? ==> r.error in {NOTHING, EXISTS, CONNECTED}
    ensures r.Err? && r.error == NOTHING ==> linked == []
    ensures forall k :: 0 <= k < |linked| ==> linked[k] in aSocks && Joined(linked[k], peers[k])
    ensures forall k :: 0 <= k < |linked| ==>
      MatchVal(linked[k].typ.Value(), peers[k].typ.Value()) &&
      (peers[k] in old(b.sockets.Values) || (fresh(peers[k]) && Some(peers[k].typ) == ForgeType(b.rule, linked[k].typ.Value())))
    ensures forall k, l :: 0 <= k < l < |linked| ==> linked[k] != linked[l] && peers[k] != peers[l]
    ensures r.Ok? ==> forall j :: 0 <= j < |aSocks| && aSocks[j].direction == Sender ==>
      aSocks[j].connected ||
      (ForgeType(b.rule, aSocks[j].typ.Value()).None? &&
       forall n :: n in b.sockets ==> !Available(b.sockets[n], aSocks[j].typ.Value()))
  {
    ghost var before := b.sockets;
    linked, peers := [], [];
    var nConnected := 0;
    var i := 0;
    var failure: Option<string> := None;
    while i < |aSocks| && failure.None?
      invariant 0 <= i <= |aSocks| && nConnected == |linked|
      invariant failure.Some? ==> failure.value in {EXISTS, CONNECTED}
      invariant b.Valid()
      invariant forall n :: n in before ==> n in b.sockets && b.sockets[n] == before[n]
      invariant Pairs(aSocks, b.rule, linked, peers, before)
      invariant forall k :: 0 <= k < |peers| ==> peers[k] in before.Values || fresh(peers[k])
      invariant forall n :: n in b.sockets && n !in before ==> fresh(b.sockets[n])
      invariant failure.None? ==> Covered(aSocks, i, b) && Gained(b, before)
      decreases |aSocks| - i, if failure.None? then 1 else 0
    {
      var turn := ConnectTurn(aSocks, i, b, linked, peers, before);
      if turn.Err? {
        failure := Some(turn.error);
      } else {
        if turn.value.Some? {
          linked, peers := linked + [aSocks[i]], peers + [turn.value.value];
          nConnected := nConnected + 1;
        }
        i := i + 1;
      }
    }
    r := if failure.Some? then Err(failure.value) else if nConnected == 0 then Err(NOTHING) else Ok(nConnected);
    DistinctAll(linked);
    DistinctAll(peers);
  }

  const NOTHING: string := "connected nothing"
  const EXISTS: string := "socket already exists"
  const MISSING: string := "socket does not exist"
  const CONNECTED: string := "socket already connected"

  // ---------------------------------------------------------------------
  // Requests

  /**
   * A request carries data to a server and a result back. `commit` stores
   * the result, sets `done` and, if a callback is registered, schedules
   * it; `scheduled` lists the callbacks handed to the event loop.
   */
  class Request<D, R> {
    const data: D
    var result: Option<R>
    var done: bool
    var callBack: Option<nat>
    var scheduled: seq<nat>

    constructor(data: D)
      ensures this.data == data && result == None && !done && callBack == None && scheduled == []
    {
      this.data := data;
      result := None;
      done := false;
      callBack := None;
      scheduled := [];
    }

    method SetCallBack(cb: nat)
      modifies this
      ensures callBack == Some(cb) && result == old(result) && done == old(done) && scheduled == old(scheduled)
    {
      callBack := Some(cb);
    }

    /** `commit(result)`; a later commit overwrites the result and schedules the callback again. */
    method Commit(res: R)
      modifies this
      ensures result == Some(res) && done && callBack == old(callBack)
      ensures scheduled == old(scheduled) + (if callBack.Some? then [callBack.value] else [])
    {
      result := Some(res);
      done := true;
      if callBack.Some? {
        scheduled := scheduled + [callBack.value];
      }
    }
  }

  /** Committing twice keeps only the second result: there is no exactly-once guard. */
  method CommitTwice<D, R>(q: Request<D, R>, first: R, second: R)
    modifies q
    ensures q.result == Some(second) && q.done
    ensures |q.scheduled| == |old(q.scheduled)| + (if q.callBack.Some? then 2 else 0)
  {
    q.Commit(first);
    q.Commit(second);
  }
}
