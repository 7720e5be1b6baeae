// The item library of choc: what converters, generators and probes send,
// in the order they send it. A coroutine's input socket becomes the
// sequence of values it will receive and its output socket the sequence
// it sends; a receive on an exhausted input would wait for ever and is
// reported as BLOCKED.
module Items {
  import opened Wrappers
  import opened Arith
  import Time
  import opened Signal
  import Pipe

  const BLOCKED: string := "waits for ever on an empty input"
  const BACKWARDS: string := "Prober cannot seek backwards"
  const NO_ATTRIBUTE: string := "AttributeError: 'NoneType' object has no attribute 'time'"
  const INDEX: string := "IndexError: list index out of range"

  /** What a socket carries: a data value or an offband marker. */
  datatype Msg<T> = Item(val: T) | Marker(kind: Pipe.OffbandKind)

  /** The index of the first marker in s, or |s| when there is none. */
  function FirstMarker<T>(s: seq<Msg<T>>): (k: nat)
    ensures k <= |s|
    ensures forall j :: 0 <= j < k ==> s[j].Item?
    ensures k < |s| ==> s[k].Marker?
  {
    if s == [] || s[0].Marker? then 0 else 1 + FirstMarker(s[1..])
  }

  // ---------------------------------------------------------------------
  // Converters

  /**
   * `Converter.run`: every data value received is converted and sent; the
   * first offband marker is sent on unchanged and ends the run.
   */
  method ConverterRun<A, B>(ins: seq<Msg<A>>, convert: A -> B) returns (outs: seq<Msg<B>>)
    ensures |outs| == if FirstMarker(ins) < |ins| then FirstMarker(ins) + 1 else |ins|
    ensures forall j :: 0 <= j < FirstMarker(ins) ==> outs[j] == Item(convert(ins[j].val))
    ensures FirstMarker(ins) < |ins| ==> outs[FirstMarker(ins)] == Marker(ins[FirstMarker(ins)].kind)
  {
    outs := [];
    var i := 0;
    while i < |ins|
      invariant i <= FirstMarker(ins) && |outs| == i
      invariant forall j :: 0 <= j < i ==> outs[j] == Item(convert(ins[j].val))
    {
      if ins[i].Marker? {
        outs := outs + [Marker(ins[i].kind)];
        return;
      }
      outs := outs + [Item(convert(ins[i].val))];
      i := i + 1;
    }
  }

  /** `IntToBits.convert`: `Bits(val, width)`. */
  function IntToBitsConvert(width: nat, val: int): (r: seq<L9>)
    ensures |r| == width && Pure(r) && ToIntSpec(r) == Ok(val % Pow2(width))
  {
    ToIntOfFromInt(val, width);
    FromInt(val, width)
  }

  /** `BitsToInt.convert`: the value of a pure vector, 0 in place of the `NotPureSignal` error. */
  function BitsToIntConvert(v: seq<L9>): (r: nat)
    ensures Pure(v) ==> r == Value(v)
    ensures !Pure(v) ==> r == 0
  {
    match ToIntSpec(v)
    case Ok(n) => n
    case Err(_) => 0
  }

  /** An `IntToBits` followed by a `BitsToInt` of the same width passes `val mod 2^width`. */
  lemma IntToBitsToInt(width: nat, val: int)
    ensures BitsToIntConvert(IntToBitsConvert(width, val)) == val % Pow2(width)
  {
  }

  /** A vector with a non-pure bit converts to 0 whatever its other bits. */
  lemma BitsToIntNotPure(v: seq<L9>, i: nat)
    requires i < |v| && !v[i].IsPure()
    ensures BitsToIntConvert(v) == 0
  {
  }

  /**
   * `ClockedSignal`: a converter that wraps each value in a change at the
   * next cycle, starting at 0c, never marked sync.
   */
  class ClockedSignal {
    var cycle: nat

    constructor()
      ensures cycle == 0
    {
      cycle := 0;
    }

    method Convert(v: seq<L9>) returns (c: Change)
      modifies this
      ensures c == Change(v, Time.OfInt(old(cycle), Time.Cycle), false) && cycle == old(cycle) + 1
    {
      c := Change(v, Time.OfInt(cycle, Time.Cycle), false);
      cycle := cycle + 1;
    }
  }

  /** A fresh `ClockedSignal` stamps the k-th value with cycle k. */
  method ClockedRun(vals: seq<seq<L9>>) returns (outs: seq<Change>)
    ensures |outs| == |vals|
    ensures forall k :: 0 <= k < |vals| ==> outs[k] == Change(vals[k], Time.OfInt(k, Time.Cycle), false)
  {
    var s := new ClockedSignal();
    outs := [];
    var k := 0;
    while k < |vals|
      invariant k <= |vals| && |outs| == k && s.cycle == k
      invariant forall j :: 0 <= j < k ==> outs[j] == Change(vals[j], Time.OfInt(j, Time.Cycle), false)
    {
      var c := s.Convert(vals[k]);
      outs := outs + [c];
      k := k + 1;
    }
  }

  // ---------------------------------------------------------------------
  // Generators

  /**
   * `Range.run`: `range(start, stop, step)` followed by `PipeEnd`; a zero
   * step raises as Python's `range` does.
   */
  method RangeRun(start: int, stop: int, step: int) returns (r: Result<seq<Msg<int>>>)
    ensures r.Err? <==> step == 0
    ensures r.Ok? ==> |r.value| >= 1 && r.value[|r.value| - 1] == Marker(Pipe.PipeEnd)
    ensures r.Ok? ==> forall k :: 0 <= k < |r.value| - 1 ==> r.value[k] == Item(start + k * step)
    ensures r.Ok? && step > 0 ==>
      (forall k :: 0 <= k < |r.value| - 1 ==> start + k * step < stop) && start + (|r.value| - 1) * step >= stop
    ensures r.Ok? && step < 0 ==>
      (forall k :: 0 <= k < |r.value| - 1 ==> start + k * step > stop) && start + (|r.value| - 1) * step <= stop
  {
    if step == 0 {
      return Err("ValueError: range() arg 3 must not be zero");
    }
    var outs: seq<Msg<int>> := [];
    var i := start;
    while (step > 0 && i < stop) || (step < 0 && i > stop)
      invariant i == start + |outs| * step
      invariant forall k :: 0 <= k < |outs| ==> outs[k] == Item(start + k * step)
      invariant step > 0 ==> forall k :: 0 <= k < |outs| ==> start + k * step < stop
      invariant step < 0 ==> forall k :: 0 <= k < |outs| ==> start + k * step > stop
      decreases if step > 0 then stop - i else i - stop
    {
      outs := outs + [Item(i)];
      i := i + step;
    }
    return Ok(outs + [Marker(Pipe.PipeEnd)]);
  }

  /** The k-th time a clock sends: start, then start plus k periods (None where a value is missing). */
  function Tick(start: Time.Tme, period: Time.Tme, k: nat): (r: Option<Time.Tme>)
    requires start.Valid()
    ensures k == 0 ==> r == Some(start)
    ensures r.Some? ==> r.value.Valid() && r.value.Typ() == start.Typ()
    ensures k > 0 && start.ToInt().Some? && period.ToInt().Some? ==>
      r.Some? && r.value.ToInt() == Some(start.ToInt().value + k * period.ToInt().value)
  {
    if k == 0 then Some(start)
    else if start.ToInt().None? || period.ToInt().None? then None
    else Some(Time.OfInt(start.ToInt().value + k * period.ToInt().value, start.Typ()))
  }

  /**
   * `Clock.run`: sends start, start+period, … while below stop (for ever
   * without a stop), then `PipeEnd`. Only the first `limit` times are
   * taken, as a consumer that stops pulling would. Comparing or adding
   * across domains raises.
   */
  method ClockRun(start: Time.Tme, period: Time.Tme, stop: Option<Time.Tme>, limit: nat)
    returns (r: Result<seq<Msg<Time.Tme>>>)
    requires start.Valid() && period.Valid()
    ensures r.Ok? ==> |r.value| <= limit + 1
    ensures r.Ok? ==> forall k :: 0 <= k < |r.value| && r.value[k].Item? ==>
      Tick(start, period, k).Some? && r.value[k].val == Tick(start, period, k).value
    ensures r.Ok? && stop.Some? ==> forall k :: 0 <= k < |r.value| && r.value[k].Item? ==>
      Time.Lt(r.value[k].val, stop.value) == Ok(true)
    ensures r.Ok? && |r.value| > 0 && r.value[|r.value| - 1].Marker? ==>
      var n := |r.value| - 1;
      r.value[n] == Marker(Pipe.PipeEnd) && (forall k :: 0 <= k < n ==> r.value[k].Item?) &&
      stop.Some? && Tick(start, period, n).Some? && Time.Lt(Tick(start, period, n).value, stop.value) == Ok(false)
    ensures r.Ok? && stop.None? ==> |r.value| == limit
  {
    var outs: seq<Msg<Time.Tme>> := [];
    var now := start;
    while |outs| < limit
      invariant |outs| <= limit && Tick(start, period, |outs|) == Some(now)
      invariant forall k :: 0 <= k < |outs| ==>
        (outs[k].Item? && Tick(start, period, k).Some? && outs[k].val == Tick(start, period, k).value)
      invariant stop.Some? ==> forall k :: 0 <= k < |outs| ==> Time.Lt(outs[k].val, stop.value) == Ok(true)
    {
      if stop.Some? {
        var lt := Time.Lt(now, stop.value);
        if lt.Err? {
          return Err(lt.error);
        }
        if !lt.value {
          return Ok(outs + [Marker(Pipe.PipeEnd)]);
        }
      }
      var next := Time.Add(now, Time.TmeOp(period));
      if next.Err? {
        return Err(next.error);
      }
      NextTick(start, period, |outs|, now, next.value);
      outs := outs + [Item(now)];
      now := next.value;
    }
    return Ok(outs);
  }

  lemma NextTick(start: Time.Tme, period: Time.Tme, k: nat, now: Time.Tme, next: Time.Tme)
    requires start.Valid() && period.Valid() && Tick(start, period, k) == Some(now)
    requires Time.Add(now, Time.TmeOp(period)) == Ok(next)
    ensures Tick(start, period, k + 1) == Some(next)
  {
    var s, p := start.ToInt().value, period.ToInt().value;
    assert (s + k * p) + p == s + (k + 1) * p;
  }

  // ---------------------------------------------------------------------
  // Request/interface pairing

  /** A `BitsRequest`: an identity and the vector it carries. */
  datatype BitsRequest = BitsRequest(id: nat, data: seq<L9>)

  function Ids(c: seq<(nat, seq<L9>)>): (r: seq<nat>)
    ensures |r| == |c| && forall k :: 0 <= k < |c| ==> r[k] == c[k].0
  {
    if c == [] then [] else Ids(c[..|c| - 1]) + [c[|c| - 1].0]
  }

  /**
   * `BitsReqToInterface`: `send` queues each request and puts its data out
   * at the next cycle from 1c on; `receive` commits each incoming value to
   * the oldest queued request. `committed` records the commits in order.
   */
  class BitsReqToInterface {
    var queue: seq<nat>
    var cycle: nat
    var committed: seq<(nat, seq<L9>)>
    ghost var taken: seq<nat>

    /** Requests are answered in the order they were taken. */
    ghost predicate Valid()
      reads this
    {
      taken == Ids(committed) + queue && cycle == |taken| + 1
    }

    constructor()
      ensures Valid() && queue == [] && committed == [] && taken == [] && cycle == 1
    {
      queue := [];
      cycle := 1;
      committed := [];
      taken := [];
    }

    /** One turn of `send`: the change put out for the request. */
    method Send(req: BitsRequest) returns (c: Change)
      requires Valid()
      modifies this
      ensures Valid() && c == Change(req.data, Time.OfInt(old(cycle), Time.Cycle), false)
      ensures queue == old(queue) + [req.id] && committed == old(committed) && taken == old(taken) + [req.id]
    {
      queue := queue + [req.id];
      taken := taken + [req.id];
      c := Change(req.data, Time.OfInt(cycle, Time.Cycle), false);
      cycle := cycle + 1;
    }

    /** One turn of `receive`; it waits until a request is queued. */
    method Receive(chg: Change)
      requires Valid() && queue != []
      modifies this
      ensures Valid() && committed == old(committed) + [(old(queue)[0], chg.value)] && queue == old(queue)[1..]
      ensures taken == old(taken) && cycle == old(cycle)
    {
      committed := committed + [(queue[0], chg.value)];
      queue := queue[1..];
    }
  }

  /** Under the invariant, the k-th value committed goes to the k-th request taken. */
  lemma FifoPairing(taken: seq<nat>, committed: seq<(nat, seq<L9>)>, queue: seq<nat>, k: nat)
    requires taken == Ids(committed) + queue && k < |committed|
    ensures committed[k].0 == taken[k]
  {
  }

  // ---------------------------------------------------------------------
  // Probe

  datatype Edge = Neg | Pos | Any

  /** The bit an edge of this kind starts from. */
  function EdgeFrom(typ: Edge): L9
  {
    if typ == Pos then L0 else L1
  }

  /**
   * Whether the step from value a to value b is an edge of the given kind.
   * Bit 0 of a is read first and bit 0 of b only when a's fits, so an empty
   * vector raises only when it is reached.
   */
  function IsEdge(typ: Edge, a: seq<L9>, b: seq<L9>): (r: Result<bool>)
    ensures r.Err? <==> typ != Any && (a == [] || (a[0] == EdgeFrom(typ) && b == []))
    ensures r == Ok(true) <==> (typ == Any ||
      (typ == Pos && a != [] && b != [] && a[0] == L0 && b[0] == L1) ||
      (typ == Neg && a != [] && b != [] && a[0] == L1 && b[0] == L0))
  {
    if typ == Any then Ok(true)
    else if a == [] then Err(INDEX)
    else if a[0] != EdgeFrom(typ) then Ok(false)
    else if b == [] then Err(INDEX)
    else Ok(b[0] == (if typ == Pos then L1 else L0))
  }

  /**
   * The value `ccRead` returns once aligned, as written: the second change
   * when the position is at its time, else the first. It reads the second
   * change's time even when `_align` returned before fetching it.
   */
  function ReadAsWritten(pos: Time.Tme, v0: Change, v1: Option<Change>): Result<seq<L9>>
  {
    if v1.None? then Err(NO_ATTRIBUTE)
    else
      match Time.Comp(pos, v1.value.time)
      case Err(e) => Err(e)
      case Ok(c) => Ok(if c == 0 then v1.value.value else v0.value)
  }

  /** The value `ccRead` evidently means to return: the first change when no second one is known. */
  function Read(pos: Time.Tme, v0: Change, v1: Option<Change>): (r: Result<seq<L9>>)
    ensures v1.None? ==> r == Ok(v0.value)
    ensures v1.Some? ==> (r.Err? <==> Time.Comp(pos, v1.value.time).Err?)
    ensures v1.Some? && Time.Comp(pos, v1.value.time) == Ok(0) ==> r == Ok(v1.value.value)
    ensures v1.Some? && Time.Comp(pos, v1.value.time).Ok? && Time.Comp(pos, v1.value.time) != Ok(0) ==> r == Ok(v0.value)
  {
    if v1.None? then Ok(v0.value) else ReadAsWritten(pos, v0, v1)
  }

  /** A probe sitting on the time of the only change it holds fails to read it. */
  lemma ReadAtFirstChange(c: Change)
    ensures ReadAsWritten(c.time, c, None).Err?
    ensures Read(c.time, c, None) == Ok(c.value)
  {
  }

  /**
   * `Probe`: a receiver of changes that keeps the two changes around its
   * position. `incoming` holds the changes its socket will still deliver.
   */
  class Probe {
    var pos: Time.Tme
    var v0: Option<Change>
    var v1: Option<Change>
    var incoming: seq<Change>

    constructor(incoming: seq<Change>)
      ensures pos == Time.Zero(Time.NoRef) && v0.None? && v1.None? && this.incoming == incoming
    {
      pos := Time.Zero(Time.NoRef);
      v0 := None;
      v1 := None;
      this.incoming := incoming;
    }

    /** `seek(pos, relative)`: the target is `pos + self.pos` when relative; seeking backwards raises. */
    method Seek(p: Time.Tme, relative: bool) returns (r: Result<()>)
      requires p.Valid() && pos.Valid()
      modifies this
      ensures v0 == old(v0) && v1 == old(v1) && incoming == old(incoming)
      ensures r.Err? ==> pos == old(pos)
      ensures r.Ok? && relative ==> Time.Add(p, Time.TmeOp(old(pos))) == Ok(pos)
      ensures r.Ok? && !relative ==> pos == p
      ensures r.Ok? ==> Time.Le(old(pos), pos) == Ok(true)
      ensures !relative ==> (r.Ok? <==> Time.Le(old(pos), p) == Ok(true))
    {
      var target := p;
      if relative {
        var sum := Time.Add(p, Time.TmeOp(pos));
        if sum.Err? {
          return Err(sum.error);
        }
        target := sum.value;
      }
      var ge := Time.Ge(target, pos);
      if ge.Err? {
        return Err(ge.error);
      }
      if !ge.value {
        return Err(BACKWARDS);
      }
      pos := target;
      return Ok(());
    }

    /** One receive on the input socket. */
    method Recv() returns (r: Result<Change>)
      modifies this
      ensures pos == old(pos) && v0 == old(v0) && v1 == old(v1)
      ensures r.Err? <==> old(incoming) == []
      ensures r.Err? ==> r.error == BLOCKED && incoming == old(incoming)
      ensures r.Ok? ==> r.value == old(incoming)[0] && incoming == old(incoming)[1..]
    {
      if incoming == [] {
        return Err(BLOCKED);
      }
      r := Ok(incoming[0]);
      incoming := incoming[1..];
    }

    /**
     * `_align(edge)`: fetches changes until the position lies before the
     * second one; without `edge` it may stop at the first change's time
     * with only one change known.
     */
    method Align(edge: bool) returns (r: Result<()>)
      modifies this
      ensures pos == old(pos) && |incoming| <= |old(incoming)|
      ensures r.Ok? ==> v0.Some?
      ensures r.Ok? ==> (!edge && Time.Comp(pos, v0.value.time) == Ok(0)) ||
                        (v1.Some? && Time.Lt(pos, v1.value.time) == Ok(true))
      ensures r.Ok? && edge ==> v1.Some?
      ensures r.Ok? && edge && old(v0).Some? && old(v1).Some? && Time.Comp(pos, old(v1).value.time) != Ok(-1) ==>
        |incoming| < |old(incoming)|
    {
      if v0.None? {
        var c := Recv();
        if c.Err? {
          return Err(c.error);
        }
        v0, v1 := Some(c.value), None;
      }
      var at := Time.Comp(pos, v0.value.time);
      if at.Err? {
        return Err(at.error);
      }
      if at.value == 0 && !edge {
        return Ok(());
      }
      if v1.None? {
        var c := Recv();
        if c.Err? {
          return Err(c.error);
        }
        v1 := Some(c.value);
      }
      while true
        invariant pos == old(pos) && v0.Some? && v1.Some? && |incoming| <= |old(incoming)|
        invariant edge && old(v0).Some? && old(v1).Some? ==> |incoming| < |old(incoming)| || v1 == old(v1)
        decreases |incoming|
      {
        var ge := Time.Ge(pos, v1.value.time);
        if ge.Err? {
          return Err(ge.error);
        }
        if !ge.value {
          return Ok(());
        }
        var c := Recv();
        if c.Err? {
          return Err(c.error);
        }
        v0, v1 := v1, Some(c.value);
      }
    }

    /** `ccRead`, with the corrected choice `Read` (see `ReadAtFirstChange`). */
    method CcRead() returns (r: Result<seq<L9>>)
      modifies this
      ensures pos == old(pos)
      ensures r.Ok? ==> v0.Some? && r == Read(pos, v0.value, v1)
    {
      var a := Align(false);
      if a.Err? {
        return Err(a.error);
      }
      r := Read(pos, v0.value, v1);
    }

    /**
     * `ccNextEdge(typ, maxTime)`: moves to the next change that is an edge
     * of the given kind and returns it, or stops at `maxTime` and returns
     * None once the next change is not before it.
     */
    method CcNextEdge(typ: Edge, maxTime: Option<Time.Tme>) returns (r: Result<Option<Change>>)
      modifies this
      ensures r.Ok? && r.value.Some? ==>
        v0.Some? && v1 == r.value && pos == r.value.value.time && v0.value.value != v1.value.value &&
        IsEdge(typ, v0.value.value, v1.value.value) == Ok(true)
      ensures r.Ok? && r.value.None? ==>
        maxTime.Some? && pos == maxTime.value && v1.Some? && Time.Ge(v1.value.time, maxTime.value) == Ok(true)
    {
      var a := Align(true);
      if a.Err? {
        return Err(a.error);
      }
      while true
        invariant v0.Some? && v1.Some?
        decreases |incoming|
      {
        if maxTime.Some? {
          var reached := Time.Ge(v1.value.time, maxTime.value);
          if reached.Err? {
            return Err(reached.error);
          }
          if reached.value {
            pos := maxTime.value;
            return Ok(None);
          }
        }
        pos := v1.value.time;
        if v0.value.value != v1.value.value {
          var e := IsEdge(typ, v0.value.value, v1.value.value);
          if e.Err? {
            return Err(e.error);
          }
          if e.value {
            return Ok(v1);
          }
        }
        ghost var before := |incoming|;
        a := Align(true);
        if a.Err? {
          return Err(a.error);
        }
        assert |incoming| < before;
      }
    }
  }
}
