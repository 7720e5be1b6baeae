/**
 * `Regfile`: a register file behind a BiSet request port. Values read or
 * written are kept in a cache; while the file is held (locked) writes go to
 * a volatile cache and are marked dirty, and they are pushed only when the
 * lock is released. `Register` and `Field` read and write through it, a
 * field by read-modify-write of its register.
 *
 * The request port is modelled by the list of requests sent, and the value
 * the other side commits to a read request is a parameter of the operation
 * that may fetch.
 */
module Registers {
  import opened Wrappers
  import opened Arith
  import opened Fn
  import opened BiSet

  const ALREADY_LOCKED: string := "already locked"
  const NOT_LOCKED: string := "not locked"
  const NOT_READABLE: string := "try to read non readable field"
  const NOT_WRITABLE: string := "try to write non writable field"
  /** Formatting a fetched `None` for the debug log with `:#x`. */
  const FORMAT_NONE: string := "unsupported format string passed to NoneType.__format__"
  /** `None & mask`, for a register that reads as `None`. */
  const NONE_AND: string := "unsupported operand type(s) for &: 'NoneType' and 'int'"

  // ---------------------------------------------------------------------
  // Descriptors
  // ---------------------------------------------------------------------

  /** `Field`: a named bit interval of a register. */
  datatype FieldDesc = FieldDesc(name: string, interval: Interval, canWrite: bool, canRead: bool, reset: Option<int>)

  /**
   * `Register`: its names, its address, whether its value may change by
   * itself (`volatile`) or cannot be read (`opaque`), the bits masked on
   * writes, the value it reads as when nothing is known, and its fields.
   */
  datatype RegDesc = RegDesc(names: seq<string>, addr: int, volatile: bool, isOpaque: bool, masked: int,
                             resetVal: Option<int>, fields: seq<FieldDesc>)

  /** What `gethandle` finds: register `reg`, or field `field` of register `reg`. */
  datatype Handle = RegHandle(reg: nat) | FieldHandle(reg: nat, field: nat)

  predicate Named(r: RegDesc, name: string)
  {
    name in r.names
  }

  predicate FieldNamed(r: RegDesc, k: nat, name: string)
  {
    k < |r.fields| && r.fields[k].name == name
  }

  // ---------------------------------------------------------------------
  // The cache state and what each operation does to it
  // ---------------------------------------------------------------------

  /**
   * The state of a `Regfile` apart from its registers: `cache`, `volatile`
   * with its keys in insertion order (`volOrder`), `dirty`, the two lock
   * flags, and the requests sent so far.
   */
  datatype Cache = Cache(cache: map<int, int>, volatile: map<int, int>, volOrder: seq<int>, dirty: set<int>,
                         locked: bool, lockedRead: bool, sent: seq<BiSetReq>)

  const Empty: Cache := Cache(map[], map[], [], {}, false, false, [])

  /** The read request of a fetch. */
  function Fetch(addr: int): BiSetReq
  {
    NewRequest(addr, None, None)
  }

  /** The write request of `ccPush`. */
  function Push(addr: int, value: int): BiSetReq
  {
    NewRequest(addr, Some(true), Some(value))
  }

  /** What is known of an address without asking: the volatile value, else the cached one. */
  function Known(c: Cache, addr: int): Option<int>
  {
    if addr in c.volatile then Some(c.volatile[addr])
    else if addr in c.cache then Some(c.cache[addr])
    else None
  }

  /** `volatile[addr] = v`: a new key goes to the end of the order, a known one keeps its place. */
  function SetVolatile(c: Cache, addr: int, v: int): Cache
  {
    c.(volatile := c.volatile[addr := v], volOrder := if addr in c.volatile then c.volOrder else c.volOrder + [addr])
  }

  /**
   * The state a `Regfile` keeps: `volOrder` lists the keys of `volatile`
   * once each, dirty addresses are volatile ones, and an unlocked file has
   * nothing volatile.
   */
  ghost predicate Valid(c: Cache)
  {
    (forall i, j :: 0 <= i < j < |c.volOrder| ==> c.volOrder[i] != c.volOrder[j]) &&
    (forall a :: a in c.volatile <==> a in c.volOrder) &&
    c.dirty <= c.volatile.Keys &&
    (!c.locked ==> c.volatile == map[] && c.volOrder == [] && c.dirty == {})
  }

  /** `ccRead`: volatile, then cache, then nothing if reading is not allowed, else a fetch. */
  function ReadSpec(c: Cache, addr: int, dontCache: bool, dontRead: bool, reply: Option<int>): (Cache, Result<Option<int>>)
  {
    if addr in c.volatile then (c, Ok(Some(c.volatile[addr])))
    else if !dontCache && addr in c.cache then (c, Ok(Some(c.cache[addr])))
    else if c.lockedRead || dontRead then (c, Ok(None))
    else
      var c1 := c.(sent := c.sent + [Fetch(addr)]);
      match reply
      case None => (c1, Err(FORMAT_NONE))
      case Some(v) =>
        var c2 := if dontCache then c1 else c1.(cache := c1.cache[addr := v]);
        (if c.locked then SetVolatile(c2, addr, v) else c2, Ok(Some(v)))
  }

  /**
   * `ccWrite`: nothing if the known value is the new one; otherwise, when
   * locked, the volatile value and the dirty mark; the cache unless
   * `dontCache`; and a push when not locked.
   */
  function WriteSpec(c: Cache, addr: int, value: int, dontCache: bool): Cache
  {
    if Known(c, addr) == Some(value) then c
    else
      var c1 := if c.locked then SetVolatile(c, addr, value).(dirty := c.dirty + {addr}) else c;
      var c2 := if dontCache then c1 else c1.(cache := c1.cache[addr := value]);
      if c.locked then c2 else c2.(sent := c2.sent + [Push(addr, value)])
  }

  /** `hold`. */
  function HoldSpec(c: Cache): Result<Cache>
  {
    if c.locked then Err(ALREADY_LOCKED) else Ok(c.(locked := true))
  }

  /** The pushes of `ccRelease`: each dirty address in `order`, with its volatile value. */
  function Pushes(order: seq<int>, vol: map<int, int>, dirty: set<int>): (r: seq<BiSetReq>)
    ensures |r| <= |order|
  {
    if order == [] then []
    else
      var a := order[|order| - 1];
      Pushes(order[..|order| - 1], vol, dirty) + (if a in dirty && a in vol then [Push(a, vol[a])] else [])
  }

  /** `ccRelease`: unlocked, the dirty values pushed, nothing volatile or dirty left. */
  function ReleaseSpec(c: Cache): Result<Cache>
  {
    if !c.locked then Err(NOT_LOCKED)
    else Ok(Cache(c.cache, map[], [], {}, false, false, c.sent + Pushes(c.volOrder, c.volatile, c.dirty)))
  }

  /** `Register.ccRd`: a volatile, opaque or invalidated register is not taken from the cache; `None` reads as `resetVal`. */
  function RegRdSpec(c: Cache, reg: RegDesc, invalid: bool, reply: Option<int>): (Cache, Result<Option<int>>)
  {
    var (c1, r) := ReadSpec(c, reg.addr, reg.volatile || invalid || reg.isOpaque, reg.isOpaque, reply);
    (c1, if r.Ok? && r.value.None? then Ok(reg.resetVal) else r)
  }

  /** `Register.ccWr`: a volatile or opaque register's value is not cached. */
  function RegWrSpec(c: Cache, reg: RegDesc, value: int): Cache
  {
    WriteSpec(c, reg.addr, value, reg.volatile || reg.isOpaque)
  }

  /** The error `mkmask` raises for an interval it cannot mask. */
  function MaskError(iv: Interval): string
  {
    if Len(iv) < 0 then NEGATIVE_LEN else NEGATIVE_SHIFT
  }

  /** `(regval & ~mask) | ((val << low) & mask)`. */
  function NewValue(regval: int, iv: Interval, val: int): int
    requires Maskable(iv)
  {
    BitOr(BitAnd(regval, BitNot(Mask(iv))), BitAnd(val * Pow2(iv.low), Mask(iv)))
  }

  /** `Field.ccRd`: the register read, then `bitsel` of the interval. */
  function FieldRdSpec(c: Cache, f: FieldDesc, reg: RegDesc, invalid: bool, reply: Option<int>): (Cache, Result<int>)
  {
    if !f.canRead then (c, Err(NOT_READABLE))
    else
      var (c1, r) := RegRdSpec(c, reg, invalid, reply);
      if r.Err? then (c1, Err(r.error))
      else if !Maskable(f.interval) then (c1, Err(MaskError(f.interval)))
      else if r.value.None? then (c1, Err(NONE_AND))
      else (c1, BitSel(r.value.value, f.interval))
  }

  /** `Field.ccWr`: the register read, the field's bits replaced, the register written. */
  function FieldWrSpec(c: Cache, f: FieldDesc, reg: RegDesc, val: int, reply: Option<int>): (Cache, Result<()>)
  {
    if !f.canWrite then (c, Err(NOT_WRITABLE))
    else
      var (c1, r) := RegRdSpec(c, reg, false, reply);
      if r.Err? then (c1, Err(r.error))
      else if !Maskable(f.interval) then (c1, Err(MaskError(f.interval)))
      else if r.value.None? then (c1, Err(NONE_AND))
      else (RegWrSpec(c1, reg, NewValue(r.value.value, f.interval, val)), Ok(()))
  }

  // ---------------------------------------------------------------------
  // What the cache promises
  // ---------------------------------------------------------------------

  /** A new register file keeps the invariant. */
  lemma EmptyIsValid()
    ensures Valid(Empty)
  {
  }

  /** `volatile[addr] = v` keeps the order of the volatile keys in step with the keys. */
  lemma SetVolatileValid(c: Cache, addr: int, v: int)
    requires forall i, j :: 0 <= i < j < |c.volOrder| ==> c.volOrder[i] != c.volOrder[j]
    requires forall a :: a in c.volatile <==> a in c.volOrder
    ensures var c1 := SetVolatile(c, addr, v);
      (forall i, j :: 0 <= i < j < |c1.volOrder| ==> c1.volOrder[i] != c1.volOrder[j]) &&
      (forall a :: a in c1.volatile <==> a in c1.volOrder)
  {
  }

  /**
   * `ccRead` sends at most one request, a read of the address, and it does
   * so exactly when the address is neither volatile nor (unless
   * `dontCache`) cached and reading is allowed. It answers `None` exactly
   * when it may not read an address it does not know.
   */
  lemma ReadFetchesOnlyWhenUnknown(c: Cache, addr: int, dontCache: bool, dontRead: bool, reply: Option<int>)
    ensures var (c1, r) := ReadSpec(c, addr, dontCache, dontRead, reply);
      var unknown := addr !in c.volatile && (dontCache || addr !in c.cache);
      (c1.sent == c.sent || c1.sent == c.sent + [Fetch(addr)]) &&
      (c1.sent == c.sent + [Fetch(addr)] <==> unknown && !c.lockedRead && !dontRead) &&
      (r == Ok(None) <==> unknown && (c.lockedRead || dontRead)) &&
      (addr in c.volatile ==> r == Ok(Some(c.volatile[addr]))) &&
      (!dontCache && addr !in c.volatile && addr in c.cache ==> r == Ok(Some(c.cache[addr])))
  {
  }

  /**
   * After a fetch the value is cached (unless `dontCache`) and, when
   * locked, volatile; a second read then answers it without sending.
   */
  lemma FetchedIsKept(c: Cache, addr: int, dontCache: bool, v: int, reply2: Option<int>)
    requires addr !in c.volatile && (dontCache || addr !in c.cache) && !c.lockedRead
    ensures var (c1, r) := ReadSpec(c, addr, dontCache, false, Some(v));
      r == Ok(Some(v)) && c1.sent == c.sent + [Fetch(addr)] &&
      (!dontCache ==> addr in c1.cache && c1.cache[addr] == v) &&
      (c.locked ==> addr in c1.volatile && c1.volatile[addr] == v) &&
      (!dontCache || c.locked ==> ReadSpec(c1, addr, false, false, reply2) == (c1, Ok(Some(v))))
  {
  }

  /** A read keeps the invariant. */
  lemma ReadKeepsValid(c: Cache, addr: int, dontCache: bool, dontRead: bool, reply: Option<int>)
    requires Valid(c)
    ensures Valid(ReadSpec(c, addr, dontCache, dontRead, reply).0)
  {
    if addr !in c.volatile && (dontCache || addr !in c.cache) && !c.lockedRead && !dontRead && reply.Some? && c.locked {
      var c1 := c.(sent := c.sent + [Fetch(addr)]);
      var c2 := if dontCache then c1 else c1.(cache := c1.cache[addr := reply.value]);
      SetVolatileValid(c2, addr, reply.value);
    }
  }

  /** Writing the value already known changes nothing and sends nothing. */
  lemma WriteSameIsNoop(c: Cache, addr: int, value: int, dontCache: bool)
    requires Known(c, addr) == Some(value)
    ensures WriteSpec(c, addr, value, dontCache) == c
  {
  }

  /** While locked, a new value goes to `volatile` and `dirty` and is not sent. */
  lemma LockedWriteNotPushed(c: Cache, addr: int, value: int, dontCache: bool)
    requires c.locked && Known(c, addr) != Some(value)
    ensures var w := WriteSpec(c, addr, value, dontCache);
      w.sent == c.sent && addr in w.dirty && addr in w.volatile && w.volatile[addr] == value && w.locked
  {
  }

  /** While unlocked, a new value is pushed at once, and nothing becomes volatile. */
  lemma UnlockedWritePushed(c: Cache, addr: int, value: int, dontCache: bool)
    requires !c.locked && Known(c, addr) != Some(value)
    ensures var w := WriteSpec(c, addr, value, dontCache);
      w.sent == c.sent + [Push(addr, value)] && w.volatile == c.volatile && w.dirty == c.dirty
  {
  }

  /** A write keeps the invariant. */
  lemma WriteKeepsValid(c: Cache, addr: int, value: int, dontCache: bool)
    requires Valid(c)
    ensures Valid(WriteSpec(c, addr, value, dontCache))
  {
    if Known(c, addr) != Some(value) && c.locked {
      SetVolatileValid(c, addr, value);
    }
  }

  /** A value written is read back without a fetch, when it was cached or the file is locked. */
  lemma WriteThenRead(c: Cache, addr: int, value: int, dontCache: bool, reply: Option<int>)
    requires Valid(c) && (c.locked || !dontCache)
    ensures var w := WriteSpec(c, addr, value, dontCache);
      ReadSpec(w, addr, false, false, reply) == (w, Ok(Some(value)))
  {
  }

  /** `hold` fails exactly on a locked file, so holding twice fails; `ccRelease` fails exactly on an unlocked one. */
  lemma HoldAndRelease(c: Cache)
    ensures HoldSpec(c).Err? <==> c.locked
    ensures HoldSpec(c).Ok? ==> HoldSpec(HoldSpec(c).value) == Err(ALREADY_LOCKED)
    ensures ReleaseSpec(c).Err? <==> !c.locked
    ensures ReleaseSpec(c).Ok? ==> var r := ReleaseSpec(c).value;
      !r.locked && !r.lockedRead && r.volatile == map[] && r.dirty == {} && r.cache == c.cache &&
      HoldSpec(r).Ok? && ReleaseSpec(r) == Err(NOT_LOCKED)
  {
  }

  /** `hold`, `ccRelease`, `invalidate` and `lockRead` keep the invariant. */
  lemma LockKeepsValid(c: Cache, addr: int)
    requires Valid(c)
    ensures HoldSpec(c).Ok? ==> Valid(HoldSpec(c).value)
    ensures ReleaseSpec(c).Ok? ==> Valid(ReleaseSpec(c).value)
    ensures Valid(c.(cache := c.cache - {addr})) && Valid(c.(lockedRead := true))
  {
  }

  /** A push of a dirty address in `order` with its volatile value. */
  predicate PushOf(r: BiSetReq, order: seq<int>, vol: map<int, int>, dirty: set<int>)
  {
    r.addr in order && r.addr in dirty && r.addr in vol && r == Push(r.addr, vol[r.addr])
  }

  predicate Pushed(p: seq<BiSetReq>, a: int)
  {
    exists k :: 0 <= k < |p| && p[k].addr == a
  }

  predicate Distinct(s: seq<int>)
  {
    forall i, j :: 0 <= i < j < |s| ==> s[i] != s[j]
  }

  predicate DistinctAddrs(p: seq<BiSetReq>)
  {
    forall i, j :: 0 <= i < j < |p| ==> p[i].addr != p[j].addr
  }

  /** Each push of a release is of a dirty address in the order, with its volatile value. */
  lemma {:induction false} PushesAreDirty(order: seq<int>, vol: map<int, int>, dirty: set<int>)
    ensures forall k :: 0 <= k < |Pushes(order, vol, dirty)| ==> PushOf(Pushes(order, vol, dirty)[k], order, vol, dirty)
  {
    if order != [] {
      var front, a := order[..|order| - 1], order[|order| - 1];
      assert order == front + [a];
      PushesAreDirty(front, vol, dirty);
      var q, p := Pushes(front, vol, dirty), Pushes(order, vol, dirty);
      forall k | 0 <= k < |p|
        ensures PushOf(p[k], order, vol, dirty)
      {
        if k < |q| {
          assert p[k] == q[k];
          assert PushOf(q[k], front, vol, dirty);
        } else {
          assert p[k] == Push(a, vol[a]);
        }
      }
    }
  }

  /** Every dirty address of the order that is volatile is pushed. */
  lemma {:induction false} PushesCoverDirty(order: seq<int>, vol: map<int, int>, dirty: set<int>)
    ensures forall a :: a in order && a in dirty && a in vol ==> Pushed(Pushes(order, vol, dirty), a)
  {
    if order != [] {
      var front, a := order[..|order| - 1], order[|order| - 1];
      assert order == front + [a];
      PushesCoverDirty(front, vol, dirty);
      var q, p := Pushes(front, vol, dirty), Pushes(order, vol, dirty);
      forall b | b in order && b in dirty && b in vol
        ensures Pushed(p, b)
      {
        if b == a {
          assert p[|p| - 1].addr == b;
        } else {
          assert b in front;
          assert Pushed(q, b);
          var k :| 0 <= k < |q| && q[k].addr == b;
          assert p[k] == q[k];
        }
      }
    }
  }

  /** An order without repeats pushes each address at most once. */
  lemma {:induction false} PushesDistinct(order: seq<int>, vol: map<int, int>, dirty: set<int>)
    requires Distinct(order)
    ensures DistinctAddrs(Pushes(order, vol, dirty))
  {
    if order != [] {
      var front, a := order[..|order| - 1], order[|order| - 1];
      assert order == front + [a];
      assert Distinct(front) by {
        forall i, j | 0 <= i < j < |front|
          ensures front[i] != front[j]
        {
          assert front[i] == order[i] && front[j] == order[j];
        }
      }
      PushesDistinct(front, vol, dirty);
      PushesAreDirty(front, vol, dirty);
      var q, p := Pushes(front, vol, dirty), Pushes(order, vol, dirty);
      forall i, j | 0 <= i < j < |p|
        ensures p[i].addr != p[j].addr
      {
        assert p[i] == q[i];
        if j < |q| {
          assert p[j] == q[j];
        } else {
          assert PushOf(q[i], front, vol, dirty);
          assert a !in front by {
            forall m | 0 <= m < |front|
              ensures front[m] != a
            {
              assert front[m] == order[m];
            }
          }
        }
      }
    }
  }

  /**
   * On a valid locked file, `ccRelease` sends one write per dirty address,
   * with its volatile value, and nothing else.
   */
  lemma ReleasePushesDirty(c: Cache)
    requires Valid(c) && c.locked
    ensures var r := ReleaseSpec(c).value;
      var p := r.sent[|c.sent|..];
      r.sent[..|c.sent|] == c.sent &&
      (forall k :: 0 <= k < |p| ==> p[k].addr in c.dirty && p[k] == Push(p[k].addr, c.volatile[p[k].addr])) &&
      (forall a :: a in c.dirty ==> exists k :: 0 <= k < |p| && p[k].addr == a) &&
      (forall i, j :: 0 <= i < j < |p| ==> p[i].addr != p[j].addr)
  {
    var r := ReleaseSpec(c).value;
    var p := Pushes(c.volOrder, c.volatile, c.dirty);
    assert r.sent == c.sent + p;
    assert r.sent[|c.sent|..] == p;
    PushesAreDirty(c.volOrder, c.volatile, c.dirty);
    PushesCoverDirty(c.volOrder, c.volatile, c.dirty);
    PushesDistinct(c.volOrder, c.volatile, c.dirty);
  }

  /**
   * Two different values written to one address under a lock, then the
   * release: only the last value is sent.
   */
  lemma TwoLockedWritesPushLast(c: Cache, addr: int, v1: int, v2: int, dc1: bool, dc2: bool)
    requires Valid(c) && !c.locked && v1 != v2 && Known(c, addr) != Some(v1)
    ensures var h := HoldSpec(c).value;
      var w := WriteSpec(WriteSpec(h, addr, v1, dc1), addr, v2, dc2);
      ReleaseSpec(w).Ok? && ReleaseSpec(w).value.sent == c.sent + [Push(addr, v2)]
  {
    var h := HoldSpec(c).value;
    var w1 := WriteSpec(h, addr, v1, dc1);
    FirstLockedWrite(h, addr, v1, dc1);
    var w := WriteSpec(w1, addr, v2, dc2);
    SecondLockedWrite(w1, addr, v1, v2, dc2);
    ReleaseOne(w, addr, v2);
  }

  /** The first write into a freshly locked file makes its address the one volatile, dirty address. */
  lemma FirstLockedWrite(h: Cache, addr: int, v: int, dc: bool)
    requires h.locked && h.volOrder == [] && h.volatile == map[] && h.dirty == {} && Known(h, addr) != Some(v)
    ensures var w := WriteSpec(h, addr, v, dc);
      w.locked && w.volOrder == [addr] && w.volatile == map[addr := v] && w.dirty == {addr} && w.sent == h.sent
  {
  }

  /** A second, different write to that address replaces its volatile value and nothing else of the order. */
  lemma SecondLockedWrite(w1: Cache, addr: int, v1: int, v2: int, dc: bool)
    requires w1.locked && w1.volOrder == [addr] && w1.volatile == map[addr := v1] && w1.dirty == {addr} && v1 != v2
    ensures var w := WriteSpec(w1, addr, v2, dc);
      w.locked && w.volOrder == [addr] && w.volatile == map[addr := v2] && w.dirty == {addr} && w.sent == w1.sent
  {
    assert Known(w1, addr) == Some(v1);
  }

  /** Releasing a file whose one volatile address is dirty pushes exactly that value. */
  lemma ReleaseOne(w: Cache, addr: int, v: int)
    requires w.locked && w.volOrder == [addr] && w.volatile == map[addr := v] && w.dirty == {addr}
    ensures ReleaseSpec(w).Ok? && ReleaseSpec(w).value.sent == w.sent + [Push(addr, v)]
  {
    assert Pushes([addr], w.volatile, w.dirty) == Pushes([], w.volatile, w.dirty) + [Push(addr, v)];
  }

  /** An opaque register that is not volatile reads as its reset value and sends nothing; unlocked it always does. */
  lemma OpaqueReadsReset(c: Cache, reg: RegDesc, invalid: bool, reply: Option<int>)
    requires reg.isOpaque
    ensures reg.addr !in c.volatile ==> RegRdSpec(c, reg, invalid, reply) == (c, Ok(reg.resetVal))
    ensures Valid(c) && !c.locked ==> RegRdSpec(c, reg, invalid, reply) == (c, Ok(reg.resetVal))
  {
  }

  /** A volatile register is fetched on every read, cached or not, and the cache is left alone. */
  lemma VolatileBypassesCache(c: Cache, reg: RegDesc, invalid: bool, reply: Option<int>)
    requires reg.volatile && !reg.isOpaque && reg.addr !in c.volatile && !c.lockedRead
    ensures var (c1, r) := RegRdSpec(c, reg, invalid, reply);
      c1.sent == c.sent + [Fetch(reg.addr)] && c1.cache == c.cache &&
      r == (if reply.Some? then Ok(reply) else Err(FORMAT_NONE))
  {
  }

  /** The new register value has the field's bits from `val` and every other bit from the old value. */
  lemma FieldWriteBits(regval: int, iv: Interval, val: int, i: nat)
    requires Maskable(iv)
    ensures Bit(NewValue(regval, iv, val), i) == if Contains(iv, i) then Bit(val, i - iv.low) else Bit(regval, i)
  {
    var mask := Mask(iv);
    BitOfOr(BitAnd(regval, BitNot(mask)), BitAnd(val * Pow2(iv.low), mask), i);
    BitOfAnd(regval, BitNot(mask), i);
    BitOfNot(mask, i);
    BitOfAnd(val * Pow2(iv.low), mask, i);
    BitOfShl(val, iv.low, i);
    MaskBits(iv, i);
    BitIsBit(regval, i);
    if i >= iv.low {
      BitIsBit(val, i - iv.low);
    }
  }

  /** `bitsel` of the new register value gives the written value, cut to the field's width. */
  lemma FieldReadBack(regval: int, iv: Interval, val: int)
    requires Maskable(iv)
    ensures BitSel(NewValue(regval, iv, val), iv) == Ok(val % Pow2(Len(iv)))
  {
    var nv := NewValue(regval, iv, val);
    var n := Len(iv);
    BitSelIsField(nv, iv);
    var a := BitAnd(nv / Pow2(iv.low), Pow2(n) - 1);
    var b := BitAnd(val, Pow2(n) - 1);
    forall i: nat
      ensures Bit(a, i) == Bit(b, i)
    {
      BitOfAnd(nv / Pow2(iv.low), Pow2(n) - 1, i);
      BitOfAnd(val, Pow2(n) - 1, i);
      BitOfOnes(n, i);
      BitOfShr(nv, iv.low, i);
      FieldWriteBits(regval, iv, val, i + iv.low);
    }
    BitsExtensional(a, b);
    BitAndLowMask(nv / Pow2(iv.low), n);
    BitAndLowMask(val, n);
  }

  /**
   * A field written to a register that is neither volatile nor opaque
   * reads back, without a fetch, as the value cut to the field's width.
   */
  lemma FieldWriteThenRead(c: Cache, f: FieldDesc, reg: RegDesc, val: int, reply: Option<int>, reply2: Option<int>)
    requires Valid(c) && f.canRead && !reg.volatile && !reg.isOpaque
    requires FieldWrSpec(c, f, reg, val, reply).1 == Ok(())
    ensures var c1 := FieldWrSpec(c, f, reg, val, reply).0;
      FieldRdSpec(c1, f, reg, false, reply2) == (c1, Ok(val % Pow2(Len(f.interval))))
  {
    var (c0, r) := RegRdSpec(c, reg, false, reply);
    ReadKeepsValid(c, reg.addr, false, false, reply);
    var nv := NewValue(r.value.value, f.interval, val);
    WriteThenRead(c0, reg.addr, nv, false, reply2);
    FieldReadBack(r.value.value, f.interval, val);
  }

  // ---------------------------------------------------------------------
  // The register file
  // ---------------------------------------------------------------------

  class Regfile {
    var regs: seq<RegDesc>
    var cache: map<int, int>
    var volatile: map<int, int>
    /** The keys of `volatile` in the order they were added, the order `ccRelease` visits them. */
    var volOrder: seq<int>
    var dirty: set<int>
    var locked: bool
    var lockedRead: bool
    /** The requests sent on the `req` port, oldest first. */
    var sent: seq<BiSetReq>

    function State(): Cache
      reads this
    {
      Cache(cache, volatile, volOrder, dirty, locked, lockedRead, sent)
    }

    constructor()
      ensures State() == Empty && regs == []
    {
      regs := [];
      cache, volatile, volOrder, dirty := map[], map[], [], {};
      locked, lockedRead := false, false;
      sent := [];
    }

    /** `Regfile.add`: a register with the given settings and no fields; its index is returned. */
    method Add(names: seq<string>, addr: int, reset: Option<int>, masked: Option<int>, isVolatile: bool, isOpaque: bool)
      returns (r: nat)
      modifies this
      ensures r == |old(regs)| && regs == old(regs) + [RegDesc(names, addr, isVolatile, isOpaque,
        if masked.Some? && masked.value != 0 then masked.value else 0, reset, [])]
      ensures State() == old(State())
    {
      var m := 0;
      if masked.Some? && masked.value != 0 {
        m := masked.value;
      }
      r := |regs|;
      regs := regs + [RegDesc(names, addr, isVolatile, isOpaque, m, reset, [])];
    }

    /** `Register.add`: a field over `itvl`, readable and writable, appended to register `reg`. */
    method AddField(reg: nat, name: string, itvl: Interval, reset: Option<int>)
      requires reg < |regs|
      modifies this
      ensures regs == old(regs)[reg := old(regs)[reg].(fields := old(regs)[reg].fields + [FieldDesc(name, itvl, true, true, reset)])]
      ensures State() == old(State())
    {
      var r := regs[reg];
      regs := regs[reg := r.(fields := r.fields + [FieldDesc(name, itvl, true, true, reset)])];
    }

    /**
     * `gethandle`: the first register with the name; if there is none, the
     * first field with it, registers in order; `None` if neither exists.
     */
    method GetHandle(name: string) returns (h: Option<Handle>)
      ensures h.Some? && h.value.RegHandle? ==>
        h.value.reg < |regs| && Named(regs[h.value.reg], name) &&
        forall j :: 0 <= j < h.value.reg ==> !Named(regs[j], name)
      ensures h.Some? && h.value.FieldHandle? ==>
        (forall j :: 0 <= j < |regs| ==> !Named(regs[j], name)) &&
        h.value.reg < |regs| && FieldNamed(regs[h.value.reg], h.value.field, name) &&
        (forall j, k :: 0 <= j < h.value.reg ==> !FieldNamed(regs[j], k, name)) &&
        (forall k :: 0 <= k < h.value.field ==> !FieldNamed(regs[h.value.reg], k, name))
      ensures h.None? ==>
        (forall j :: 0 <= j < |regs| ==> !Named(regs[j], name)) &&
        (forall j, k :: 0 <= j < |regs| ==> !FieldNamed(regs[j], k, name))
    {
      var i := 0;
      while i < |regs|
        invariant 0 <= i <= |regs|
        invariant forall j :: 0 <= j < i ==> !Named(regs[j], name)
      {
        if name in regs[i].names {
          return Some(RegHandle(i));
        }
        i := i + 1;
      }
      i := 0;
      while i < |regs|
        invariant 0 <= i <= |regs|
        invariant forall j, k :: 0 <= j < i ==> !FieldNamed(regs[j], k, name)
      {
        var k := 0;
        while k < |regs[i].fields|
          invariant 0 <= k <= |regs[i].fields|
          invariant forall m :: 0 <= m < k ==> !FieldNamed(regs[i], m, name)
        {
          if regs[i].fields[k].name == name {
            return Some(FieldHandle(i, k));
          }
          k := k + 1;
        }
        i := i + 1;
      }
      return None;
    }

    /** `ccRead`. */
    method CcRead(addr: int, dontCache: bool, dontRead: bool, reply: Option<int>) returns (r: Result<Option<int>>)
      modifies this
      ensures (State(), r) == ReadSpec(old(State()), addr, dontCache, dontRead, reply)
      ensures regs == old(regs)
    {
      if addr in volatile {
        return Ok(Some(volatile[addr]));
      }
      if !dontCache && addr in cache {
        return Ok(Some(cache[addr]));
      }
      if lockedRead || dontRead {
        return Ok(None);
      }
      sent := sent + [Fetch(addr)];
      if reply.None? {
        return Err(FORMAT_NONE);
      }
      var v := reply.value;
      if !dontCache {
        cache := cache[addr := v];
      }
      if locked {
        SetVol(addr, v);
      }
      return Ok(Some(v));
    }

    /** `volatile[addr] = v`, keeping the insertion order of the keys. */
    method SetVol(addr: int, v: int)
      modifies this
      ensures State() == SetVolatile(old(State()), addr, v) && regs == old(regs)
    {
      if addr !in volatile {
        volOrder := volOrder + [addr];
      }
      volatile := volatile[addr := v];
    }

    /** `ccWrite`. */
    method CcWrite(addr: int, value: int, dontCache: bool)
      modifies this
      ensures State() == WriteSpec(old(State()), addr, value, dontCache) && regs == old(regs)
    {
      var curr := CcRead(addr, false, true, None);
      if curr.Ok? && curr.value == Some(value) {
        return;
      }
      if locked {
        dirty := dirty + {addr};
        SetVol(addr, value);
      }
      if !dontCache {
        cache := cache[addr := value];
      }
      if locked {
        return;
      }
      CcPush(addr, value);
    }

    /** `ccPush`: a write request with the value goes out. */
    method CcPush(addr: int, value: int)
      modifies this
      ensures State() == old(State()).(sent := old(sent) + [Push(addr, value)]) && regs == old(regs)
    {
      sent := sent + [Push(addr, value)];
    }

    /** `invalidate`: the address is dropped from the cache. */
    method Invalidate(addr: int)
      modifies this
      ensures State() == old(State()).(cache := old(cache) - {addr}) && regs == old(regs)
    {
      if addr in cache {
        cache := cache - {addr};
      }
    }

    /** `hold`. */
    method Hold() returns (r: Result<()>)
      modifies this
      ensures HoldSpec(old(State())).Ok? ==> r == Ok(()) && State() == HoldSpec(old(State())).value
      ensures HoldSpec(old(State())).Err? ==> r == Err(HoldSpec(old(State())).error) && State() == old(State())
      ensures regs == old(regs)
    {
      if locked {
        return Err(ALREADY_LOCKED);
      }
      locked := true;
      return Ok(());
    }

    /** `lockRead`: reads are no longer fetched, until the next release. */
    method LockRead()
      modifies this
      ensures State() == old(State()).(lockedRead := true) && regs == old(regs)
    {
      lockedRead := true;
    }

    /** `ccRelease`. */
    method CcRelease() returns (r: Result<()>)
      modifies this
      ensures ReleaseSpec(old(State())).Ok? ==> r == Ok(()) && State() == ReleaseSpec(old(State())).value
      ensures ReleaseSpec(old(State())).Err? ==> r == Err(ReleaseSpec(old(State())).error) && State() == old(State())
      ensures regs == old(regs)
    {
      if !locked {
        return Err(NOT_LOCKED);
      }
      locked := false;
      lockedRead := false;
      var order, vol, d := volOrder, volatile, dirty;
      var i := 0;
      while i < |order|
        invariant 0 <= i <= |order| && regs == old(regs)
        invariant State() == old(State()).(locked := false, lockedRead := false,
          sent := old(sent) + Pushes(order[..i], vol, d))
      {
        var a := order[i];
        assert order[..i + 1][..i] == order[..i];
        if a in d && a in vol {
          CcPush(a, vol[a]);
        }
        i := i + 1;
      }
      assert order[..i] == order;
      volatile, volOrder, dirty := map[], [], {};
      return Ok(());
    }

    /** `Register.ccRd`. */
    method RegRd(reg: RegDesc, invalid: bool, reply: Option<int>) returns (r: Result<Option<int>>)
      modifies this
      ensures (State(), r) == RegRdSpec(old(State()), reg, invalid, reply) && regs == old(regs)
    {
      r := CcRead(reg.addr, reg.volatile || invalid || reg.isOpaque, reg.isOpaque, reply);
      if r.Ok? && r.value.None? {
        r := Ok(reg.resetVal);
      }
    }

    /** `Register.ccWr`. */
    method RegWr(reg: RegDesc, value: int)
      modifies this
      ensures State() == RegWrSpec(old(State()), reg, value) && regs == old(regs)
    {
      CcWrite(reg.addr, value, reg.volatile || reg.isOpaque);
    }

    /** `Field.ccRd`. */
    method FieldRd(f: FieldDesc, reg: RegDesc, invalid: bool, reply: Option<int>) returns (r: Result<int>)
      modifies this
      ensures (State(), r) == FieldRdSpec(old(State()), f, reg, invalid, reply) && regs == old(regs)
    {
      if !f.canRead {
        return Err(NOT_READABLE);
      }
      var regval := RegRd(reg, invalid, reply);
      if regval.Err? {
        return Err(regval.error);
      }
      var mask := MkMask(f.interval);
      if mask.Err? {
        return Err(mask.error);
      }
      if regval.value.None? {
        return Err(NONE_AND);
      }
      r := Ok(BitAnd(regval.value.value, mask.value) / Pow2(f.interval.low));
    }

    /** `Field.ccWr`. */
    method FieldWr(f: FieldDesc, reg: RegDesc, val: int, reply: Option<int>) returns (r: Result<()>)
      modifies this
      ensures (State(), r) == FieldWrSpec(old(State()), f, reg, val, reply) && regs == old(regs)
    {
      if !f.canWrite {
        return Err(NOT_WRITABLE);
      }
      var regval := RegRd(reg, false, reply);
      if regval.Err? {
        return Err(regval.error);
      }
      var mask := MkMask(f.interval);
      if mask.Err? {
        return Err(mask.error);
      }
      var newval := BitAnd(val * Pow2(f.interval.low), mask.value);
      if regval.value.None? {
        return Err(NONE_AND);
      }
      var stripped := BitAnd(regval.value.value, BitNot(mask.value));
      RegWr(reg, BitOr(stripped, newval));
      return Ok(());
    }
  }
}
