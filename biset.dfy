/**
 * BiSet requests — an address, a read or write flag and data for a write —
 * and the converters that hand them on: to a memory request, to a request
 * at an offset address, or to a request at an address some function gives.
 */
module BiSet {
  import opened Wrappers
  import opened Arith
  import Bimem
  import Pipe

  /** `BiSetRequest`: the write flag is always settled, inferred if not given. */
  datatype BiSetReq = BiSetReq(addr: int, write: bool, data: Option<int>)

  /** A request whose flag agrees with its data: a write carries data, a read none. */
  predicate Consistent(r: BiSetReq)
  {
    r.write <==> r.data.Some?
  }

  /** The arguments the constructor warns about: a given flag that disagrees with the data. */
  predicate Warns(write: Option<bool>, data: Option<int>)
  {
    write.Some? && (write.value != data.Some?)
  }

  /** `BiSetRequest(addr, write, data)`: an omitted flag is `data is not None`. */
  function NewRequest(addr: int, write: Option<bool>, data: Option<int>): BiSetReq
  {
    BiSetReq(addr, if write.Some? then write.value else data.Some?, data)
  }

  /**
   * An omitted flag always gives a consistent request; a given flag is
   * kept as given, and the request is inconsistent exactly when the
   * constructor warns.
   */
  lemma NewRequestFlags(addr: int, write: Option<bool>, data: Option<int>)
    ensures var r := NewRequest(addr, write, data);
      r.addr == addr && r.data == data &&
      (write.None? ==> Consistent(r)) &&
      (write.Some? ==> r.write == write.value) &&
      (Warns(write, data) <==> !Consistent(r))
  {
  }

  /** Rebuilding a request from its own fields gives it back. */
  lemma NewRequestOfFields(r: BiSetReq)
    ensures NewRequest(r.addr, Some(r.write), r.data) == r
  {
  }

  // ---------------------------------------------------------------------
  // Converters
  // ---------------------------------------------------------------------

  /** `BiSetToMemory.convert`: the same access, every byte enabled (mask `True`). */
  function ToMemory(r: BiSetReq): (m: Bimem.MemReq)
    ensures m.addr == r.addr && m.write == r.write && m.data == r.data
    ensures m.mask == Bimem.BoolMask(true)
  {
    Bimem.MemReq(r.addr, r.write, r.data, Bimem.BoolMask(true))
  }

  /** `BiSetOffset.convert`. */
  function Offset(offset: int, r: BiSetReq): BiSetReq
  {
    NewRequest(r.addr + offset, Some(r.write), r.data)
  }

  /** `BiSetAddrConvert.convert`. */
  function AddrConvert(fn: int -> int, r: BiSetReq): BiSetReq
  {
    NewRequest(fn(r.addr), Some(r.write), r.data)
  }

  /**
   * An offset moves only the address: the flag and data are kept, two
   * offsets add up, offset 0 changes nothing, and an offset converter is
   * an address converter with `addr + offset`.
   */
  lemma OffsetMovesAddress(a: int, b: int, r: BiSetReq)
    ensures Offset(a, r).addr == r.addr + a
    ensures Offset(a, r).write == r.write && Offset(a, r).data == r.data
    ensures Offset(b, Offset(a, r)) == Offset(a + b, r)
    ensures Offset(0, r) == r
    ensures AddrConvert(x => x + a, r) == Offset(a, r)
  {
  }

  /** An address converter keeps flag and data, and converters compose as their functions do. */
  lemma AddrConvertComposes(f: int -> int, g: int -> int, r: BiSetReq)
    ensures AddrConvert(f, r).addr == f(r.addr)
    ensures AddrConvert(f, r).write == r.write && AddrConvert(f, r).data == r.data
    ensures AddrConvert(g, AddrConvert(f, r)) == AddrConvert(x => g(f(x)), r)
  {
  }

  /**
   * The memory request of a consistent write converts to bits without
   * error, and its mask field is all ones.
   */
  lemma ToMemoryFullMask(cv: Bimem.BitsConverter, r: BiSetReq)
    requires Consistent(r) && cv.maskWidth.Some?
    ensures Bimem.ConvertSpec(cv, ToMemory(r)).Ok?
    ensures Bimem.MaskField(ToMemory(r), cv.maskWidth.value) == Pow2(cv.maskWidth.value) - 1
  {
  }

  /**
   * The request a converter sends on: fresh, with the converted data and
   * the converter's `commit` as its callback.
   */
  method Derive<D>(data: D, cb: nat) returns (out: Pipe.Request<D, Option<int>>)
    ensures fresh(out)
    ensures out.data == data && out.result == None && !out.done && out.callBack == Some(cb) && out.scheduled == []
  {
    out := new Pipe.Request(data);
    out.SetCallBack(cb);
  }

  /** `BiSetOffset.convert` followed, once the request is served, by its `commit`. */
  method OffsetRoundTrip(offset: int, req: Pipe.Request<BiSetReq, Option<int>>, cb: nat, answer: Option<int>)
    returns (out: Pipe.Request<BiSetReq, Option<int>>)
    modifies req
    ensures fresh(out) && out.data == Offset(offset, req.data) && out.result == Some(answer)
    ensures req.result == Some(answer) && req.done
  {
    out := Derive(Offset(offset, req.data), cb);
    out.Commit(answer);
    Bimem.Forward(out, req);
  }
}
