// Result and option types shared by every module of the model: the source's
// exceptions, assertion failures and `None` returns are values of these types.
// Python's slices of lists and vectors, which clip their bounds, are here too.
module Wrappers {
  datatype Option<T> = None | Some(value: T)
  {
    function GetOr(default: T): T
    {
      if Some? then value else default
    }
  }

  // `Err` carries a short description of the exception the source raises.
  datatype Result<T> = Ok(value: T) | Err(error: string)

  /** Python's `s[a:b]` for 0 <= a: both bounds are clipped to the length. */
  function Slice<T>(s: seq<T>, a: nat, b: nat): (r: seq<T>)
    ensures a <= b <= |s| ==> r == s[a..b]
    ensures |r| <= |s|
  {
    var lo := if a < |s| then a else |s|;
    var hi := if b < lo then lo else if b < |s| then b else |s|;
    s[lo..hi]
  }

  /** Python's `s[a:]` for 0 <= a. */
  function Drop<T>(s: seq<T>, a: nat): (r: seq<T>)
    ensures a <= |s| ==> r == s[a..]
    ensures a >= |s| ==> r == []
  {
    if a < |s| then s[a..] else []
  }
}
