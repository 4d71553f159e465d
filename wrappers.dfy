/** Option and Result values used where the source returns null/undefined or throws. */
module Wrappers {

  datatype Option<+T> = None | Some(value: T) {
    function GetOr(default: T): T {
      match this
      case Some(v) => v
      case None => default
    }
  }

  datatype Result<+R, +E> = Ok(value: R) | Err(error: E)

  /** A value that may be missing, as a result whose error says nothing more. */
  function ToResult<T>(o: Option<T>): (r: Result<T, ()>)
    ensures r.Ok? <==> o.Some?
    ensures r.Ok? ==> o == Some(r.value)
  {
    if o.Some? then Ok(o.value) else Err(())
  }

  /** `xs.map(f)` where `f` may throw (Err): the first throw ends the map. */
  function MapResult<A, B, E>(xs: seq<A>, f: A -> Result<B, E>): (r: Result<seq<B>, E>)
    ensures r.Ok? <==> forall i :: 0 <= i < |xs| ==> f(xs[i]).Ok?
    ensures r.Ok? ==> |r.value| == |xs| && forall i :: 0 <= i < |xs| ==> f(xs[i]) == Ok(r.value[i])
  {
    if |xs| == 0 then Ok([])
    else
      var head := f(xs[0]);
      var tail := MapResult(xs[1..], f);
      assert forall i :: 1 <= i < |xs| ==> xs[i] == xs[1..][i - 1];
      if head.Err? then Err(head.error)
      else if tail.Err? then tail
      else Ok([head.value] + tail.value)
  }
}
