/** The optional value returned by a transition that may or may not write the outputs. */
module Wrappers {

  datatype Option<+T> = None | Some(value: T)

  /** The writes an optional output stands for: none, or exactly one. */
  function ToSeq<T>(o: Option<T>): (s: seq<T>)
    ensures |s| <= 1
    ensures o.Some? <==> |s| == 1
    ensures o.Some? ==> s[0] == o.value
  {
    match o
    case None => []
    case Some(v) => [v]
  }
}
