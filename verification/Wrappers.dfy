/** Optional values and outcomes shared by the models. */
module Wrappers {

  datatype Option<+T> = None | Some(value: T) {
    /** The stored value, or the given one when there is none: SQL's COALESCE. */
    function GetOr(default: T): T {
      if Some? then value else default
    }
  }

  datatype Result<+T, +E> = Success(value: T) | Failure(error: E)

  lemma {:induction false} SubsetSize<T>(a: set<T>, b: set<T>)
    requires a <= b
    ensures |a| <= |b|
    decreases |a|
  {
    if a != {} {
      var x :| x in a;
      SubsetSize(a - {x}, b - {x});
    }
  }
}
