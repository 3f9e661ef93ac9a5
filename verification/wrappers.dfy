/** Optional values: the model's rendering of Python's `None`. */
module Wrappers {

  datatype Option<+T> = None | Some(value: T) {

    /** `None` stops a `:-` chain, as a failed regex step stops a match. */
    predicate IsFailure() {
      None?
    }

    function PropagateFailure<U>(): Option<U>
      requires None?
    {
      None
    }

    function Extract(): T
      requires Some?
    {
      value
    }

    /** The wrapped value, or `default` when there is none. */
    function GetOr(default: T): T {
      match this
      case Some(v) => v
      case None => default
    }
  }

  /** Python's `x or 0` on an optional integer: `None` (and 0) read as 0. */
  function OrZero(x: Option<int>): (r: int)
    ensures x.None? ==> r == 0
    ensures x.Some? ==> r == x.value
  {
    x.GetOr(0)
  }
}
