/** Failure-compatible wrappers shared by every module of the model. */
module Wrappers {

  /** A value that may be absent: Python's `None` versus a present value. */
  datatype Option<+T> = None | Some(value: T) {

    /** The present value, or `default` when absent (Python's `x if x is not None else default`). */
    function GetOr(default: T): T {
      match this
      case Some(v) => v
      case None => default
    }
  }

  /** Either a value, or the exception a Python call raised, carried as its message. */
  datatype Result<+T> = Ok(value: T) | Raised(msg: string) {

    predicate IsFailure() {
      Raised?
    }

    function PropagateFailure<U>(): Result<U>
      requires Raised?
    {
      Raised(msg)
    }

    function Extract(): T
      requires Ok?
    {
      value
    }
  }

  /** Some entry of the list is `None`. */
  predicate HasMissing<T>(xs: seq<Option<T>>) {
    exists i :: 0 <= i < |xs| && xs[i].None?
  }

  /** The values of a list none of whose entries is `None`. */
  function Present<T>(xs: seq<Option<T>>): (r: seq<T>)
    requires !HasMissing(xs)
    ensures |r| == |xs|
    ensures forall i :: 0 <= i < |xs| ==> xs[i] == Some(r[i])
  {
    seq(|xs|, i requires 0 <= i < |xs| => xs[i].value)
  }
}
