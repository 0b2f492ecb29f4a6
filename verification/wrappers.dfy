/** Option and Result, the two failure-carrying datatypes the rest of the model uses
    for nil returns, thrown errors and traps, and the choice between a routine as
    the source writes it and as it is evidently meant. */
module Wrappers {

  /** A value that may be absent, as a Swift optional or a Python `None`. */
  datatype Option<+T> = None | Some(value: T) {

    /** The wrapped value, or `default` when there is none. */
    function GetOr(default: T): T
    {
      match this
      case Some(v) => v
      case None => default
    }
  }

  /** Either a value or the error that stopped the computation. */
  datatype Result<+T, +E> = Success(value: T) | Failure(error: E) {

    predicate IsFailure()
    {
      Failure?
    }

    function PropagateFailure<U>(): Result<U, E>
      requires Failure?
    {
      Failure(error)
    }

    function Extract(): T
      requires Success?
    {
      value
    }
  }

  /** Which version of a routine with a known defect a computation follows: the
      one the source writes, or the evidently intended one. */
  datatype Reading = AsWritten | Intended
}
