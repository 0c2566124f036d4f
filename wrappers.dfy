/** Failure-carrying values: an absent value, and the outcome of an operation that may raise. */
module Wrappers {

  datatype Option<+T> = None | Some(value: T) {

    /** The value, or the given default when there is none (Ruby's `x || default` on nil). */
    function GetOr(default: T): T
    {
      if Some? then value else default
    }
  }

  /** Success carries the value computed; Failure carries the exception that was raised. */
  datatype Result<+R, +E> = Success(value: R) | Failure(error: E)
}
