/** The optional-value type used throughout the model for JavaScript's
    `undefined`/`null` versus a present value, and the outcome of an
    operation that can fail. */
module Wrappers {

  datatype Option<+T> = None | Some(value: T) {

    /** The wrapped value, or `default` when absent (JavaScript's `??`). */
    function GetOr(default: T): T {
      match this
      case Some(v) => v
      case None => default
    }

    /** This value when present, otherwise `other` (`??` between two optional values). */
    function OrElse(other: Option<T>): Option<T> {
      if this.Some? then this else other
    }
  }

  datatype Result<+T, +E> = Success(value: T) | Failure(error: E)
}
