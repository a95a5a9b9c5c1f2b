/** An optional value and a value-or-error. */
module Wrappers {

  /** An optional value; `None` stands for JavaScript's `undefined`/`null`. */
  datatype Option<+T> = None | Some(value: T) {

    /** The wrapped value, or `default` when there is none (JavaScript's `??`). */
    function GetOr(default: T): T {
      match this
      case Some(v) => v
      case None => default
    }
  }

  /** The outcome of an operation that may throw: a value, or the error it raised. */
  datatype Result<+R, +E> = Success(value: R) | Failure(error: E)
}
