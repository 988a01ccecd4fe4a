/** Option and Result, the failure-compatible wrappers used across the model. */
module Wrappers {

  /** A value that may be absent: JavaScript's `undefined`/`null`. */
  datatype Option<+T> = None | Some(value: T) {
    /** The value, or `default` when absent (JavaScript's `??`). */
    function GetOr(default: T): T {
      match this
      case Some(v) => v
      case None => default
    }
  }

  /** The outcome of an operation that can throw. */
  datatype Result<+T, +E> = Success(value: T) | Failure(error: E)
}
