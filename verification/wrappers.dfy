/** Failure-compatible wrappers used across the model: `Option` for values that
    may be absent (a `null` or `undefined` in the service code) and `Result` for
    operations that either produce a value or throw. */
module Wrappers {

  datatype Option<+T> = None | Some(value: T) {

    /** The wrapped value, or `default` when absent (the `??` operator). */
    function GetOr(default: T): T {
      match this
      case Some(v) => v
      case None => default
    }
  }

  datatype Result<+T, +E> = Success(value: T) | Failure(error: E)
}
