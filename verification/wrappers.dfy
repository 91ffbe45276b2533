/** Failure-carrying datatypes used throughout the model: `Option` for the
    JavaScript `undefined`/`null` cases and `Result` for thrown errors. */
module Wrappers {

  datatype Option<+T> = None | Some(value: T) {

    /** The value, or `default` when absent (JavaScript's `??`). */
    function GetOr(default: T): T {
      match this
      case Some(v) => v
      case None => default
    }
  }

  /** Either a value or the error a JavaScript function would have thrown. */
  datatype Result<+R, +E> = Success(value: R) | Failure(error: E)
}
