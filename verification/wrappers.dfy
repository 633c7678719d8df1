/** Option and Result: the two shapes the services return instead of `null`
    and thrown errors. */
module Wrappers {

  /** A value that may be absent (`undefined`/`null` in the system). */
  datatype Option<+T> = None | Some(value: T) {

    /** The value, or `default` when absent (the `??` operator). */
    function GetOr(default: T): T {
      match this
      case Some(v) => v
      case None => default
    }
  }

  /** The outcome of a service call: a value, or the error it throws. */
  datatype Result<+T, +E> = Ok(value: T) | Err(error: E)
}
