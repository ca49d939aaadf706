/** Failure-carrying values shared by every module of the model. */
module Wrappers {

  /** A value that may be missing: Python's `None` versus a present value. */
  datatype Option<+T> = None | Some(value: T) {

    /** The value, or `default` when it is missing (`d.get(key, default)`). */
    function GetOr(default: T): T {
      match this
      case Some(v) => v
      case None => default
    }
  }

  /** The outcome of a call that may raise: a returned value or the exception raised. */
  datatype Result<+T, +E> = Ok(value: T) | Err(error: E)
}
