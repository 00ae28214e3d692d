/** Failure-carrying values used throughout the model: `Option` for Python
    values that may be `None` (or a parse that may fail) and `Result` for an
    operation that may raise an exception nobody catches. */
module Wrappers {

  datatype Option<+T> = None | Some(value: T) {

    /** The wrapped value, or `default` when there is none. */
    function GetOr(default: T): T {
      match this
      case Some(v) => v
      case None => default
    }
  }

  datatype Result<+T, +E> = Ok(value: T) | Err(error: E)
}
