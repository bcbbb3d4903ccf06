/** Option and Result values used across the model for Python's `None` and for
    exceptions that the source raises to its caller. */
module Wrappers {

  datatype Option<+T> = None | Some(value: T) {

    /** The wrapped value, or `default` for `None` (Python's `x or default` on optionals). */
    function GetOr(default: T): T {
      match this
      case Some(v) => v
      case None => default
    }
  }

  /** `Ok` carries the value a Python call returns; `Err` stands for the exception it raises. */
  datatype Result<+T, +E> = Ok(value: T) | Err(error: E) {

    /** The value, or `default` where the call raised (a `try`/`except` fallback). */
    function GetOr(default: T): T {
      match this
      case Ok(v) => v
      case Err(_) => default
    }
  }
}
