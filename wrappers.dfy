/** Option and Result, the two shapes every fallible operation of the model returns. */
module Wrappers {
  datatype Option<T> = None | Some(value: T) {
    /** Rust's `unwrap_or` and JavaScript's `?? fallback` on a missing value. */
    function GetOr(default: T): T {
      match this
      case Some(v) => v
      case None => default
    }
  }

  datatype Result<T, E> = Ok(value: T) | Err(error: E)
}
