/** Option and Result, the two failure-carrying shapes the model uses for
    Rust's `Option`/`Result` and for Python exceptions. */
module Wrappers {

  /** A value that may be missing (`None` in Rust and Python). */
  datatype Option<+T> = None | Some(value: T) {

    /** The value if present, else `default` (Rust's `unwrap_or`). */
    function GetOr(default: T): T {
      match this
      case Some(v) => v
      case None => default
    }
  }

  /** Either a value or an error. */
  datatype Result<+T, +E> = Ok(value: T) | Err(error: E)
}
