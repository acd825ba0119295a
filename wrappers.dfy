/** Option and Result, as the engine uses Rust's `Option` and `Result<T, String>`. */
module Wrappers {

  datatype Option<+T> = None | Some(value: T) {
    /** The value, or `default` when there is none (Rust's `unwrap_or`). */
    function GetOr(default: T): T {
      match this
      case Some(v) => v
      case None => default
    }
  }

  /** Every error of the engine is a human-readable message. */
  datatype Result<+T> = Ok(value: T) | Err(error: string)
}
