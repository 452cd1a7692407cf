/** Failure-carrying values: Rust's `Option` and `Result`. */
module Outcomes {

  /** A value that may be absent; the result of Rust's `checked_*` operations. */
  datatype Option<+T> = None | Some(value: T)

  /** Either a value or the error that stopped the computation. */
  datatype Result<+T, +E> = Ok(value: T) | Err(error: E)
}
