/** Option and Result, the two failure-carrying shapes the decoder returns
    (Rust's `Option<T>` and `Result<T, E>`). */
module Wrappers {

  /** An optional value: `None` or `Some(value)`. */
  datatype Option<+T> = None | Some(value: T)

  /** A computation that either produced a value or failed with an error. */
  datatype Result<+T, +E> = Ok(value: T) | Err(error: E)
}
