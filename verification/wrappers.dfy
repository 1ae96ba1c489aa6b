/** Option and Result, the two failure-carrying shapes the model needs. */
module Wrappers {

  /** Rust's Option: Some(value) or None. */
  datatype Option<+T> = None | Some(value: T)

  /** Rust's Result: Ok(value) or Err(error). */
  datatype Result<+T, +E> = Ok(value: T) | Err(error: E)
}
