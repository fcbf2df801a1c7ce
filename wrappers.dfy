/** Option and Result, the two failure-carrying shapes the engine needs. */
module Wrappers {

  /** A field or lookup that may hold nothing (Rust's `Option`). */
  datatype Option<+T> = None | Some(value: T)

  /** A computation that either yields a value or stops with an error (Rust's `Result`). */
  datatype Result<+T, +E> = Ok(value: T) | Err(error: E)
}
