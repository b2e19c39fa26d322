/** Rust's `Option` and `Result`, as the license resolver uses them. */
module Wrappers {

  /** An optional value: a manifest field that may be absent. */
  datatype Option<+T> = None | Some(value: T)

  /** The outcome of a fallible operation: a value, or an error. */
  datatype Result<+T, +E> = Ok(value: T) | Err(error: E)
}
