/** Failure-compatible wrappers: `Option` for JavaScript's `null`/`undefined`-or-value,
    `Result` for a computation that may throw. */
module Wrappers {

  datatype Option<+T> = None | Some(value: T)

  datatype Result<+R, +E> = Ok(value: R) | Err(error: E)
}
