/** Failure-compatible wrappers used across the model: `Option` for Go's
    `(value, ok)` pairs and `Result` for Go's `(value, error)` pairs. */
module Wrappers {

  datatype Option<+T> = None | Some(value: T)

  /** A Go `(value, error)` return: `Failure` carries the text of `err.Error()`. */
  datatype Result<+R, +E> = Success(value: R) | Failure(error: E)
}
