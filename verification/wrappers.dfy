/** Failure-compatible wrappers used throughout the model: `Option` stands for a
    C#/TypeScript value that may be null or absent, `Result` for an operation
    that either returns a value or throws. */
module Wrappers {

  datatype Option<+T> = None | Some(value: T)

  datatype Result<+T, +E> = Success(value: T) | Failure(error: E)
}
