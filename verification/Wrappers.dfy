// Optional values and results that carry an error, used throughout the model
// where the Go code returns a pointer, a NULL column or an error.
module Wrappers {
  datatype Option<+T> = None | Some(value: T)

  datatype Result<+T, +E> = Success(value: T) | Failure(error: E)
}
