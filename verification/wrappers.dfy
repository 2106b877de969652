/** Failure-compatible carriers used throughout the model: `Option` for the
    source's `None` returns and `Result` for the exceptions it raises. */
module Wrappers {

  datatype Option<+T> = None | Some(value: T)

  datatype Result<+R, +E> = Success(value: R) | Failure(error: E)
}
