/** `Option`, `Result` and the HTTP error shared by the modules. */
module Wrappers {

  /** A value that may be missing: Python's `Optional[...]`. */
  datatype Option<T> = None | Some(value: T)

  /** The outcome of an operation that can fail with an error value. */
  datatype Result<T, E> = Success(value: T) | Failure(error: E)

  /** The only error the HTTP routes of the model answer with. */
  datatype HttpError = NotFound  // status 404
}
