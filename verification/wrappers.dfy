/** Failure-carrying results: the model's replacement for `log.Fatal` and `panic`. */
module Wrappers {

  /** Either the value an operation produced or the error that would have ended the process. */
  datatype Result<+T, +E> = Success(value: T) | Failure(error: E)
}
