/** Failure-carrying result types shared by the whole model. */
module Wrappers {

  /** A value that may be missing: an `os.Stat` that failed, a regex that did not match. */
  datatype Option<+T> = None | Some(value: T)

  /** The outcome of an operation that may stop the program with `log.Fatal`. */
  datatype Result<+T, +E> = Success(value: T) | Failure(error: E)
}
