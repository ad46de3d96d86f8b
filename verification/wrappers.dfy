/** Failure-carrying result types shared by the pipeline stages. */
module Wrappers {

  /** A value that may be absent: a failed parse, a missing list slot. */
  datatype Option<+T> = None | Some(value: T)

  /** The outcome of a stage that may raise: the value, or the error it raises. */
  datatype Result<+R, +E> = Success(value: R) | Failure(error: E)
}
