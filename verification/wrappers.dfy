/** Success/failure carriers used in place of Python's None returns and raised exceptions. */
module Wrappers {

  /** A value that may be absent: a failed regex search, a parse that raised, a missing key. */
  datatype Option<+T> = None | Some(value: T)

  /** The outcome of a pipeline stage: a value, or the error the stage raises. */
  datatype Result<+T, +E> = Success(value: T) | Failure(error: E)
}
