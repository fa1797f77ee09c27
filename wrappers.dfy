/** Option and Result, the failure-carrying wrappers the rest of the model returns. */
module Wrappers {

  /** A value that may be absent: Python's `None` versus a present value. */
  datatype Option<+T> = None | Some(value: T)

  /** The outcome of a step that either yields a value or names why it gave up. */
  datatype Result<+T, +E> = Success(value: T) | Failure(error: E)
}
