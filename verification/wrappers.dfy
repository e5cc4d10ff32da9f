/** Option and Result, the two wrappers the model uses for missing cells and for failures. */
module Wrappers {

  /** A cell that may be missing; `None` stands for pandas' NaN. */
  datatype Option<+T> = None | Some(value: T)

  /** The outcome of a page computation that can stop with an error message. */
  datatype Result<+R, +E> = Success(value: R) | Failure(error: E)
}
