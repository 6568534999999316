/** A cell that may be missing (pandas' NaN), and a run that may fail. */
module Wrappers {

  datatype Option<+T> = None | Some(value: T)

  /** The outcome of a run that may stop with an exception. */
  datatype Result<+R, +E> = Success(value: R) | Failure(error: E)
}
