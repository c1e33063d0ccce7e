/** Failure-carrying values shared by every stage of the data pipeline. */
module Wrappers {

  /** A cell or lookup that may be absent (pandas' NaN / None). */
  datatype Option<+T> = None | Some(value: T)

  /** The outcome of an operation that may raise. */
  datatype Result<+R, +E> = Success(value: R) | Failure(error: E)
}
