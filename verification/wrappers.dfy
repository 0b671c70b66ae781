/** The optional values and outcomes shared by the scraper model. */
module Wrappers {

  /** A value that may be absent: Python's `None` versus a present object. */
  datatype Option<+T> = None | Some(value: T)

  /** The outcome of a computation that can raise: a value or an exception. */
  datatype Result<+R, +E> = Success(value: R) | Failure(error: E)
}
