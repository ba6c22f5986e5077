/** Option and Result, the two failure-carrying datatypes the rest of the model returns. */
module Wrappers {

  /** A value that may be absent: a SQL NULL, a JSON field that is not there, a lookup that found nothing. */
  datatype Option<+T> = None | Some(value: T)

  /** Either the value an operation produced or the error it reported. */
  datatype Result<+R, +E> = Success(value: R) | Failure(error: E)
}
