/** Option and Result datatypes shared by the model. */
module Wrappers {

  datatype Option<+T> = None | Some(value: T)

  /** The outcome of a request handler: a value on success, or the client error it reports. */
  datatype Result<+R, +E> = Success(value: R) | Failure(error: E)
}
