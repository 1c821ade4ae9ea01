/** Option and Result values for the optional fields and the error paths of the model. */
module Wrappers {

  datatype Option<+T> = None | Some(value: T)

  /** `Failure` carries the message of the exception the source raises. */
  datatype Result<+R> = Success(value: R) | Failure(error: string)
}
