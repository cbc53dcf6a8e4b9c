/** Option and Result: absent values and error outcomes, as plain datatypes. */
module Wrappers {

  /** A value that may be missing (a null `Ptr`, an unset pointer attribute). */
  datatype Option<+T> = None | Some(value: T)

  /** The outcome of an operation that may hit a fatal error. */
  datatype Result<+R> = Success(value: R) | Failure(error: string)
}
