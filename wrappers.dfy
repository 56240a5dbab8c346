/** Option and Result values, standing in for the sentinel returns and exceptions of the programs. */
module Wrappers {

  datatype Option<+T> = None | Some(value: T)

  datatype Result<+R, +E> = Success(value: R) | Failure(error: E)
}
