/** Option and Result: the error paths of the modelled Python code (a raised
    exception becomes a Failure carrying a description of it). */
module Wrappers {

  datatype Option<+T> = None | Some(value: T)

  datatype Result<+R, +E> = Success(value: R) | Failure(error: E)
}
