/** Option and Result, used for the router's "not there" cases and for the
    exceptions the lookup raises, which the model turns into values. */
module Wrappers {

  datatype Option<+T> = None | Some(value: T)

  datatype Result<+R, +E> = Success(value: R) | Failure(error: E)
}
