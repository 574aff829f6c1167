/** Option and Result, used for optional model fields and for validators that
    either return the cleaned value or the reason a field was rejected. */
module Wrappers {

  datatype Option<+T> = None | Some(value: T)

  datatype Result<+R, +E> = Success(value: R) | Failure(error: E)
}
