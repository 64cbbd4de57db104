/** Option and Result, the two failure-carrying shapes the launcher's
    decisions return instead of raising or showing an error dialog. */
module Wrappers {

  datatype Option<+T> = None | Some(value: T)

  datatype Result<+R, +E> = Success(value: R) | Failure(error: E)
}
