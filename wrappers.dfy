/** Option and Result, used for lookups that may miss and for the resolver's error exit. */
module Wrappers {

  datatype Option<+T> = None | Some(value: T)

  datatype Result<+R, +E> = Success(value: R) | Failure(error: E)
}
