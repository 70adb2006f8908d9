/** Optional values and results with an error, used for the store's "row or null"
    and for calls that throw. */
module Wrappers {

  datatype Option<+T> = None | Some(value: T)

  datatype Result<+R, +E> = Success(value: R) | Failure(error: E)
}
