/** Optional values and error-carrying results, used for the absent fields of a
    request body and for the error path of an operation. */
module Wrappers {

  datatype Option<+T> = None | Some(value: T)

  datatype Result<+R, +E> = Success(value: R) | Failure(error: E)
}
