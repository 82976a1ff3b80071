/** Optional values and results with an error, used wherever the source has a
    Swift optional or an early-return error path. */
module Wrappers {

  datatype Option<+T> = None | Some(value: T)

  datatype Result<+T, +E> = Success(value: T) | Failure(error: E)
}
