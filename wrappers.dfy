/** Optional values and results with an error, for form fields that may be
    missing and for operations that fail with a message. */
module Wrappers {

  datatype Option<+T> = None | Some(value: T)

  datatype Result<+T, +E> = Success(value: T) | Failure(error: E)
}
