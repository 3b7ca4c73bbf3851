/** Optional values and results with an error, used for the library's
    optional arguments and for the errors it throws. */
module Wrappers {

  /** A value that may be absent (an omitted option or argument). */
  datatype Option<+T> = None | Some(value: T)

  /** Either a returned value or the error that the call throws. */
  datatype Result<+R, +E> = Success(value: R) | Failure(error: E)
}
