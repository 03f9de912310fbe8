/** Optional values and results with an error, used wherever the Java code
    has a nullable reference or throws. */
module Wrappers {

  datatype Option<+T> = None | Some(value: T)

  datatype Result<+T, +E> = Success(value: T) | Failure(error: E)
}
