/** Optional values and results with an error, standing for Java's nullable
    references and for the exceptions the gateway catches. */
module Wrappers {

  datatype Option<+T> = None | Some(value: T)

  datatype Result<+T, +E> = Success(value: T) | Failure(error: E)
}
