/** Optional values and failure-carrying results, standing in for C# null
    references and for the exceptions a null dereference raises. */
module Wrappers {

  /** A value that may be absent, as a nullable host reference may be null. */
  datatype Option<+T> = None | Some(value: T)

  /** Either a value or the error that stopped the computation. */
  datatype Result<+R, +E> = Success(value: R) | Failure(error: E)
}
