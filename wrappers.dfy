/** Optional values and results with an error, used for the C# null, for
    "no command this tick" and for the exception the label conversion can raise. */
module Wrappers {

  datatype Option<T> = None | Some(value: T)

  datatype Result<T, E> = Success(value: T) | Failure(error: E)
}
