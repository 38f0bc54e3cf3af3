/** Optional values and results with an error, used wherever the source has
    `undefined`, a thrown exception or a rejected promise. */
module Wrappers {

  datatype Option<+T> = None | Some(value: T)

  datatype Result<+T, +E> = Success(value: T) | Failure(error: E)
}
