/** Optional values and success-or-failure results, used for JavaScript's
    `undefined` fields and for promises that resolve or reject. */
module Wrappers {

  datatype Option<+T> = None | Some(value: T)

  datatype Result<+R, +E> = Success(value: R) | Failure(error: E)
}
