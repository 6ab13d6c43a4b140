/** The two outcome types the models share: a JavaScript `T | undefined` (or `null`)
    is an `Option<T>`, and a function that may throw returns a `Result<T, E>`. */
module Wrappers {

  datatype Option<+T> = None | Some(value: T)

  datatype Result<+T, +E> = Success(value: T) | Failure(error: E)
}
