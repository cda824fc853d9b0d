/** Failure-compatible wrappers: a nullable Java reference becomes an Option,
    a call that can throw becomes a Result. */
module Wrappers {

  datatype Option<+T> = None | Some(value: T)

  datatype Result<+R, +E> = Success(value: R) | Failure(error: E)
}
