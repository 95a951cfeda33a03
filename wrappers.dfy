/** The optional value used for the global parameter slots, and the result of
    a sequence of steps any of which may abort the process. */
module Wrappers {

  datatype Option<T> = None | Some(value: T)

  datatype Result<T, E> = Success(value: T) | Failure(error: E)
}
