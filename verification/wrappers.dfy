/** Failure-carrying values used where the C code returns NULL, an error code,
    or runs into undefined behaviour. */
module Wrappers {

  /** A value that may be absent (a NULL pointer, a failed solve). */
  datatype Option<T> = None | Some(value: T)

  /** A value, or the reason it could not be computed. */
  datatype Result<T, E> = Ok(value: T) | Err(error: E)
}
