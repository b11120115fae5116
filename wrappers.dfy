/** Failure-carrying wrappers shared by the other modules. */
module Wrappers {

  /** A value that may be absent: JavaScript's `undefined` for an optional field. */
  datatype Option<T> = None | Some(value: T)

  /** The outcome of an operation that JavaScript code could abandon by throwing. */
  datatype Result<T, E> = Ok(value: T) | Err(error: E)
}
