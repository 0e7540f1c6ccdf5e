/** Option and Result wrappers shared by the other modules. */
module Wrappers {

  datatype Option<T> = None | Some(value: T)

  /** The outcome of a step that may raise: its value, or the exception it raised. */
  datatype Result<T, E> = Ok(value: T) | Err(error: E)
}
