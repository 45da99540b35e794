/** Failure-carrying wrappers shared by the configuration model. */
module Wrappers {

  /** An optional value: a lookup that may miss, a parse that may fail. */
  datatype Option<+T> = None | Some(value: T)

  /** A computation that yields a value or raises an error. */
  datatype Result<+R, +E> = Success(value: R) | Failure(error: E)
}
