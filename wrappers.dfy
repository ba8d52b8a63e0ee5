/** Failure-carrying values used where the Python code returns None or raises. */
module Wrappers {

  /** Python's `Optional[T]`: a value or None. */
  datatype Option<+T> = None | Some(value: T)

  /** The outcome of an operation that either completes or raises an error. */
  datatype Outcome<+E> = Pass | Fail(error: E)
}
