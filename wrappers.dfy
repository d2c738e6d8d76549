/** Optional values and pass/fail outcomes used across the model. */
module Wrappers {

  /** A value that may be absent; stands for Kotlin's nullable types. */
  datatype Option<+T> = None | Some(value: T)

  /** The outcome of an operation that returns nothing but may fail. */
  datatype Outcome<+E> = Pass | Fail(error: E)
}
