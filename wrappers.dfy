/** Result types shared by the models. */
module Wrappers {

  /** A value that may be absent; `None` stands for Python's `None` and Java's `null`. */
  datatype Option<+T> = None | Some(value: T)

  /** The outcome of an operation that either succeeds or fails with an error value. */
  datatype Outcome<+E> = Pass | Fail(error: E)
}
