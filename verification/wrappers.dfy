/** Failure-carrying result types shared by the store and the dialogue model. */
module Wrappers {

  /** A value that may be absent; stands for Python's `Optional[T]` (None or a value). */
  datatype Option<+T> = None | Some(value: T)

  /** The outcome of an operation that can refuse its input; `Err` stands for a raised `ValueError`. */
  datatype Result<+T, +E> = Ok(value: T) | Err(error: E)
}
