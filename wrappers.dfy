// Option and Result types shared by the whole model: the source's nulls,
// exceptions and error returns become values of these types.
module Wrappers {

  datatype Option<T> = None | Some(value: T)

  /** The outcome of an operation that either yields a value or throws. */
  datatype Result<T, E> = Ok(value: T) | Err(error: E)

  /** The outcome of an operation that returns nothing or throws. */
  datatype Outcome<E> = Pass | Fail(error: E)
}
