// Option and Result: every value the Java code may leave null, and every
// exception it may throw, is made explicit with one of these.
module Wrappers {
  datatype Option<T> = None | Some(value: T)

  datatype Result<T, E> = Ok(value: T) | Err(error: E)
  {
    predicate IsOk() { Ok? }
  }
}
