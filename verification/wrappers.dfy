/** Optional values (Java's nullable references) and success-or-error results
    (a value returned, or an exception thrown). */
module Wrappers {

  /** A Java reference that may be null: `None` stands for null. */
  datatype Option<+T> = None | Some(value: T)

  /** The outcome of a call: the returned value, or the exception it threw. */
  datatype Result<+T, +E> = Ok(value: T) | Err(error: E)
}
