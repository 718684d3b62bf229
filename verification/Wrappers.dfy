/** The two failure-compatible datatypes the other modules use. */
module Wrappers {
  datatype Option<+T> = None | Some(value: T)

  /** The first value that is there. */
  function OrElse<T>(value: Option<T>, otherwise: Option<T>): Option<T> {
    if value.Some? then value else otherwise
  }

  datatype Result<+T, +E> = Ok(value: T) | Err(error: E)
}
