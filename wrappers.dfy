/** Result and Option values standing for Java's thrown exceptions and nullable fields. */
module Wrappers {

  datatype Option<+T> = None | Some(value: T)

  datatype Result<+T, +E> = Ok(value: T) | Err(error: E)
}
