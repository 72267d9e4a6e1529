/** Small failure-carrying datatypes shared by every module of the model. */
module Wrappers {

  /** A value that may be absent: a nullable request field, a nullable column. */
  datatype Option<+T> = None | Some(value: T)

  /** The outcome of a controller action: the created or updated thing, or an error. */
  datatype Result<+T, +E> = Ok(value: T) | Err(error: E)
}
