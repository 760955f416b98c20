/** The two failure-carrying datatypes used across the model. */
module Wrappers {

  datatype Option<+T> = None | Some(value: T)

  /** What a Python call leaves behind: a value, or an exception with its text. */
  datatype Result<+T> = Ok(value: T) | Err(error: string)
}
