/** Small value types shared by the modules of this model. */
module Basics {
  datatype Option<T> = None | Some(value: T)

  /** A computation that produced a value or raised an exception with its message. */
  datatype Result<T> = Ok(value: T) | Raised(message: string)
}
