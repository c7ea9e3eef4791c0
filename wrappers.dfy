/** Option and Result values used in place of Kotlin's nullable results and thrown exceptions. */
module Wrappers {
  datatype Option<T> = None | Some(value: T)

  /** `Err` carries the message of the exception the Kotlin code would throw. */
  datatype Result<T> = Ok(value: T) | Err(error: string)
}
