/** Option and Result, used for Ruby's `nil` and for raised exceptions. */
module Wrappers {

  datatype Option<+T> = None | Some(value: T)

  /** `Err` stands for an exception the Ruby code raises. */
  datatype Result<+R, +E> = Ok(value: R) | Err(error: E)
}
