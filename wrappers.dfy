/** Option, Result and Outcome values used in place of the C++ library's
    std::optional and its exceptions. */
module Wrappers {

  datatype Option<+T> = None | Some(value: T)

  datatype Result<+R, +E> = Ok(value: R) | Err(error: E)

  /** The outcome of a mutator that returns nothing on success. */
  datatype Outcome<+E> = Pass | Fail(error: E)
}
