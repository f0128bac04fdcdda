/** Option and Result values shared by every module of the model. */
module Wrappers {

  datatype Option<+T> = None | Some(value: T)

  /** The outcome of an operation that the source lets fail by raising or throwing. */
  datatype Result<+R, +E> = Ok(value: R) | Err(error: E)
}
