/** Option and Result, the two failure-carrying shapes the rest of the model uses. */
module Wrappers {

  datatype Option<+T> = None | Some(value: T)

  /** `Ok` carries a computed value; `Err` carries the reason a step gave up. */
  datatype Result<+T, +E> = Ok(value: T) | Err(error: E)
}
