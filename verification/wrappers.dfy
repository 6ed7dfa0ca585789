/** Option and Result types shared by every module of the model. */
module Wrappers {
  datatype Option<+T> = None | Some(value: T)

  datatype Result<+T, +E> = Ok(value: T) | Err(error: E)

  /** What becomes of a call. `Refused`: not carried out. `Lost`: carried out, but the caller sees an error. */
  datatype Reply = Done | Refused | Lost
}
