/** The Option and Result shapes shared by every module of the model. */
module Wrappers {

  datatype Option<+T> = None | Some(value: T)

  /** A computed value, or the ValueError the source raises instead. */
  datatype Result<+T> = Ok(value: T) | Raised
}
