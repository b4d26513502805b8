/** Optional values and results shared by the modules of the model. */
module Wrappers {

  /** A value that may be absent (Python's `None`, pandas' `NaN`/`NaT`). */
  datatype Option<+T> = None | Some(value: T)

  /** The outcome of a step that may raise instead of returning. */
  datatype Result<+R, +E> = Ok(value: R) | Err(error: E)
}
