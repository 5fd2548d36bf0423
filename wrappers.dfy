/** Optional values and results with an error, used for the nullable fields of
    a goal and for the failures the goal store reports. */
module Wrappers {

  /** `None` stands for a JavaScript `undefined`/`null` field, `Some(v)` for a present one. */
  datatype Option<+T> = None | Some(value: T)

  /** The outcome of an operation that either returns a value or throws. */
  datatype Result<+T, +E> = Ok(value: T) | Err(error: E)
}
