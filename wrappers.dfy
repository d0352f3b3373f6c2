/** Optional values and results shared by every module of the model. */
module Wrappers {

  /** A value that may be absent: JavaScript's `undefined`/`null`, SQL's NULL, a missing row. */
  datatype Option<+T> = None | Some(value: T) {
    function GetOr(default: T): T {
      match this
      case Some(v) => v
      case None => default
    }
  }

  /** The outcome of a route handler: a value, or the `500` branch of its `catch`. */
  datatype Result<+T> = Ok(value: T) | ServerError
}
