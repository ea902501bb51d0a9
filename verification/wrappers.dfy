/** Failure-carrying datatypes used across the model: `Option` for Go's
    "value or nil" and "comma-ok" results, `Result` for a decoder that either
    yields a value or an error message. */
module Wrappers {

  datatype Option<+T> = None | Some(value: T) {

    /** The value, or `default` when there is none. */
    function GetOr(default: T): T {
      match this
      case Some(v) => v
      case None => default
    }
  }

  /** Outcome of a partial decoder (JSON unmarshalling in the source). */
  datatype Result<+T> = Ok(value: T) | Fail(message: string)
}
