/** Shared result types: Go's `(value, error)` pairs become an optional
    error next to the value, or a `Result` when the value only exists on
    success. */
module Base {

  /** Go's nilable values: `None` plays the role of `nil`. */
  datatype Option<+T> = None | Some(value: T)

  /** The error values the client can hand back to its callers. */
  datatype Error =
    | ParameterError            // discovery_client.go `paramError`
    | DataEmpty                 // a read answered with an empty body
    | TransportError(reason: string)
    | MarshalError(reason: string)
    | DecodeError(reason: string)

  /** A value produced on success, or the error that stopped it. */
  datatype Result<+T> = Ok(value: T) | Err(error: Error) {

    /** The error half of the result, as Go's `err` return would show it. */
    function ErrorOf(): Option<Error> {
      match this
      case Ok(_) => None
      case Err(e) => Some(e)
    }
  }
}
