/** Small wrappers shared by every module of the model. */
module Common {

  /** A value that may be missing: an absent JSON field, a NULL column, a `null` return. */
  datatype Option<+T> = None | Some(value: T)

  /** A service call's `{success, ...}` envelope: the payload, or the failure message. */
  datatype Result<+T> = Success(value: T) | Failure(message: string)

  /**
   * The reply of a request handler: the success payload, or one of the error
   * kinds the handlers answer with (HTTP 400, 404, 403 and 500), each with
   * the message the handler sends.
   */
  datatype Outcome<+T> =
    | Ok(value: T)
    | BadRequest(message: string)
    | NotFound(message: string)
    | Forbidden(message: string)
    | ServerError(message: string)

  function Min(a: int, b: int): int { if a <= b then a else b }
}
