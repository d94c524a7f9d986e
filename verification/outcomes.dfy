/** Option, the request outcome and the error taxonomy shared by every handler. */
module Outcomes {

  datatype Option<T> = None | Some(value: T) {
    /** The wrapped value, or `default` when there is none. */
    function GetOr(default: T): T {
      match this
      case Some(v) => v
      case None => default
    }
  }

  /** Why a request failed; each alternative is one HTTP status of the service. */
  datatype Error =
    | Unauthorized(detail: string)     // 401
    | Forbidden(detail: string)        // 403
    | NotFound(detail: string)         // 404
    | BadRequest(detail: string)       // 400
    | IntegrityError(column: string)   // a unique column rejected the commit; no handler catches it

  datatype Result<T> = Ok(value: T) | Err(error: Error)
}
