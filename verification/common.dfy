/** Shared vocabulary of the recipe store: the optional value, the error
    taxonomy of the API boundary and the reply every operation answers with. */
module Common {

  datatype Option<+T> = None | Some(value: T) {
    /** The value, or `default` when there is none. */
    function GetOr(default: T): T {
      match this
      case Some(v) => v
      case None => default
    }
  }

  /** The errors the API boundary reports. `Invalid` carries the set of
      field names its message map is keyed by. `ServerError` is an unhandled
      exception (an HTTP 500); only the as-written member of a finding
      produces it. */
  datatype Error =
    | NotAuthenticated
    | Forbidden
    | NotFound
    | AlreadyExists
    | SelfSubscription
    | Invalid(fields: set<string>)
    | ServerError

  /** What an endpoint answers: a body (200 or 201), no content (204), or an error. */
  datatype Reply<+T> = Ok(body: T) | NoContent | Failed(error: Error)

  /** HTTP request methods the API distinguishes. */
  datatype Method = GET | HEAD | OPTIONS | POST | PUT | PATCH | DELETE {
    /** The methods that never change state. */
    predicate IsSafe() {
      GET? || HEAD? || OPTIONS?
    }
  }
}
