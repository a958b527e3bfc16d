/** Shared vocabulary of the gallery backend model: optional values, request
    outcomes and the identifiers of the three record kinds. */
module Common {

  datatype Option<T> = None | Some(value: T) {
    function GetOr(default: T): T {
      match this
      case Some(v) => v
      case None => default
    }
  }

  datatype Result<T, E> = Success(value: T) | Failure(error: E)

  /** MongoDB object ids. All three collections share one id space. */
  type UserId = nat
  type CollectionId = nat
  type ImageId = nat

  /** The HTTP status a handler answers with. */
  datatype Status = Ok | Created | BadRequest | Unauthorized | Forbidden | NotFound | ServerError
  {
    function Code(): (c: nat)
      ensures 200 <= c < 600
      ensures (c < 400) == (this == Ok || this == Created)
    {
      match this
      case Ok => 200
      case Created => 201
      case BadRequest => 400
      case Unauthorized => 401
      case Forbidden => 403
      case NotFound => 404
      case ServerError => 500
    }
  }

  /** A JavaScript string header or body field is "truthy" when present and non-empty. */
  predicate Truthy(s: Option<string>) {
    s.Some? && s.value != ""
  }
}
