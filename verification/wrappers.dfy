/** Failure-carrying datatypes shared by every handler of the model. */
module Wrappers {

  /** An optional value: a JSON field that may be absent, or a reference that may not resolve. */
  datatype Option<+T> = None | Some(value: T)

  /** The HTTP status classes the controllers answer with when they refuse a request. */
  datatype Status = BadRequest | Unauthorized | Forbidden | NotFound | TooManyRequests | InternalError
  {
    function Code(): nat
    {
      match this
      case BadRequest => 400
      case Unauthorized => 401
      case Forbidden => 403
      case NotFound => 404
      case TooManyRequests => 429
      case InternalError => 500
    }
  }

  /** The messages several controllers answer with. */
  const UserNotFoundMsg := "User not found"
  const GroupNotFoundMsg := "Group not found"
  const InternalErrorMsg := "Internal Server Error"

  /** A handler's outcome: the new value on success, or the status and message it answers with. */
  datatype Result<+T> = Ok(value: T) | Err(status: Status, message: string)

  /** JavaScript truthiness of an optional string: present and not empty. */
  predicate Present(s: Option<string>)
  {
    s.Some? && s.value != ""
  }

  /** `s || fallback` for an optional string. */
  function OrElse(s: Option<string>, fallback: string): string
  {
    if Present(s) then s.value else fallback
  }
}
