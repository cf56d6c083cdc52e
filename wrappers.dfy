/** Optional values, and the JavaScript truthiness test the handlers apply to request fields. */
module Wrappers {

  /** A value that may be absent; `None` stands for JavaScript's `undefined`. */
  datatype Option<+T> = None | Some(value: T) {

    /** The value, or `default` when it is absent (JavaScript's `x || default` on a present value). */
    function GetOr(default: T): T {
      match this
      case Some(v) => v
      case None => default
    }
  }

  /** `!!field` for a string-valued request field: present and not the empty string. */
  predicate Truthy(field: Option<string>) {
    field.Some? && field.value != ""
  }

  /** `obj.key` on a JSON object with string fields: the field, or `undefined`. */
  function Lookup(obj: map<string, string>, key: string): Option<string> {
    if key in obj then Some(obj[key]) else None
  }

  /** `field || default` for a string-valued field. */
  function OrDefault(field: Option<string>, default: string): (r: string)
    ensures Truthy(field) ==> r == field.value
    ensures !Truthy(field) ==> r == default
  {
    if Truthy(field) then field.value else default
  }
}

/** The HTTP error responses the handlers send, and the result type of every handler. */
module Http {

  /** An error response: the status code is given by the constructor, the body by `message`. */
  datatype Error =
    | BadRequest(message: string)
    | Unauthorized(message: string)
    | Forbidden(message: string)
    | NotFound(message: string)
    | ServerError(message: string)
  {
    function Code(): (c: nat)
      ensures 400 <= c <= 500
    {
      match this
      case BadRequest(_) => 400
      case Unauthorized(_) => 401
      case Forbidden(_) => 403
      case NotFound(_) => 404
      case ServerError(_) => 500
    }
  }

  /** What a handler sends: a success body, or an error response. */
  datatype Result<+T> = Ok(value: T) | Err(error: Error)
}

/** The outcome of a Mongoose write (`save`, `create`). */
module Mongo {

  /** Why the store refused a write. */
  datatype SaveError =
    | ValidationFailed   // a schema validator failed
    | DuplicateKey       // a unique index was violated (Mongo error 11000)
    | DocumentNotFound   // save() of a document that is no longer stored

  datatype SaveResult<+T> = Saved(doc: T) | Refused(reason: SaveError)
}
