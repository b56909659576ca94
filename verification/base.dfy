/** Shared vocabulary of the model: row identifiers, instants, optional
    request fields and the response a controller action sends back. */
module Base {

  /** Row identifiers: every table numbers its rows from 1. */
  type Id = n: int | n >= 1 witness 1

  /** Instants, in milliseconds since the epoch, as JavaScript dates hold them. */
  type Time = int

  /** A field of a request body or query string that may be absent. */
  datatype Option<T> = None | Some(value: T) {
    function GetOr(default: T): T {
      match this
      case Some(v) => v
      case None => default
    }
  }

  /** What an action answers: a success status with its JSON body, or an
      error status with the `error` message of its JSON body. */
  datatype Response<T> = Ok(status: int, body: T) | Err(status: int, error: string)

  const Success := 200
  const Created := 201
  const BadRequest := 400
  const Unauthorized := 401

  /** JavaScript truthiness of an optional string field: present and not empty. */
  predicate Truthy(s: Option<string>) {
    s.Some? && s.value != ""
  }
}
