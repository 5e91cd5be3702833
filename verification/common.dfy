/** Shared vocabulary: optional values, results, request bodies and validator outputs. */
module Common {

  /** A JavaScript value that may be `undefined`. */
  datatype Option<+T> = None | Some(value: T)

  /** Either the new document (or list) a route would save, or the error it answers with. */
  datatype Result<+T, +E> = Ok(value: T) | Err(error: E)

  /** Identity of an authenticated user (`req.user.id`) as a string. */
  type UserId = string

  /** A request body: field name to string value; a missing key is `undefined`. */
  type Bag = map<string, string>

  /** Field names mapped to human-readable messages, as every validator returns them. */
  type Errors = map<string, string>

  /** The `{ errors, isValid }` pair every validator returns. */
  datatype Validation = Validation(errors: Errors, isValid: bool)

  /** Reads `body.key`, which is `undefined` when the key is absent. */
  function Get(body: Bag, key: string): Option<string>
  {
    if key in body then Some(body[key]) else None
  }
}
