/**
 * What travels between the browser and the server: optional values, the
 * members of a JSON request body, and the HTTP status codes the handlers use.
 */
module Wire {

  datatype Option<T> = None | Some(value: T)

  /** A string member of a JSON request body as the handler finds it:
      absent (`undefined`), JSON `null`, or a string. */
  datatype Field = Missing | Null | Str(s: string)

  /** JavaScript truthiness of a body member: `undefined`, `null` and the
      empty string are falsy, every other string is truthy. */
  predicate Truthy(f: Field) {
    f.Str? && f.s != ""
  }

  const StatusOk := 200
  const StatusCreated := 201
  const StatusBadRequest := 400
  const StatusUnauthorized := 401
  const StatusForbidden := 403
  const StatusNotFound := 404
  const StatusServerError := 500

  /** `response.ok` in the Fetch API: a status in the 2xx range. */
  predicate IsOk(status: int) {
    200 <= status < 300
  }

  /** The statuses the client reads as a rejected or expired token. */
  predicate IsAuthFailure(status: int) {
    status == StatusUnauthorized || status == StatusForbidden
  }
}
