/** What a route handler answers: a JSON body with a status code, or `{ error }` with a status code. */
module Http {

  datatype Reply<+T> = Ok(status: nat, body: T) | Err(status: nat, error: string)

  const OK: nat := 200
  const CREATED: nat := 201
  const BAD_REQUEST: nat := 400
  const UNAUTHORIZED: nat := 401
  const NOT_FOUND: nat := 404
  const SERVER_ERROR: nat := 500
}
