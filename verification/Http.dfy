/** The status codes with which handlers answer. */
module Http {
  const OK := 200
  const CREATED := 201
  const BAD_REQUEST := 400
  const UNAUTHORIZED := 401
  const NOT_FOUND := 404
  const CONFLICT := 409
  const INTERNAL_ERROR := 500
}
