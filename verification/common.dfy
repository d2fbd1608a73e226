/** Values shared by the back end and the client: optional values, the
    request's user claim, HTTP status codes and the pass mark. */
module Common {

  datatype Option<+T> = None | Some(value: T)

  /** The pass mark, in percent, used by the recommendation query, the admin
      assessment list and the platform statistics. */
  const PassThreshold: int := 70

  /** HTTP status codes the handlers answer with. */
  const OK: int := 200
  const Created: int := 201
  const BadRequest: int := 400
  const Unauthorized: int := 401
  const Forbidden: int := 403
  const NotFound: int := 404
  const Conflict: int := 409
  const ServerError: int := 500

  /** `req.user` as the authentication middleware leaves it: absent, or an
      object whose `id` may itself be absent. */
  datatype Claim = Claim(id: Option<int>)

  /** `req.user && req.user.id` in JavaScript: a user is attached and its id
      is truthy (0 is falsy). */
  predicate HasUserId(user: Option<Claim>)
  {
    user.Some? && user.value.id.Some? && user.value.id.value != 0
  }

  /** JavaScript truthiness of an optional string: present and non-empty. */
  predicate Truthy(v: Option<string>)
  {
    v.Some? && v.value != ""
  }
}
