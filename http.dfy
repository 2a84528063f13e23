/** The response a controller sends and the identity attached to a request.
    Express, `sendSuccess` and `sendError` are not part of this model: a response
    is its status code, its message and its payload. */
module Http {
  import opened Wrappers

  datatype Response<+T> = Response(status: nat, message: string, data: Option<T>)

  /** The claims of a session token, which `authenticateToken` attaches to the
      request as `req.user` and which `generateToken` signs at login. */
  datatype Claims = Claims(id: nat, roleId: int, roleName: string, username: string)
}
