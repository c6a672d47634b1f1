/**
 * The shapes shared by the handlers and the client: the authenticated user,
 * the `ApiResponse` envelope and an HTTP reply carrying it.
 * Record ids are the database's string ids; here they are natural numbers
 * handed out in creation order.
 */
module ApiTypes {
  import opened Wrappers

  type Id = nat

  /** `AuthUser`: who a request acts for, as the token or the login reply describes it. */
  datatype AuthUser = AuthUser(
    id: Id,
    email: string,
    username: string,
    displayName: string,
    bio: Option<string>,
    avatar: Option<string>)

  /** The `data` of a successful login or registration: `{ user, token }`. */
  datatype AuthData = AuthData(user: AuthUser, token: string)

  /** `ApiResponse<T>`: an absent optional member is `None`. */
  datatype ApiResponse<T> = ApiResponse(success: bool, data: Option<T>, error: Option<string>, message: Option<string>)

  /** A handler's answer: the HTTP status and the JSON body. */
  datatype Reply<T> = Reply(status: nat, body: ApiResponse<T>)

  /** `NextResponse.json({ success: false, error }, { status })`. */
  function Fail<T>(status: nat, error: string): (r: Reply<T>)
    ensures !r.body.success && r.body.error == Some(error) && r.status == status
    ensures r.body.data.None? && r.body.message.None?
  {
    Reply(status, ApiResponse(false, None, Some(error), None))
  }

  /**
   * A reply in the handlers' envelope: a success has status 200 and no
   * error; a failure carries an error message and one of the statuses `codes`.
   */
  predicate Answered<T>(r: Reply<T>, codes: set<nat>) {
    if r.body.success then r.status == 200 && r.body.error.None?
    else r.status in codes && r.body.error.Some?
  }

  /** `NextResponse.json({ success: true, data?, message? })` with the default status 200. */
  function Ok<T>(data: Option<T>, message: Option<string>): (r: Reply<T>)
    ensures r.body.success && r.status == 200 && r.body.error.None?
    ensures r.body.data == data && r.body.message == message
  {
    Reply(200, ApiResponse(true, data, None, message))
  }
}
