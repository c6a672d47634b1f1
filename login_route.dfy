/**
 * `POST /api/auth/login`: check an email and password against the user
 * table and open a session. The handler only reads.
 *
 * `compare` is bcrypt's `compare(password, hash)`.
 */
module LoginRoute {
  import opened Wrappers
  import opened ApiTypes
  import opened Auth
  import opened Database
  import opened RegisterRoute

  const InvalidCredentials: string := "Invalid credentials"

  /** The reply to a login request at time `now`. */
  function LoginReply(users: seq<User>, lib: JwtLibrary, now: int, compare: (string, string) -> bool,
                      email: Option<string>, password: Option<string>): (r: Reply<AuthData>)
    ensures Answered(r, {400, 401})
    ensures r.body.success ==> email.Some? && r.body.data.Some? && r.body.data.value.user.email == email.value
  {
    if !Given(email) || !Given(password) then Fail(400, "Email and password are required")
    else match FindByEmail(users, email.value)
      case None => Fail(401, InvalidCredentials)
      case Some(row) =>
        if !compare(password.value, row.password) then Fail(401, InvalidCredentials)
        else
          var user := PublicUser(row);
          Ok(Some(AuthData(user, GenerateToken(lib, user, now))), Some("Login successful"))
  }

  // ------------------------------------------------------------ lemmas

  /** An unknown email and a wrong password get the very same answer. */
  lemma LoginFailuresLookAlike(users: seq<User>, lib: JwtLibrary, now: int, compare: (string, string) -> bool,
                               email: string, password: string)
    requires UniqueAccounts(users)
    requires email != "" && password != ""
    requires forall u :: u in users && u.email == email ==> !compare(password, u.password)
    ensures LoginReply(users, lib, now, compare, Some(email), Some(password)) == Fail(401, "Invalid credentials")
  {
  }

  /**
   * A login succeeds exactly when an account has that email and the password
   * compares true against its stored hash; it answers with that account,
   * without its hash, and a token issued for it.
   */
  lemma LoginSucceedsIff(users: seq<User>, lib: JwtLibrary, now: int, compare: (string, string) -> bool,
                         email: string, password: string, u: User)
    requires UniqueAccounts(users)
    requires email != "" && password != ""
    requires u in users && u.email == email
    ensures var r := LoginReply(users, lib, now, compare, Some(email), Some(password));
      && (r.body.success <==> compare(password, u.password))
      && (r.body.success ==> r == Ok(Some(AuthData(PublicUser(u), GenerateToken(lib, PublicUser(u), now))), Some("Login successful")))
  {
    var found := FindByEmail(users, email).value;
    var a :| 0 <= a < |users| && users[a] == u;
    var b :| 0 <= b < |users| && users[b] == found;
    EmailIdentifiesAccount(users, a, b);
  }

  /** A login without an email or without a password is a 400. */
  lemma LoginRequiresBoth(users: seq<User>, lib: JwtLibrary, now: int, compare: (string, string) -> bool,
                          email: Option<string>, password: Option<string>)
    requires !Given(email) || !Given(password)
    ensures LoginReply(users, lib, now, compare, email, password) == Fail(400, "Email and password are required")
  {
  }

  /**
   * Registering and then logging in with the same email and password, when
   * bcrypt accepts the password against its hash, gives back the new account.
   */
  lemma RegisterThenLogin(t: Tables, lib: JwtLibrary, now: int, later: int, compare: (string, string) -> bool,
                          email: string, username: string, displayName: string, password: string,
                          bio: Option<string>, hashed: string)
    requires ValidTables(t)
    requires compare(password, hashed)
    requires RegisterOutcome(t, lib, now, Some(email), Some(username), Some(displayName), Some(password), bio, hashed).reply.body.success
    ensures var o := RegisterOutcome(t, lib, now, Some(email), Some(username), Some(displayName), Some(password), bio, hashed);
      var r := LoginReply(o.after.users, lib, later, compare, Some(email), Some(password));
      r.body.success && r.body.data.value.user == o.reply.body.data.value.user
  {
    var o := RegisterOutcome(t, lib, now, Some(email), Some(username), Some(displayName), Some(password), bio, hashed);
    RegisterKeepsValid(t, lib, now, Some(email), Some(username), Some(displayName), Some(password), bio, hashed);
    RegisterCreates(t, lib, now, Some(email), Some(username), Some(displayName), Some(password), bio, hashed);
    var row := o.after.users[|o.after.users| - 1];
    LoginSucceedsIff(o.after.users, lib, later, compare, email, password, row);
  }
}
