/**
 * `POST /api/auth/register`: create an account and open a session for it.
 *
 * The password hash is produced by bcrypt with a random salt; it is a
 * parameter (`hashed`) here. The token is signed at time `now`.
 */
module RegisterRoute {
  import opened Wrappers
  import opened ApiTypes
  import opened Auth
  import opened Database

  datatype Outcome = Outcome(reply: Reply<AuthData>, after: Tables)

  /** A body field that is present and not the empty string (truthy). */
  predicate Given(field: Option<string>) {
    field.Some? && field.value != ""
  }

  /** `findFirst({ where: { OR: [{ email }, { username }] } })` finds a row. */
  predicate Taken(users: seq<User>, email: string, username: string) {
    exists i | 0 <= i < |users| :: users[i].email == email || users[i].username == username
  }

  /** The stored bio: `bio || null`. */
  function StoredBio(bio: Option<string>): (b: Option<string>)
    ensures b.None? <==> !Given(bio)
    ensures b.Some? ==> b == bio
  {
    if Given(bio) then bio else None
  }

  /** The outcome of a registration request whose password bcrypt hashes to `hashed`. */
  function RegisterOutcome(t: Tables, lib: JwtLibrary, now: int,
                           email: Option<string>, username: Option<string>, displayName: Option<string>,
                           password: Option<string>, bio: Option<string>, hashed: string): (o: Outcome)
    ensures Answered(o.reply, {400, 409})
    ensures !o.reply.body.success ==> o.after == t
    ensures o.reply.body.success ==> |o.after.users| == |t.users| + 1 && o.after.posts == t.posts
  {
    if !Given(email) || !Given(username) || !Given(displayName) || !Given(password) then
      Outcome(Fail(400, "All fields are required"), t)
    else if Taken(t.users, email.value, username.value) then
      Outcome(Fail(409, "User with this email or username already exists"), t)
    else Registered(t, lib, now, User(t.nextId, email.value, username.value, displayName.value, hashed, StoredBio(bio), None))
  }

  /** What an accepted registration writes and answers: the new row, and the account without its hash plus a token for it. */
  function Registered(t: Tables, lib: JwtLibrary, now: int, row: User): Outcome {
    var user := PublicUser(row);
    Outcome(Ok(Some(AuthData(user, GenerateToken(lib, user, now))), Some("User registered successfully")),
            t.(users := t.users + [row], nextId := t.nextId + 1))
  }

  // ---------------------------------------------------------- handler

  method Register(db: Store, lib: JwtLibrary, now: int,
                  email: Option<string>, username: Option<string>, displayName: Option<string>,
                  password: Option<string>, bio: Option<string>, hashed: string)
    returns (reply: Reply<AuthData>)
    requires db.Valid()
    modifies db
    ensures db.Valid()
    ensures var o := RegisterOutcome(old(db.Contents()), lib, now, email, username, displayName, password, bio, hashed);
      reply == o.reply && db.Contents() == o.after
  {
    ghost var t := db.Contents();
    if !Given(email) || !Given(username) || !Given(displayName) || !Given(password) {
      return Fail(400, "All fields are required");
    }
    if Taken(db.users, email.value, username.value) {
      return Fail(409, "User with this email or username already exists");
    }
    var row := User(db.nextId, email.value, username.value, displayName.value, hashed, StoredBio(bio), None);
    reply := StoreUser(db, lib, now, row);
    RegisterKeepsValid(t, lib, now, email, username, displayName, password, bio, hashed);
  }

  /** The write of an accepted registration: the row, then the token for the new account. */
  method StoreUser(db: Store, lib: JwtLibrary, now: int, row: User) returns (reply: Reply<AuthData>)
    modifies db
    ensures var o := Registered(old(db.Contents()), lib, now, row);
      reply == o.reply && db.Contents() == o.after
  {
    db.users, db.nextId := db.users + [row], db.nextId + 1;
    var user := PublicUser(row);
    var token := GenerateToken(lib, user, now);
    reply := Ok(Some(AuthData(user, token)), Some("User registered successfully"));
  }

  // ------------------------------------------------------------ lemmas

  /** A missing or empty required field is a 400, decided before the user table is read. */
  lemma RegisterValidatesFirst(t: Tables, other: Tables, lib: JwtLibrary, now: int,
                               email: Option<string>, username: Option<string>, displayName: Option<string>,
                               password: Option<string>, bio: Option<string>, hashed: string)
    requires !Given(email) || !Given(username) || !Given(displayName) || !Given(password)
    ensures RegisterOutcome(t, lib, now, email, username, displayName, password, bio, hashed)
         == Outcome(Fail(400, "All fields are required"), t)
    ensures RegisterOutcome(other, lib, now, email, username, displayName, password, bio, hashed).reply
         == RegisterOutcome(t, lib, now, email, username, displayName, password, bio, hashed).reply
  {
  }

  /** An email or a username already in use is a 409 that creates nothing. */
  lemma RegisterConflict(t: Tables, lib: JwtLibrary, now: int, email: string, username: string,
                         displayName: string, password: string, bio: Option<string>, hashed: string, u: User)
    requires email != "" && username != "" && displayName != "" && password != ""
    requires u in t.users && (u.email == email || u.username == username)
    ensures RegisterOutcome(t, lib, now, Some(email), Some(username), Some(displayName), Some(password), bio, hashed)
         == Outcome(Fail(409, "User with this email or username already exists"), t)
  {
    var i :| 0 <= i < |t.users| && t.users[i] == u;
  }

  /**
   * Registration succeeds exactly when all four fields are given and neither
   * the email nor the username is in use. It then adds exactly one account,
   * holding the hash instead of the password and null for an empty bio, and
   * answers with that account (no password, no hash) and a token for it.
   */
  lemma RegisterCreates(t: Tables, lib: JwtLibrary, now: int,
                        email: Option<string>, username: Option<string>, displayName: Option<string>,
                        password: Option<string>, bio: Option<string>, hashed: string)
    ensures var o := RegisterOutcome(t, lib, now, email, username, displayName, password, bio, hashed);
      o.reply.body.success <==>
        Given(email) && Given(username) && Given(displayName) && Given(password)
        && forall u :: u in t.users ==> u.email != email.value && u.username != username.value
    ensures var o := RegisterOutcome(t, lib, now, email, username, displayName, password, bio, hashed);
      o.reply.body.success ==>
        var row := o.after.users[|o.after.users| - 1];
        && o.after.users == t.users + [row]
        && row == User(t.nextId, email.value, username.value, displayName.value, hashed,
                       if bio == Some("") then None else bio, None)
        && o.after.posts == t.posts && o.after.likes == t.likes && o.after.comments == t.comments
        && o.after.notifications == t.notifications
        && o.reply.body.data.value.user == PublicUser(row)
        && o.reply.body.data.value.token == GenerateToken(lib, PublicUser(row), now)
  {
    var o := RegisterOutcome(t, lib, now, email, username, displayName, password, bio, hashed);
    if Given(email) && Given(username) && Given(displayName) && Given(password) {
      if Taken(t.users, email.value, username.value) {
        var i :| 0 <= i < |t.users| && (t.users[i].email == email.value || t.users[i].username == username.value);
        assert t.users[i] in t.users;
      } else {
        forall u | u in t.users ensures u.email != email.value && u.username != username.value {
          var i :| 0 <= i < |t.users| && t.users[i] == u;
        }
      }
    }
  }

  /** The token handed out on registration verifies, for seven days, to the new account. */
  lemma RegisterTokenVerifies(t: Tables, lib: JwtLibrary, now: int, later: int,
                              email: Option<string>, username: Option<string>, displayName: Option<string>,
                              password: Option<string>, bio: Option<string>, hashed: string)
    requires SoundJwt(lib)
    requires RegisterOutcome(t, lib, now, email, username, displayName, password, bio, hashed).reply.body.success
    requires later < now + TokenLifetime
    ensures var data := RegisterOutcome(t, lib, now, email, username, displayName, password, bio, hashed).reply.body.data.value;
      VerifyToken(lib, data.token, later) == Some(AuthUser(t.nextId, email.value, username.value, username.value, None, None))
  {
    var data := RegisterOutcome(t, lib, now, email, username, displayName, password, bio, hashed).reply.body.data.value;
    IssuedTokenVerifies(lib, data.user, now, later);
  }

  // ------------------------------------------------ invariant preservation

  /** Handled one at a time, registrations never let two accounts share an email or a username. */
  lemma RegisterKeepsValid(t: Tables, lib: JwtLibrary, now: int,
                           email: Option<string>, username: Option<string>, displayName: Option<string>,
                           password: Option<string>, bio: Option<string>, hashed: string)
    requires ValidTables(t)
    ensures ValidTables(RegisterOutcome(t, lib, now, email, username, displayName, password, bio, hashed).after)
  {
    var o := RegisterOutcome(t, lib, now, email, username, displayName, password, bio, hashed);
    if o.reply.body.success {
      var row := User(t.nextId, email.value, username.value, displayName.value, hashed, StoredBio(bio), None);
      InsertUserValid(t, row);
    }
  }
}
