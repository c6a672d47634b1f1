/**
 * The sign-up form: its state (the credentials typed so far, one error
 * message per field, a busy flag), the validation it runs before sending,
 * and what it shows once the registration call settles.
 */
module RegisterForm {
  import opened Wrappers
  import opened Text
  import opened ApiTypes
  import opened FormRules
  import opened Database
  import opened Auth
  import opened RegisterRoute

  datatype Field = Email | Username | DisplayName | Password | Bio

  /** `RegisterCredentials`: every input holds a string, the bio included. */
  datatype Credentials = Credentials(email: string, username: string, displayName: string, password: string, bio: string)

  const Blank := Credentials("", "", "", "", "")

  function Get(c: Credentials, f: Field): string {
    match f
    case Email => c.email
    case Username => c.username
    case DisplayName => c.displayName
    case Password => c.password
    case Bio => c.bio
  }

  /** `{ ...c, [f]: v }`. */
  function With(c: Credentials, f: Field, v: string): (r: Credentials)
    ensures Get(r, f) == v
    ensures forall g :: g != f ==> Get(r, g) == Get(c, g)
  {
    match f
    case Email => c.(email := v)
    case Username => c.(username := v)
    case DisplayName => c.(displayName := v)
    case Password => c.(password := v)
    case Bio => c.(bio := v)
  }

  function UsernameError(u: string): (e: Option<string>)
    ensures e.None? <==> |u| >= 3 && AllWordChars(u)
  {
    if u == [] then Some("Username is required")
    else if |u| < 3 then Some("Username must be at least 3 characters")
    else if !AllWordChars(u) then Some("Username can only contain letters, numbers, and underscores")
    else None
  }

  function DisplayNameError(d: string): (e: Option<string>)
    ensures e.None? <==> |d| >= 2
  {
    if d == [] then Some("Display name is required")
    else if |d| < 2 then Some("Display name must be at least 2 characters")
    else None
  }

  function PasswordError(p: string): (e: Option<string>)
    ensures e.None? <==> |p| >= 6
  {
    if p == [] then Some("Password is required")
    else if |p| < 6 then Some("Password must be at least 6 characters")
    else None
  }

  /** The map holding each given message under its input. */
  function ErrorMap(email: Option<string>, username: Option<string>, displayName: Option<string>,
                    password: Option<string>): (e: map<Field, string>)
    ensures Holds(e, Email, email) && Holds(e, Username, username)
    ensures Holds(e, DisplayName, displayName) && Holds(e, Password, password)
    ensures Bio !in e
  {
    Put(Put(Put(Put(map[], Email, email), Username, username), DisplayName, displayName), Password, password)
  }

  /** The error map validation produces: one entry per input whose rule fails, none for the bio. */
  function Errors(c: Credentials): (e: map<Field, string>)
    ensures Holds(e, Email, EmailError(c.email))
    ensures Holds(e, Username, UsernameError(c.username))
    ensures Holds(e, DisplayName, DisplayNameError(c.displayName))
    ensures Holds(e, Password, PasswordError(c.password))
    ensures Bio !in e
  {
    ErrorMap(EmailError(c.email), UsernameError(c.username), DisplayNameError(c.displayName), PasswordError(c.password))
  }

  class Form {
    var credentials: Credentials
    var errors: map<Field, string>
    var isLoading: bool

    constructor ()
      ensures credentials == Blank && errors == map[] && !isLoading
    {
      credentials := Blank;
      errors := map[];
      isLoading := false;
    }

    /** Checks every input, stores the messages, and answers whether there were none. */
    method ValidateForm() returns (valid: bool)
      modifies this
      ensures credentials == old(credentials) && isLoading == old(isLoading)
      ensures errors == Errors(credentials)
      ensures valid <==> errors == map[]
    {
      var c := credentials;
      var newErrors: map<Field, string> := map[];
      var email := EmailError(c.email);
      var username := UsernameError(c.username);
      var displayName := DisplayNameError(c.displayName);
      var password := PasswordError(c.password);
      newErrors := Put(newErrors, Email, email);
      newErrors := Put(newErrors, Username, username);
      newErrors := Put(newErrors, DisplayName, displayName);
      newErrors := Put(newErrors, Password, password);
      errors := newErrors;
      valid := |newErrors.Keys| == 0;
    }

    /**
     * Submits the form. `result` is what the registration call resolved to,
     * or `None` when it threw. Returns the credentials sent, if any, and
     * whether the registration succeeded.
     */
    method HandleSubmit(result: Option<ApiResponse<AuthData>>) returns (sent: Option<Credentials>, succeeded: bool)
      modifies this
      ensures credentials == old(credentials)
      ensures sent.Some? <==> Errors(credentials) == map[]
      ensures sent.Some? ==> sent.value == credentials && !isLoading
      ensures sent.None? ==> errors == Errors(credentials) && isLoading == old(isLoading)
      ensures succeeded <==> sent.Some? && result.Some? && result.value.success
      ensures succeeded ==> errors == map[]
      ensures sent.Some? && result.None? ==> errors == map[Email := "An unexpected error occurred"]
      ensures sent.Some? && result.Some? && !result.value.success ==>
                errors == map[Email := MessageOr(result.value.error, "Registration failed")]
    {
      var valid := ValidateForm();
      if !valid {
        return None, false;
      }
      isLoading := true;
      sent := Some(credentials);
      succeeded := false;
      if result.None? {
        errors := map[Email := "An unexpected error occurred"];
      } else if result.value.success {
        succeeded := true;
      } else {
        errors := map[Email := MessageOr(result.value.error, "Registration failed")];
      }
      isLoading := false;
    }

    /** Typing into one input: only that input changes, and only its own message is cleared. */
    method HandleInputChange(field: Field, value: string)
      modifies this
      ensures credentials == With(old(credentials), field, value)
      ensures isLoading == old(isLoading)
      ensures errors == if field in old(errors) && old(errors)[field] != [] then old(errors) - {field} else old(errors)
      ensures field in errors ==> errors[field] == []
      ensures forall g :: g != field ==> (g in errors <==> g in old(errors))
      ensures forall g :: g != field && g in errors ==> errors[g] == old(errors)[g]
    {
      credentials := With(credentials, field, value);
      if field in errors && errors[field] != [] {
        errors := errors - {field};
      }
    }
  }

  // ------------------------------------------------------------ lemmas

  /** The form is accepted exactly when every rule passes; the bio plays no part. */
  lemma ValidIff(c: Credentials)
    ensures Errors(c) == map[] <==>
      EmailLike(c.email) && |c.username| >= 3 && AllWordChars(c.username)
      && |c.displayName| >= 2 && |c.password| >= 6
  {
    var e := Errors(c);
    if EmailLike(c.email) && |c.username| >= 3 && AllWordChars(c.username)
       && |c.displayName| >= 2 && |c.password| >= 6 {
      forall f ensures f !in e {
        if f == Email { assert EmailError(c.email).None?; }
      }
      assert e.Keys == {};
    }
  }

  /** A form the client accepts always gets past the server's "All fields are required" check. */
  lemma AcceptedFormPassesServerCheck(t: Tables, lib: JwtLibrary, now: int, c: Credentials, hashed: string)
    requires Errors(c) == map[]
    ensures RegisterOutcome(t, lib, now, Some(c.email), Some(c.username), Some(c.displayName),
                            Some(c.password), Some(c.bio), hashed).reply.status != 400
  {
    ValidIff(c);
  }
}
