/**
 * The sign-in form: the same shape as the sign-up form with two inputs,
 * and a password that only has to be present.
 */
module LoginForm {
  import opened Wrappers
  import opened ApiTypes
  import opened FormRules
  import RegisterForm

  datatype Field = Email | Password

  /** `LoginCredentials`. */
  datatype Credentials = Credentials(email: string, password: string)

  function PasswordError(p: string): (e: Option<string>)
    ensures e.None? <==> p != []
  {
    if p == [] then Some("Password is required") else None
  }

  /** The error map validation produces: one entry per input whose rule fails. */
  function Errors(c: Credentials): (e: map<Field, string>)
    ensures Holds(e, Email, EmailError(c.email))
    ensures Holds(e, Password, PasswordError(c.password))
  {
    Put(Put(map[], Email, EmailError(c.email)), Password, PasswordError(c.password))
  }

  class Form {
    var credentials: Credentials
    var errors: map<Field, string>
    var isLoading: bool

    constructor ()
      ensures credentials == Credentials("", "") && errors == map[] && !isLoading
    {
      credentials := Credentials("", "");
      errors := map[];
      isLoading := false;
    }

    /** Checks both inputs, stores the messages, and answers whether there were none. */
    method ValidateForm() returns (valid: bool)
      modifies this
      ensures credentials == old(credentials) && isLoading == old(isLoading)
      ensures errors == Errors(credentials)
      ensures valid <==> errors == map[]
    {
      var c := credentials;
      var newErrors: map<Field, string> := map[];
      newErrors := Put(newErrors, Email, EmailError(c.email));
      newErrors := Put(newErrors, Password, PasswordError(c.password));
      errors := newErrors;
      valid := |newErrors.Keys| == 0;
    }

    /**
     * Submits the form. `result` is what the login call resolved to, or
     * `None` when it threw. Returns the credentials sent, if any, and
     * whether the login succeeded.
     */
    method HandleSubmit(result: Option<ApiResponse<AuthData>>) returns (sent: Option<Credentials>, succeeded: bool)
      modifies this
      ensures credentials == old(credentials)
      ensures sent.Some? <==> Errors(credentials) == map[]
      ensures sent.Some? ==> sent.value == credentials && !isLoading
      ensures sent.None? ==> errors == Errors(credentials) && isLoading == old(isLoading)
      ensures succeeded <==> sent.Some? && result.Some? && result.value.success
      ensures succeeded ==> errors == map[]
      ensures sent.Some? && result.None? ==> errors == map[Email := "An unexpected error occurred"]
      ensures sent.Some? && result.Some? && !result.value.success ==>
                errors == map[Email := MessageOr(result.value.error, "Login failed")]
    {
      var valid := ValidateForm();
      if !valid {
        return None, false;
      }
      isLoading := true;
      sent := Some(credentials);
      succeeded := false;
      if result.None? {
        errors := map[Email := "An unexpected error occurred"];
      } else if result.value.success {
        succeeded := true;
      } else {
        errors := map[Email := MessageOr(result.value.error, "Login failed")];
      }
      isLoading := false;
    }

    /** Typing into one input: only that input changes, and only its own message is cleared. */
    method HandleInputChange(field: Field, value: string)
      modifies this
      ensures credentials == (if field == Email then old(credentials).(email := value) else old(credentials).(password := value))
      ensures isLoading == old(isLoading)
      ensures errors == if field in old(errors) && old(errors)[field] != [] then old(errors) - {field} else old(errors)
      ensures field in errors ==> errors[field] == []
      ensures forall g :: g != field ==> (g in errors <==> g in old(errors))
      ensures forall g :: g != field && g in errors ==> errors[g] == old(errors)[g]
    {
      if field == Email {
        credentials := credentials.(email := value);
      } else {
        credentials := credentials.(password := value);
      }
      if field in errors && errors[field] != [] {
        errors := errors - {field};
      }
    }
  }

  // ------------------------------------------------------------ lemmas

  /** The form is accepted exactly when the email matches the pattern and a password is typed. */
  lemma ValidIff(c: Credentials)
    ensures Errors(c) == map[] <==> EmailLike(c.email) && c.password != []
  {
    var e := Errors(c);
    if EmailLike(c.email) && c.password != [] {
      forall f ensures f !in e {
        if f == Email { assert EmailError(c.email).None?; }
      }
      assert e.Keys == {};
    } else if !EmailLike(c.email) {
      assert Email in e;
    } else {
      assert Password in e;
    }
  }

  /** Whatever passed the sign-up form also passes the sign-in form. */
  lemma RegisteredCredentialsPass(r: RegisterForm.Credentials)
    requires RegisterForm.Errors(r) == map[]
    ensures Errors(Credentials(r.email, r.password)) == map[]
  {
    RegisterForm.ValidIff(r);
    ValidIff(Credentials(r.email, r.password));
  }

  /** No length rule on the sign-in password: a one-character password is accepted. */
  lemma ShortPasswordAccepted(email: string, p: char)
    requires EmailLike(email)
    ensures Errors(Credentials(email, [p])) == map[]
  {
    ValidIff(Credentials(email, [p]));
  }
}
