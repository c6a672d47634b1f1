/**
 * Rules shared by the sign-in and sign-up forms: the email check
 * (the unanchored pattern "non-blanks, '@', non-blanks, '.', non-blanks")
 * and the `error || fallback` idiom used to pick a message to show.
 */
module FormRules {
  import opened Wrappers
  import opened Text

  /** No character of `s` is white space: the run matched by `\S+`. */
  predicate NoSpace(s: string) {
    forall i :: 0 <= i < |s| ==> !IsSpace(s[i])
  }

  /**
   * The pattern matches with its '@' at `at` and its '.' at `dot`:
   * a non-blank right before '@', non-blanks strictly between the two,
   * and a non-blank right after '.'.
   */
  predicate EmailAt(s: string, at: int, dot: int) {
    1 <= at && at + 2 <= dot && dot + 1 < |s|
    && !IsSpace(s[at - 1]) && s[at] == '@'
    && NoSpace(s[at + 1..dot]) && s[dot] == '.'
    && !IsSpace(s[dot + 1])
  }

  /** `/\S+@\S+\.\S+/.test(s)`: the pattern occurs somewhere in `s`. */
  predicate EmailLike(s: string) {
    exists at, dot | 1 <= at < |s| && at + 2 <= dot < |s| - 1 :: EmailAt(s, at, dot)
  }

  /** The message the email input shows after validation, if any. */
  function EmailError(email: string): (e: Option<string>)
    ensures e.None? <==> EmailLike(email)
    ensures e == Some("Email is required") <==> email == []
  {
    if email == [] then Some("Email is required")
    else if !EmailLike(email) then Some("Email is invalid")
    else None
  }

  /** `error || fallback`: an absent or empty message gives way to the fallback. */
  function MessageOr(error: Option<string>, fallback: string): (m: string)
    ensures error.Some? && error.value != [] ==> m == error.value
    ensures error.None? || error.value == [] ==> m == fallback
  {
    if error.Some? && error.value != [] then error.value else fallback
  }

  // ------------------------------------------------------------ lemmas

  /** Every address of the shape `user@host.tld` made of non-blank parts is accepted. */
  lemma EmailShapeAccepted(user: string, host: string, tld: string)
    requires user != [] && host != [] && tld != []
    requires NoSpace(user) && NoSpace(host) && NoSpace(tld)
    ensures EmailLike(user + "@" + host + "." + tld)
  {
    var s := user + "@" + host + "." + tld;
    var at := |user|;
    var dot := |user| + 1 + |host|;
    assert s[at - 1] == user[|user| - 1];
    assert s[at + 1..dot] == host;
    assert s[dot + 1] == tld[0];
    assert EmailAt(s, at, dot);
  }

  /** A string without '@' is never accepted. */
  lemma NoAtRejected(s: string)
    requires forall i :: 0 <= i < |s| ==> s[i] != '@'
    ensures !EmailLike(s)
    ensures EmailError(s).Some?
  {
  }

  /**
   * The pattern is not anchored: text around an accepted string, blanks
   * included, keeps it accepted.
   */
  lemma EmailUnanchored(s: string, before: string, after: string)
    requires EmailLike(s)
    ensures EmailLike(before + s + after)
  {
    var at, dot :| 1 <= at < |s| && at + 2 <= dot < |s| - 1 && EmailAt(s, at, dot);
    var t := before + s + after;
    var k := |before|;
    assert t[k + at - 1] == s[at - 1];
    assert t[k + at] == s[at];
    assert t[k + at + 1..k + dot] == s[at + 1..dot];
    assert t[k + dot] == s[dot];
    assert t[k + dot + 1] == s[dot + 1];
    assert EmailAt(t, k + at, k + dot);
  }

  /** The error map `m` holds `e`'s message under `f`, or nothing under `f` when `e` is `None`. */
  predicate Holds<F(==)>(m: map<F, string>, f: F, e: Option<string>) {
    (f in m <==> e.Some?) && (f in m ==> m[f] == e.value)
  }

  /** `m` with `e`'s message stored under `f`, or `m` itself when `e` is `None`. */
  function Put<F(==)>(m: map<F, string>, f: F, e: Option<string>): map<F, string> {
    if e.Some? then m[f := e.value] else m
  }
}
