/**
 * Bearer-header parsing and the mapping between an account and the claims of
 * its session token (`src/lib/auth.ts`).
 *
 * Signing and verifying are done by a JWT library and password hashing by
 * bcrypt; neither is modelled. The JWT library is a pair of functions passed
 * in as a value, and what the application relies on from it is stated as the
 * predicate `SoundJwt`, which the lemmas below take as a precondition.
 */
module Auth {
  import opened Wrappers
  import opened Text
  import opened ApiTypes

  /** The scheme prefix of an `Authorization` header, trailing space included (section 2.1 of RFC 6750, matched case-sensitively). */
  const BearerPrefix: string := "Bearer "

  /** `expiresIn: '7d'`, in seconds. */
  const TokenLifetime: int := 7 * 24 * 60 * 60

  /** The payload of a session token: what `jwt.sign` is given plus the `iat`/`exp` stamps it adds. */
  datatype Claims = Claims(id: Id, email: string, username: string, displayName: Option<string>, iat: int, exp: int)

  /** The JWT library under the server's secret: `verify` answers `None` where `jwt.verify` throws. */
  datatype JwtLibrary = JwtLibrary(sign: Claims -> string, verify: (string, int) -> Option<Claims>)

  /**
   * What the application assumes of the library: a token it signed verifies
   * to its own claims strictly before their expiry time and fails from then on.
   */
  ghost predicate SoundJwt(lib: JwtLibrary) {
    forall c: Claims, now: int ::
      lib.verify(lib.sign(c), now) == if now < c.exp then Some(c) else None
  }

  /** `extractToken`: the part of the header after `"Bearer "`, or `None`. */
  function ExtractToken(header: Option<string>): (token: Option<string>)
    ensures token.Some? <==> header.Some? && StartsWith(header.value, BearerPrefix)
    ensures token.Some? ==> BearerPrefix + token.value == header.value
  {
    if header.None? || header.value == [] || !StartsWith(header.value, BearerPrefix) then None
    else
      assert header.value == BearerPrefix + header.value[7..];
      Some(header.value[7..])
  }

  /** The claims `generateToken` signs at time `now`: id, email and username only. */
  function IssuedClaims(user: AuthUser, now: int): (c: Claims)
    ensures c.id == user.id && c.email == user.email && c.username == user.username
    ensures c.displayName.None?
    ensures c.exp - c.iat == TokenLifetime && c.iat == now
  {
    Claims(user.id, user.email, user.username, None, now, now + TokenLifetime)
  }

  /** `generateToken`. */
  function GenerateToken(lib: JwtLibrary, user: AuthUser, now: int): (token: string)
    ensures SoundJwt(lib) ==> lib.verify(token, now) == Some(IssuedClaims(user, now))
    ensures SoundJwt(lib) ==> lib.verify(token, now + TokenLifetime).None?
  {
    lib.sign(IssuedClaims(user, now))
  }

  /** The user a verified token stands for: `displayName` falls back to `username`; bio and avatar are absent. */
  function ClaimsUser(c: Claims): (u: AuthUser)
    ensures u.id == c.id && u.email == c.email && u.username == c.username
    ensures c.displayName.None? || c.displayName == Some("") ==> u.displayName == c.username
    ensures c.displayName.Some? && c.displayName.value != "" ==> u.displayName == c.displayName.value
    ensures u.bio.None? && u.avatar.None?
  {
    var name := if c.displayName.None? || c.displayName.value == "" then c.username else c.displayName.value;
    AuthUser(c.id, c.email, c.username, name, None, None)
  }

  /** `verifyToken`: any failure of the library gives `None`, never an exception. */
  function VerifyToken(lib: JwtLibrary, token: string, now: int): (u: Option<AuthUser>)
    ensures u.None? <==> lib.verify(token, now).None?
    ensures u.Some? ==> u.value == ClaimsUser(lib.verify(token, now).value)
  {
    match lib.verify(token, now)
    case None => None
    case Some(c) => Some(ClaimsUser(c))
  }

  /** How the first two checks of every authenticated handler end. */
  datatype AuthOutcome = MissingToken | InvalidToken | Authenticated(user: AuthUser)

  /** `extractToken` then `verifyToken`; an empty token is as good as none (`!token`). */
  function Authenticate(lib: JwtLibrary, now: int, header: Option<string>): (a: AuthOutcome)
    ensures a == MissingToken <==> ExtractToken(header).None? || ExtractToken(header) == Some("")
    ensures a.Authenticated? ==> Some(a.user) == VerifyToken(lib, ExtractToken(header).value, now)
    ensures a == InvalidToken ==> VerifyToken(lib, ExtractToken(header).value, now).None?
  {
    var token := ExtractToken(header);
    if token.None? || token.value == [] then MissingToken
    else
      match VerifyToken(lib, token.value, now)
      case None => InvalidToken
      case Some(u) => Authenticated(u)
  }

  // ------------------------------------------------------------------ lemmas

  /** The header the client builds is read back to the same token. */
  lemma ExtractBearer(t: string)
    ensures ExtractToken(Some(BearerPrefix + t)) == Some(t)
  {
    var h := BearerPrefix + t;
    assert h[..7] == BearerPrefix;
    assert h[7..] == t;
  }

  /** A header not starting with `"Bearer "` exactly (for instance `"bearer x"`) carries no token. */
  lemma ExtractRequiresExactScheme(h: string)
    requires |h| < 7 || h[..7] != BearerPrefix
    ensures ExtractToken(Some(h)) == None
  {
  }

  /** A token issued at `iat` verifies, strictly inside its seven-day window, to the account it was issued for. */
  lemma IssuedTokenVerifies(lib: JwtLibrary, user: AuthUser, iat: int, now: int)
    requires SoundJwt(lib)
    requires now < iat + TokenLifetime
    ensures VerifyToken(lib, GenerateToken(lib, user, iat), now)
         == Some(AuthUser(user.id, user.email, user.username, user.username, None, None))
  {
    var c := IssuedClaims(user, iat);
    assert lib.verify(lib.sign(c), now) == Some(c);
  }

  /** From the end of its window on, an issued token no longer verifies. */
  lemma IssuedTokenExpires(lib: JwtLibrary, user: AuthUser, iat: int, now: int)
    requires SoundJwt(lib)
    requires iat + TokenLifetime <= now
    ensures VerifyToken(lib, GenerateToken(lib, user, iat), now).None?
  {
    var c := IssuedClaims(user, iat);
    assert lib.verify(lib.sign(c), now).None?;
  }

  /**
   * Since `generateToken` never signs a display name, every user that a token
   * issued by this application verifies to has `displayName == username`.
   */
  lemma VerifiedDisplayNameIsUsername(lib: JwtLibrary, user: AuthUser, iat: int, now: int)
    requires SoundJwt(lib)
    requires VerifyToken(lib, GenerateToken(lib, user, iat), now).Some?
    ensures VerifyToken(lib, GenerateToken(lib, user, iat), now).value.displayName == user.username
  {
    var c := IssuedClaims(user, iat);
    assert lib.verify(lib.sign(c), now) == if now < c.exp then Some(c) else None;
  }

  /** A client holding a fresh token for `user` is authenticated as that account by every handler. */
  lemma BearerOfIssuedTokenAuthenticates(lib: JwtLibrary, user: AuthUser, iat: int, now: int)
    requires SoundJwt(lib)
    requires now < iat + TokenLifetime
    requires GenerateToken(lib, user, iat) != ""
    ensures Authenticate(lib, now, Some(BearerPrefix + GenerateToken(lib, user, iat)))
         == Authenticated(AuthUser(user.id, user.email, user.username, user.username, None, None))
  {
    ExtractBearer(GenerateToken(lib, user, iat));
    IssuedTokenVerifies(lib, user, iat, now);
  }
}
