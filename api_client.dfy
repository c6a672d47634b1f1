/**
 * The request helper every page uses: it builds the request (method,
 * headers, JSON body) from its options and the stored token, sends it,
 * and keeps a loading flag and the last error message.
 *
 * The request body is given already serialised; the browser storage is a
 * parameter; the reply is a parameter too, `None` standing for a fetch or a
 * JSON decoding that threw.
 */
module ApiHook {
  import opened Wrappers
  import opened ApiTypes
  import opened Auth
  import opened AuthHook
  import opened FormRules

  datatype HttpMethod = GET | POST | PUT | DELETE

  /** `UseApiOptions`: every member may be left out. */
  datatype Options = Options(httpMethod: Option<HttpMethod>, headers: Option<map<string, string>>, includeAuth: Option<bool>)

  const Defaults := Options(None, None, None)

  /** What is handed to `fetch`: the method, the headers and the body, if any. */
  datatype RequestConfig = RequestConfig(httpMethod: HttpMethod, headers: map<string, string>, body: Option<string>)

  /**
   * The request `makeRequest` builds. `data` is the serialised body when the
   * caller's `data` is truthy, and `None` when it is missing or falsy.
   */
  function Config(data: Option<string>, options: Options, storage: map<string, string>): (c: RequestConfig)
    ensures c.httpMethod == options.httpMethod.GetOr(GET)
    ensures c.body.Some? <==> c.httpMethod != GET && data.Some?
    ensures c.body.Some? ==> c.body == data
    ensures options.includeAuth.GetOr(true) && Truthy(Lookup(storage, TokenKey)) ==>
              "Authorization" in c.headers && c.headers["Authorization"] == BearerPrefix + storage[TokenKey]
    ensures c.body.Some? ==> "Content-Type" in c.headers && c.headers["Content-Type"] == "application/json"
    ensures !(options.includeAuth.GetOr(true) && Truthy(Lookup(storage, TokenKey))) ==>
              ("Authorization" in c.headers <==> "Authorization" in options.headers.GetOr(map[]))
              && ("Authorization" in c.headers ==> c.headers["Authorization"] == options.headers.GetOr(map[])["Authorization"])
    ensures c.body.None? ==>
              ("Content-Type" in c.headers <==> "Content-Type" in options.headers.GetOr(map[]))
              && ("Content-Type" in c.headers ==> c.headers["Content-Type"] == options.headers.GetOr(map[])["Content-Type"])
    ensures forall k :: k != "Authorization" && k != "Content-Type" ==>
              (k in c.headers <==> k in options.headers.GetOr(map[]))
              && (k in c.headers ==> c.headers[k] == options.headers.GetOr(map[])[k])
  {
    var httpMethod := options.httpMethod.GetOr(GET);
    var token := Lookup(storage, TokenKey);
    var given := options.headers.GetOr(map[]);
    var withAuth := if options.includeAuth.GetOr(true) && Truthy(token) then given["Authorization" := BearerPrefix + token.value] else given;
    var sendsBody := httpMethod != GET && data.Some?;
    var headers := if sendsBody then withAuth["Content-Type" := "application/json"] else withAuth;
    RequestConfig(httpMethod, headers, if sendsBody then data else None)
  }

  class Api {
    var loading: bool
    var error: Option<string>

    constructor ()
      ensures !loading && error.None?
    {
      loading := false;
      error := None;
    }

    /**
     * `makeRequest`: builds the request, sends it and reports the reply.
     * A request that throws becomes an unsuccessful reply, so the caller
     * always gets a reply.
     */
    method MakeRequest<T>(data: Option<string>, options: Options, storage: map<string, string>,
                          reply: Option<ApiResponse<T>>) returns (config: RequestConfig, result: ApiResponse<T>)
      modifies this
      ensures config == Config(data, options, storage)
      ensures reply.Some? ==> result == reply.value
      ensures reply.None? ==> result == ApiResponse(false, None, Some("Network error occurred"), None)
      ensures result.success ==> error.None?
      ensures !result.success ==> error == Some(MessageOr(result.error, "An error occurred"))
      ensures !loading
    {
      loading := true;
      error := None;
      var httpMethod := options.httpMethod.GetOr(GET);
      var headers := options.headers.GetOr(map[]);
      var includeAuth := options.includeAuth.GetOr(true);
      if includeAuth {
        var token := Lookup(storage, TokenKey);
        if Truthy(token) {
          headers := headers["Authorization" := BearerPrefix + token.value];
        }
      }
      if httpMethod != GET && data.Some? {
        headers := headers["Content-Type" := "application/json"];
      }
      config := RequestConfig(httpMethod, headers, None);
      if httpMethod != GET && data.Some? {
        config := config.(body := data);
      }
      if reply.None? {
        error := Some("Network error occurred");
        result := ApiResponse(false, None, Some("Network error occurred"), None);
      } else {
        result := reply.value;
        if !result.success {
          error := Some(MessageOr(result.error, "An error occurred"));
        }
      }
      loading := false;
    }

    method ClearError()
      modifies this
      ensures error.None? && loading == old(loading)
    {
      error := None;
    }
  }

  // ------------------------------------------------------------ lemmas

  /** The server reads back from the header exactly the token the browser stored. */
  lemma HeaderCarriesStoredToken(data: Option<string>, options: Options, storage: map<string, string>)
    requires options.includeAuth.GetOr(true) && Truthy(Lookup(storage, TokenKey))
    ensures ExtractToken(Some(Config(data, options, storage).headers["Authorization"])) == Some(storage[TokenKey])
  {
    ExtractBearer(storage[TokenKey]);
  }

  /**
   * With no token stored and no header of its own, a request reaches the
   * server without credentials: the protected handlers answer
   * "Authentication required".
   */
  lemma NoTokenNoCredentials(lib: JwtLibrary, now: int, data: Option<string>, options: Options, storage: map<string, string>)
    requires !Truthy(Lookup(storage, TokenKey))
    requires "Authorization" !in options.headers.GetOr(map[])
    ensures var c := Config(data, options, storage);
      "Authorization" !in c.headers
      && Authenticate(lib, now, Lookup(c.headers, "Authorization")) == MissingToken
  {
  }

  /**
   * A signed-in browser holding the token issued at `iat` is recognised on
   * every default request during the token's lifetime, as the account the
   * token was issued for.
   */
  lemma SignedInRequestsAuthenticate(lib: JwtLibrary, user: AuthUser, iat: int, now: int,
                                     data: Option<string>, storage: map<string, string>)
    requires SoundJwt(lib)
    requires now < iat + TokenLifetime
    requires GenerateToken(lib, user, iat) != []
    ensures var s := storage[TokenKey := GenerateToken(lib, user, iat)];
      var c := Config(data, Defaults, s);
      Authenticate(lib, now, Lookup(c.headers, "Authorization"))
        == Authenticated(AuthUser(user.id, user.email, user.username, user.username, None, None))
  {
    var s := storage[TokenKey := GenerateToken(lib, user, iat)];
    var c := Config(data, Defaults, s);
    assert Lookup(c.headers, "Authorization") == Some(BearerPrefix + GenerateToken(lib, user, iat));
    BearerOfIssuedTokenAuthenticates(lib, user, iat, now);
  }

  /** A GET never carries a body or a content type of its own making. */
  lemma GetHasNoBody(data: Option<string>, options: Options, storage: map<string, string>)
    requires options.httpMethod.GetOr(GET) == GET
    ensures Config(data, options, storage).body.None?
    ensures "Content-Type" in Config(data, options, storage).headers ==> "Content-Type" in options.headers.GetOr(map[])
  {
  }
}
