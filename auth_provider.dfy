/**
 * The client's session: who is signed in, whether the stored session has
 * been read yet, and the two browser-storage entries ("token" and "user")
 * that keep the session across reloads.
 *
 * The network calls are parameters: `None` stands for a call that threw.
 * Turning the stored user back into a value is a `UserCodec` passed in;
 * `SoundCodec` states what the session relies on from it.
 */
module AuthHook {
  import opened Wrappers
  import opened ApiTypes

  const TokenKey := "token"
  const UserKey := "user"

  /** `JSON.stringify` of a user, and `JSON.parse` back (`None` when it throws). */
  datatype UserCodec = UserCodec(stringify: AuthUser -> string, parse: string -> Option<AuthUser>)

  /** Parsing gives back what was stringified, and a stringified user is never the empty string. */
  ghost predicate SoundCodec(codec: UserCodec) {
    forall u :: codec.parse(codec.stringify(u)) == Some(u) && codec.stringify(u) != []
  }

  /** `localStorage.getItem(key)`: `None` is `null`. */
  function Lookup(storage: map<string, string>, key: string): (v: Option<string>)
    ensures v.Some? <==> key in storage
    ensures v.Some? ==> v.value == storage[key]
  {
    if key in storage then Some(storage[key]) else None
  }

  /** A JavaScript string is truthy when it is present and not empty. */
  predicate Truthy(s: Option<string>) {
    s.Some? && s.value != []
  }

  /** What reading the stored session finds: a user, or nothing; and the storage afterwards. */
  datatype Restored = Restored(user: Option<AuthUser>, storage: map<string, string>)

  /**
   * Reading the stored session: both entries must be present and not
   * empty; a stored user that does not parse wipes both entries.
   */
  function Restore(storage: map<string, string>, codec: UserCodec): (r: Restored)
    ensures r.user.Some? ==> r.storage == storage
    ensures r.storage != storage ==> r.storage == storage - {TokenKey, UserKey}
    ensures !(Truthy(Lookup(storage, TokenKey)) && Truthy(Lookup(storage, UserKey))) ==> r == Restored(None, storage)
    ensures Truthy(Lookup(storage, TokenKey)) && Truthy(Lookup(storage, UserKey)) ==>
      if codec.parse(storage[UserKey]).Some? then r == Restored(codec.parse(storage[UserKey]), storage)
      else r == Restored(None, storage - {TokenKey, UserKey})
  {
    var token := Lookup(storage, TokenKey);
    var userData := Lookup(storage, UserKey);
    if Truthy(token) && Truthy(userData) then
      match codec.parse(userData.value)
      case Some(u) => Restored(Some(u), storage)
      case None => Restored(None, storage - {TokenKey, UserKey})
    else Restored(None, storage)
  }

  /** A partial user: a present field overrides, an absent one keeps the old value. */
  datatype UserPatch = UserPatch(
    id: Option<Id>,
    email: Option<string>,
    username: Option<string>,
    displayName: Option<string>,
    bio: Option<Option<string>>,
    avatar: Option<Option<string>>)

  const NoChange := UserPatch(None, None, None, None, None, None)

  /** `{ ...user, ...patch }`. */
  function Merge(u: AuthUser, p: UserPatch): (r: AuthUser)
    ensures p.id.None? ==> r.id == u.id
    ensures p.id.Some? ==> r.id == p.id.value
    ensures p.email.None? ==> r.email == u.email
    ensures p.email.Some? ==> r.email == p.email.value
    ensures p.username.None? ==> r.username == u.username
    ensures p.username.Some? ==> r.username == p.username.value
    ensures p.displayName.None? ==> r.displayName == u.displayName
    ensures p.displayName.Some? ==> r.displayName == p.displayName.value
    ensures p.bio.None? ==> r.bio == u.bio
    ensures p.bio.Some? ==> r.bio == p.bio.value
    ensures p.avatar.None? ==> r.avatar == u.avatar
    ensures p.avatar.Some? ==> r.avatar == p.avatar.value
  {
    AuthUser(p.id.GetOr(u.id), p.email.GetOr(u.email), p.username.GetOr(u.username),
             p.displayName.GetOr(u.displayName), p.bio.GetOr(u.bio), p.avatar.GetOr(u.avatar))
  }

  /** The error login and registration report when the request itself fails. */
  function NetworkError(): (r: ApiResponse<AuthData>)
    ensures !r.success && r.error == Some("Network error occurred") && r.data.None?
  {
    ApiResponse(false, None, Some("Network error occurred"), None)
  }

  class AuthProvider {
    var user: Option<AuthUser>
    var loading: bool
    var storage: map<string, string>
    const codec: UserCodec

    /** Before the stored session is read: nobody is signed in and the session is loading. */
    constructor (codec: UserCodec, storage: map<string, string>)
      ensures this.codec == codec && this.storage == storage
      ensures user.None? && loading
    {
      this.codec := codec;
      this.storage := storage;
      user := None;
      loading := true;
    }

    /** The effect run on mount: restore the stored session, then stop loading. */
    method Mount()
      modifies this
      ensures var r := Restore(old(storage), codec);
        storage == r.storage && user == (if r.user.Some? then r.user else old(user))
      ensures !loading
    {
      var token := Lookup(storage, TokenKey);
      var userData := Lookup(storage, UserKey);
      if Truthy(token) && Truthy(userData) {
        var parsed := codec.parse(userData.value);
        if parsed.Some? {
          user := parsed;
        } else {
          storage := storage - {TokenKey};
          storage := storage - {UserKey};
          assert storage == old(storage) - {TokenKey, UserKey};
        }
      }
      loading := false;
    }

    /**
     * Takes the reply of the login or registration endpoint (`None` when the
     * request or its decoding threw): a successful reply with data signs the
     * user in and stores the session; the reply is handed back.
     */
    method Settle(response: Option<ApiResponse<AuthData>>) returns (result: ApiResponse<AuthData>)
      modifies this
      ensures result == if response.None? then NetworkError() else response.value
      ensures loading == old(loading)
      ensures result.success && result.data.Some? ==>
                user == Some(result.data.value.user)
                && storage == old(storage)[TokenKey := result.data.value.token][UserKey := codec.stringify(result.data.value.user)]
      ensures !(result.success && result.data.Some?) ==> user == old(user) && storage == old(storage)
    {
      if response.None? {
        return NetworkError();
      }
      result := response.value;
      if result.success && result.data.Some? {
        user := Some(result.data.value.user);
        storage := storage[TokenKey := result.data.value.token];
        storage := storage[UserKey := codec.stringify(result.data.value.user)];
      }
    }

    /** `login`: the reply of `POST /api/auth/login`. */
    method Login(response: Option<ApiResponse<AuthData>>) returns (result: ApiResponse<AuthData>)
      modifies this
      ensures result == if response.None? then NetworkError() else response.value
      ensures loading == old(loading)
      ensures result.success && result.data.Some? ==>
                user == Some(result.data.value.user)
                && storage == old(storage)[TokenKey := result.data.value.token][UserKey := codec.stringify(result.data.value.user)]
      ensures !(result.success && result.data.Some?) ==> user == old(user) && storage == old(storage)
    {
      result := Settle(response);
    }

    /** `register`: the reply of `POST /api/auth/register`. */
    method Register(response: Option<ApiResponse<AuthData>>) returns (result: ApiResponse<AuthData>)
      modifies this
      ensures result == if response.None? then NetworkError() else response.value
      ensures loading == old(loading)
      ensures result.success && result.data.Some? ==>
                user == Some(result.data.value.user)
                && storage == old(storage)[TokenKey := result.data.value.token][UserKey := codec.stringify(result.data.value.user)]
      ensures !(result.success && result.data.Some?) ==> user == old(user) && storage == old(storage)
    {
      result := Settle(response);
    }

    /** Signs out: nobody is signed in and both entries are removed. */
    method Logout()
      modifies this
      ensures user.None? && storage == old(storage) - {TokenKey, UserKey} && loading == old(loading)
    {
      user := None;
      storage := storage - {TokenKey};
      storage := storage - {UserKey};
      assert storage == old(storage) - {TokenKey, UserKey};
    }

    /** Applies a partial update to the signed-in user and stores it; does nothing when signed out. */
    method UpdateUser(patch: UserPatch)
      modifies this
      ensures old(user).None? ==> user.None? && storage == old(storage)
      ensures old(user).Some? ==>
                user == Some(Merge(old(user).value, patch))
                && storage == old(storage)[UserKey := codec.stringify(user.value)]
      ensures loading == old(loading)
    {
      if user.Some? {
        var updated := Merge(user.value, patch);
        user := Some(updated);
        storage := storage[UserKey := codec.stringify(updated)];
      }
    }
  }

  /** `useAuth`: the context, or the error raised outside the provider. */
  function UseAuth<C>(context: Option<C>): (r: Result<C, string>)
    ensures context.Some? ==> r == Success(context.value)
    ensures context.None? ==> r == Failure("useAuth must be used within an AuthProvider")
  {
    match context
    case Some(c) => Success(c)
    case None => Failure("useAuth must be used within an AuthProvider")
  }

  // ------------------------------------------------------------ lemmas

  /** A stored session is found again after a reload: the same user, the storage untouched. */
  lemma SessionSurvivesReload(codec: UserCodec, storage: map<string, string>, token: string, u: AuthUser)
    requires SoundCodec(codec)
    requires token != []
    ensures Restore(storage[TokenKey := token][UserKey := codec.stringify(u)], codec)
         == Restored(Some(u), storage[TokenKey := token][UserKey := codec.stringify(u)])
  {
    var s := storage[TokenKey := token][UserKey := codec.stringify(u)];
    assert TokenKey != UserKey;
    assert Lookup(s, TokenKey) == Some(token);
    assert Lookup(s, UserKey) == Some(codec.stringify(u));
  }

  /** A profile update is what a reload finds, as long as the token entry is still there. */
  lemma UpdateSurvivesReload(codec: UserCodec, storage: map<string, string>, u: AuthUser, p: UserPatch)
    requires SoundCodec(codec)
    requires Truthy(Lookup(storage, TokenKey))
    ensures var s := storage[UserKey := codec.stringify(Merge(u, p))];
      Restore(s, codec) == Restored(Some(Merge(u, p)), s)
  {
    var s := storage[UserKey := codec.stringify(Merge(u, p))];
    assert s == storage[TokenKey := storage[TokenKey]][UserKey := codec.stringify(Merge(u, p))];
    SessionSurvivesReload(codec, storage, storage[TokenKey], Merge(u, p));
  }

  /** After signing out, a reload finds nobody and leaves the storage as it is. */
  lemma LogoutSurvivesReload(codec: UserCodec, storage: map<string, string>)
    ensures Restore(storage - {TokenKey, UserKey}, codec) == Restored(None, storage - {TokenKey, UserKey})
  {
    assert Lookup(storage - {TokenKey, UserKey}, TokenKey).None?;
  }

  /** A session whose token entry is missing or empty is never restored, whatever the user entry holds. */
  lemma NoTokenNoSession(codec: UserCodec, storage: map<string, string>)
    requires !Truthy(Lookup(storage, TokenKey))
    ensures Restore(storage, codec).user.None?
  {
  }

  /** An empty patch changes nothing, and applying the same patch twice is applying it once. */
  lemma MergeLaws(u: AuthUser, p: UserPatch)
    ensures Merge(u, NoChange) == u
    ensures Merge(Merge(u, p), p) == Merge(u, p)
  {
  }
}
