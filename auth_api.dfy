/**
 * The session-store effects of src/app/api/auth.api.ts: `login` and `handleOAuthLogin` write
 * the session keys and adopt the token, `logout` removes them after the server call, and
 * `getUser` reads the stored user. They act on the localStorage map and the token state of the
 * bearer pipeline object, which is where axios.ts keeps them.
 */
module AuthApi {
  import opened Wrappers
  import opened Text
  import opened Http
  import opened BearerPipeline

  /**
   * The fields of a login response body: an access token when login succeeded, the refresh
   * token, the lifetime in seconds and the user record, already serialised by `JSON.stringify`.
   */
  datatype LoginData = LoginData(
    accessToken: Option<string>, refreshToken: string, expiresIn: int, user: Option<string>)

  /** The store after a response carrying an access token has been persisted. */
  function SessionStore(store: map<string, string>, data: LoginData, now: int): (s: map<string, string>)
    requires data.accessToken.Some?
    ensures AccessTokenKey in s && RefreshTokenKey in s && ExpiryKey in s
    ensures s[AccessTokenKey] == data.accessToken.value && s[RefreshTokenKey] == data.refreshToken
    ensures s[ExpiryKey] == IntToString(now + data.expiresIn * 1000)
    ensures data.user.Some? ==>
      s.Keys == store.Keys + {AccessTokenKey, RefreshTokenKey, ExpiryKey, UserKey}
      && s[UserKey] == data.user.value
    ensures data.user.None? ==>
      s.Keys == store.Keys + {AccessTokenKey, RefreshTokenKey, ExpiryKey}
      && (UserKey in store ==> s[UserKey] == store[UserKey])
    ensures forall k :: k in store && k !in SessionKeys ==> s[k] == store[k]
  {
    var g := GrantStore(store, TokenGrant(data.accessToken.value, data.refreshToken, data.expiresIn), now);
    if data.user.Some? then g[UserKey := data.user.value] else g
  }

  /**
   * What `login` and `handleOAuthLogin` do with a response body: with a non-empty access
   * token, write it, the refresh token and the expiry, the user when one came back, then
   * `getToken(accessToken)`; without one, nothing.
   */
  method AdoptSession(p: Pipeline, data: LoginData, now: int)
    modifies p
    ensures Truthy(data.accessToken) ==>
      p.store == SessionStore(old(p.store), data, now)
      && p.inMemoryToken == data.accessToken
      && p.defaultAuthorization == Some(Bearer(data.accessToken.value))
    ensures !Truthy(data.accessToken) ==>
      p.store == old(p.store)
      && p.inMemoryToken == old(p.inMemoryToken) && p.defaultAuthorization == old(p.defaultAuthorization)
    ensures p.isRefreshing == old(p.isRefreshing) && p.queue == old(p.queue)
      && p.initiator == old(p.initiator) && p.redirectedToLogin == old(p.redirectedToLogin)
  {
    if Truthy(data.accessToken) {
      p.store := SessionStore(p.store, data, now);
      p.GetToken(data.accessToken);
    }
  }

  /**
   * `login` with the response of `POST /api/auth/login` (Err: the call threw, after the
   * response interceptor had done whatever it does with the failure; `login` rethrows and
   * changes nothing further). The body is returned whether or not it held a token.
   */
  method Login(p: Pipeline, response: Result<LoginData, string>, now: int) returns (r: Result<LoginData, string>)
    modifies p
    ensures r == response
    ensures response.Err? ==> unchanged(p)
    ensures response.Ok? && Truthy(response.value.accessToken) ==>
      p.store == SessionStore(old(p.store), response.value, now)
      && p.inMemoryToken == response.value.accessToken
      && p.defaultAuthorization == Some(Bearer(response.value.accessToken.value))
    ensures response.Ok? && !Truthy(response.value.accessToken) ==>
      p.store == old(p.store)
      && p.inMemoryToken == old(p.inMemoryToken) && p.defaultAuthorization == old(p.defaultAuthorization)
    ensures p.isRefreshing == old(p.isRefreshing) && p.queue == old(p.queue)
      && p.initiator == old(p.initiator) && p.redirectedToLogin == old(p.redirectedToLogin)
  {
    if response.Ok? {
      AdoptSession(p, response.value, now);
    }
    r := response;
  }

  /**
   * `handleOAuthLogin` with the response of `POST /api/auth/oauth-user`: the same effects,
   * keyed on the access token that the response returns, not the one that was sent.
   */
  method HandleOAuthLogin(p: Pipeline, sentToken: string, response: Result<LoginData, string>, now: int)
    returns (r: Result<LoginData, string>)
    modifies p
    ensures r == response
    ensures response.Err? ==> unchanged(p)
    ensures response.Ok? && Truthy(response.value.accessToken) ==>
      p.store == SessionStore(old(p.store), response.value, now)
      && p.inMemoryToken == response.value.accessToken
      && p.defaultAuthorization == Some(Bearer(response.value.accessToken.value))
    ensures response.Ok? && !Truthy(response.value.accessToken) ==>
      p.store == old(p.store)
      && p.inMemoryToken == old(p.inMemoryToken) && p.defaultAuthorization == old(p.defaultAuthorization)
    ensures p.isRefreshing == old(p.isRefreshing) && p.queue == old(p.queue)
      && p.initiator == old(p.initiator) && p.redirectedToLogin == old(p.redirectedToLogin)
  {
    if response.Ok? {
      AdoptSession(p, response.value, now);
    }
    r := response;
  }

  /**
   * `logout` with the outcome of `POST /api/auth/logout`: on success exactly the four session
   * keys go, the token is cleared and the result is true; on failure (what is left once the
   * response interceptor has handled it) the error is rethrown and `logout` changes nothing,
   * because the removals come after the awaited call.
   */
  method Logout(p: Pipeline, response: Result<(), string>) returns (r: Result<bool, string>)
    modifies p
    ensures response.Err? ==> r == Err(response.error) && unchanged(p)
    ensures response.Ok? ==>
      r == Ok(true)
      && p.store == old(p.store) - SessionKeys
      && p.inMemoryToken == None && p.defaultAuthorization == None
      && p.isRefreshing == old(p.isRefreshing) && p.queue == old(p.queue)
      && p.initiator == old(p.initiator) && p.redirectedToLogin == old(p.redirectedToLogin)
  {
    if response.Err? {
      r := Err(response.error);
      return;
    }
    // the four `localStorage.removeItem` calls
    p.store := p.store - SessionKeys;
    p.GetToken(None);
    r := Ok(true);
  }

  /**
   * `getUser`: the stored user record, or null outside a browser or when the key is absent
   * or empty. Parsing the JSON is not modelled: the stored text is returned.
   */
  function GetUser(store: map<string, string>, inBrowser: bool): (u: Option<string>)
    ensures u.Some? <==> inBrowser && UserKey in store && store[UserKey] != ""
    ensures u.Some? ==> u.value == store[UserKey]
  {
    if !inBrowser then None
    else if UserKey !in store || store[UserKey] == "" then None
    else Some(store[UserKey])
  }

  /** After a successful logout no user is reported, whatever was stored. */
  lemma NoUserAfterLogout(store: map<string, string>, inBrowser: bool)
    ensures GetUser(store - SessionKeys, inBrowser) == None
  {
  }

  /** A login that stored a user makes `getUser` return it in a browser. */
  lemma UserAfterLogin(store: map<string, string>, data: LoginData, now: int)
    requires data.accessToken.Some? && data.user.Some? && data.user.value != ""
    ensures GetUser(SessionStore(store, data, now), true) == data.user
  {
  }
}
