/**
 * The header-bearer refresh pipeline of src/app/api/axios.ts. Its module state (the refresh
 * flag, the queue of parked requests, the in-memory access token and the default
 * `Authorization` header) and the browser's localStorage are the fields of one object; the
 * request interceptor, the response interceptor and the two ways a refresh can settle are its
 * methods. Network outcomes arrive as inputs and the clock as the parameter `now`.
 */
module BearerPipeline {
  import opened Wrappers
  import opened Text
  import opened Http

  const AccessTokenKey := "access_token"
  const RefreshTokenKey := "refresh_token"
  const ExpiryKey := "tokenExpiry"
  const UserKey := "user"

  /** The keys that hold a session in localStorage. */
  const SessionKeys: set<string> := {AccessTokenKey, RefreshTokenKey, ExpiryKey, UserKey}

  const NoTokenAfterRefresh := "No token after refresh"
  const NoRefreshToken := "No refresh token available"
  const LoginPath := "/login"

  /** What a successful refresh call returns. */
  datatype TokenGrant = TokenGrant(accessToken: string, refreshToken: string, expiresIn: int)

  /** A request whose 401 arrived while a refresh was in flight, waiting for it to settle. */
  datatype Waiter = Waiter(request: Request)

  /** How a parked request ends: replayed with a new header, or rejected with a reason. */
  datatype Settlement = Replayed(request: Request) | Rejected(reason: string)

  /** The three ways the response interceptor can treat an error. */
  datatype Reaction = PassThrough | Enqueue | StartRefresh

  /** What the caller of a failed request sees once the interceptor has run. */
  datatype ErrorOutcome =
    | PassedThrough                        // rejected with the original error
    | Parked                               // waiting in the queue
    | RefreshIssued(refreshToken: string)  // this request started a refresh, posted with that body
    | Abandoned(settled: seq<Settlement>)  // no refresh token: the failure path ran at once

  /** The response interceptor's choice (src/app/api/axios.ts:46-66). */
  function Decide(req: Request, status: Option<int>, inBrowser: bool, refreshing: bool): (d: Reaction)
    ensures !inBrowser || status != Some(Unauthorized) ==> d == PassThrough
    ensures IsRefreshCall(req) || req.retry ==> d == PassThrough
    ensures refreshing ==> d != StartRefresh
    ensures d == StartRefresh <==>
      inBrowser && status == Some(Unauthorized) && !IsRefreshCall(req) && !req.retry && !refreshing
    ensures d == Enqueue <==>
      inBrowser && status == Some(Unauthorized) && !IsRefreshCall(req) && !req.retry && refreshing
  {
    if !inBrowser || status != Some(Unauthorized) then PassThrough
    else if IsRefreshCall(req) then PassThrough
    else if req.retry then PassThrough
    else if refreshing then Enqueue
    else StartRefresh
  }

  /**
   * How `processQueue(error, token)` settles one waiter: rejected with the error when there is
   * one; otherwise its `.then` replays the request with the token, or throws when the token is
   * missing or empty.
   */
  function Settle(w: Waiter, error: Option<string>, token: Option<string>): (s: Settlement)
    ensures error.Some? ==> s == Rejected(error.value)
    ensures error.None? && !Truthy(token) ==> s == Rejected(NoTokenAfterRefresh)
    ensures error.None? && Truthy(token) ==>
      s == Replayed(w.request.(authorization := Some(Bearer(token.value))))
  {
    if error.Some? then Rejected(error.value)
    else if !Truthy(token) then Rejected(NoTokenAfterRefresh)
    else Replayed(w.request.(authorization := Some(Bearer(token.value))))
  }

  /** `localStorage.getItem("refresh_token")` is truthy. */
  predicate HasRefreshToken(store: map<string, string>) {
    RefreshTokenKey in store && store[RefreshTokenKey] != ""
  }

  /** The expiry timestamp, in milliseconds, that a grant received at `now` is stored with. */
  function ExpiryTime(grant: TokenGrant, now: int): int {
    now + grant.expiresIn * 1000
  }

  /** The store after the three writes of a successful refresh (src/app/api/axios.ts:86-90). */
  function GrantStore(store: map<string, string>, grant: TokenGrant, now: int): (s: map<string, string>)
    ensures s.Keys == store.Keys + {AccessTokenKey, RefreshTokenKey, ExpiryKey}
    ensures s[AccessTokenKey] == grant.accessToken && s[RefreshTokenKey] == grant.refreshToken
    ensures s[ExpiryKey] == IntToString(ExpiryTime(grant, now))
    ensures forall k :: k in store && k !in {AccessTokenKey, RefreshTokenKey, ExpiryKey} ==> s[k] == store[k]
  {
    store[AccessTokenKey := grant.accessToken][RefreshTokenKey := grant.refreshToken]
      [ExpiryKey := IntToString(ExpiryTime(grant, now))]
  }

  /** The stored expiry reads back as `now + expiresIn * 1000`. */
  lemma ExpiryReadsBack(store: map<string, string>, grant: TokenGrant, now: int)
    requires ExpiryTime(grant, now) >= 0
    ensures var e := GrantStore(store, grant, now)[ExpiryKey];
      (forall i :: 0 <= i < |e| ==> IsDigit(e[i])) && ParseNat(e) == ExpiryTime(grant, now)
  {
    ParseNatToString(ExpiryTime(grant, now));
  }

  class Pipeline {
    var isRefreshing: bool
    var queue: seq<Waiter>
    var store: map<string, string>
    var inMemoryToken: Option<string>
    /** `api.defaults.headers.common.Authorization`. */
    var defaultAuthorization: Option<string>
    var redirectedToLogin: bool
    /** The request whose 401 started the refresh in flight, already marked `_retry`. */
    var initiator: Option<Request>

    /** Single flight: a refresh is in flight exactly when it has an initiator, and requests wait only then. */
    ghost predicate Valid()
      reads this
    {
      && (isRefreshing <==> initiator.Some?)
      && (!isRefreshing ==> queue == [])
      && (initiator.Some? ==> initiator.value.retry)
    }

    /**
     * The module loading in a browser whose localStorage is `initialStore`: a stored access
     * token becomes the in-memory token (src/app/api/axios.ts:5-11, 160-165).
     */
    constructor (initialStore: map<string, string>, inBrowser: bool)
      ensures Valid() && !isRefreshing && queue == [] && !redirectedToLogin
      ensures store == initialStore
      ensures inBrowser && AccessTokenKey in initialStore && initialStore[AccessTokenKey] != "" ==>
        inMemoryToken == Some(initialStore[AccessTokenKey])
        && defaultAuthorization == Some(Bearer(initialStore[AccessTokenKey]))
      ensures !(inBrowser && AccessTokenKey in initialStore && initialStore[AccessTokenKey] != "") ==>
        inMemoryToken == None && defaultAuthorization == None
    {
      isRefreshing := false;
      queue := [];
      store := initialStore;
      inMemoryToken := None;
      defaultAuthorization := None;
      redirectedToLogin := false;
      initiator := None;
      if inBrowser && AccessTokenKey in initialStore && initialStore[AccessTokenKey] != "" {
        inMemoryToken := Some(initialStore[AccessTokenKey]);
        defaultAuthorization := Some(Bearer(initialStore[AccessTokenKey]));
      }
    }

    /**
     * `getToken(token)`: the in-memory token becomes `token` (an empty string included, as
     * `??` keeps it); the default header is set for a non-empty token and deleted otherwise.
     */
    method GetToken(token: Option<string>)
      modifies this`inMemoryToken, this`defaultAuthorization
      ensures inMemoryToken == token
      ensures Truthy(token) ==> defaultAuthorization == Some(Bearer(token.value))
      ensures !Truthy(token) ==> defaultAuthorization == None
    {
      inMemoryToken := token;
      if Truthy(token) {
        defaultAuthorization := Some(Bearer(token.value));
      } else {
        defaultAuthorization := None;
      }
    }

    /**
     * The request interceptor: a request gets `Bearer <token>` only when a non-empty in-memory
     * token exists and the request carries no non-empty Authorization header of its own.
     */
    method OnRequest(req: Request) returns (r: Request)
      ensures r.url == req.url && r.retry == req.retry
      ensures Truthy(req.authorization) || !Truthy(inMemoryToken) ==> r == req
      ensures !Truthy(req.authorization) && Truthy(inMemoryToken) ==>
        r.authorization == Some(Bearer(inMemoryToken.value))
    {
      r := req;
      if Truthy(inMemoryToken) && !Truthy(req.authorization) {
        r := req.(authorization := Some(Bearer(inMemoryToken.value)));
      }
    }

    /** `processQueue(error, token)`: settles every waiter once, in order, then empties the queue. */
    method ProcessQueue(error: Option<string>, token: Option<string>) returns (settled: seq<Settlement>)
      modifies this`queue
      ensures queue == []
      ensures |settled| == |old(queue)|
      ensures forall i :: 0 <= i < |settled| ==> settled[i] == Settle(old(queue)[i], error, token)
    {
      settled := [];
      var i := 0;
      while i < |queue|
        invariant 0 <= i <= |queue|
        invariant |settled| == i
        invariant forall k :: 0 <= k < i ==> settled[k] == Settle(queue[k], error, token)
      {
        settled := settled + [Settle(queue[i], error, token)];
        i := i + 1;
      }
      queue := [];
    }

    /** The catch block: waiters rejected, session keys removed, redirect to the login page. */
    method FailRefresh(reason: string) returns (settled: seq<Settlement>)
      requires Valid()
      modifies this`queue, this`store, this`redirectedToLogin, this`isRefreshing, this`initiator
      ensures Valid() && !isRefreshing && queue == [] && initiator == None
      ensures |settled| == |old(queue)|
      ensures forall i :: 0 <= i < |settled| ==> settled[i] == Rejected(reason)
      ensures store == old(store) - SessionKeys
      ensures redirectedToLogin
      ensures inMemoryToken == old(inMemoryToken) && defaultAuthorization == old(defaultAuthorization)
    {
      settled := ProcessQueue(Some(reason), None);
      // the four `localStorage.removeItem` calls
      store := store - SessionKeys;
      redirectedToLogin := true;
      isRefreshing := false;
      initiator := None;
    }

    /**
     * The response interceptor on a failed response with `status` (None: no response at all).
     * Only the request that starts a refresh is marked `_retry`; a request that arrives while a
     * refresh is in flight is parked and never starts a second one.
     */
    method OnError(req: Request, status: Option<int>, inBrowser: bool) returns (out: ErrorOutcome)
      requires Valid()
      modifies this
      ensures Valid()
      ensures Decide(req, status, inBrowser, old(isRefreshing)) == PassThrough ==>
        out == PassedThrough && unchanged(this)
      ensures Decide(req, status, inBrowser, old(isRefreshing)) == Enqueue ==>
        out == Parked && queue == old(queue) + [Waiter(req)] && isRefreshing
        && store == old(store) && initiator == old(initiator) && redirectedToLogin == old(redirectedToLogin)
        && inMemoryToken == old(inMemoryToken) && defaultAuthorization == old(defaultAuthorization)
      ensures Decide(req, status, inBrowser, old(isRefreshing)) == StartRefresh && HasRefreshToken(old(store)) ==>
        out == RefreshIssued(old(store)[RefreshTokenKey])
        && isRefreshing && initiator == Some(req.(retry := true)) && queue == []
        && store == old(store) && redirectedToLogin == old(redirectedToLogin)
        && inMemoryToken == old(inMemoryToken) && defaultAuthorization == old(defaultAuthorization)
      ensures Decide(req, status, inBrowser, old(isRefreshing)) == StartRefresh && !HasRefreshToken(old(store)) ==>
        out == Abandoned([]) && !isRefreshing && queue == []
        && store == old(store) - SessionKeys && redirectedToLogin
        && inMemoryToken == old(inMemoryToken) && defaultAuthorization == old(defaultAuthorization)
    {
      var d := Decide(req, status, inBrowser, isRefreshing);
      if d == PassThrough {
        out := PassedThrough;
      } else if d == Enqueue {
        queue := queue + [Waiter(req)];
        out := Parked;
      } else {
        initiator := Some(req.(retry := true));
        isRefreshing := true;
        if HasRefreshToken(store) {
          out := RefreshIssued(store[RefreshTokenKey]);
        } else {
          var settled := FailRefresh(NoRefreshToken);
          out := Abandoned(settled);
        }
      }
    }

    /**
     * The refresh call resolved with `grant` at time `now`: the new tokens and expiry are
     * stored, the token and default header adopted, every waiter resolved with the new token,
     * and the initiator replayed once with it; the flag is cleared.
     */
    method RefreshSucceeded(grant: TokenGrant, now: int) returns (settled: seq<Settlement>, replay: Request)
      requires Valid() && isRefreshing
      modifies this
      ensures Valid() && !isRefreshing && queue == [] && initiator == None
      ensures store == GrantStore(old(store), grant, now)
      ensures inMemoryToken == Some(grant.accessToken)
      ensures defaultAuthorization == Some(Bearer(grant.accessToken))
      ensures redirectedToLogin == old(redirectedToLogin)
      ensures |settled| == |old(queue)|
      ensures forall i :: 0 <= i < |settled| ==> settled[i] == Settle(old(queue)[i], None, Some(grant.accessToken))
      ensures replay == old(initiator).value.(authorization := Some(Bearer(grant.accessToken)))
      ensures replay.retry && forall s, b, f :: Decide(replay, s, b, f) == PassThrough
    {
      store := GrantStore(store, grant, now);
      inMemoryToken := Some(grant.accessToken);
      defaultAuthorization := Some(Bearer(grant.accessToken));
      settled := ProcessQueue(None, Some(grant.accessToken));
      replay := initiator.value.(authorization := Some(Bearer(grant.accessToken)));
      isRefreshing := false;
      initiator := None;
    }

    /** The refresh call rejected with `reason`: the failure path, and the initiator rejects with it. */
    method RefreshFailed(reason: string) returns (settled: seq<Settlement>)
      requires Valid() && isRefreshing
      modifies this
      ensures Valid() && !isRefreshing && queue == [] && initiator == None
      ensures |settled| == |old(queue)|
      ensures forall i :: 0 <= i < |settled| ==> settled[i] == Rejected(reason)
      ensures store == old(store) - SessionKeys && redirectedToLogin
      ensures inMemoryToken == old(inMemoryToken) && defaultAuthorization == old(defaultAuthorization)
    {
      settled := FailRefresh(reason);
    }

    /**
     * The exported `refreshToken()`: with no stored refresh token it posts nothing and returns
     * null; otherwise it posts the token, and on success stores and adopts the grant. A failed
     * call returns null and changes nothing. It leaves the flag and the queue alone.
     */
    method RefreshToken(response: Result<TokenGrant, string>, now: int) returns (posted: Option<string>, r: Option<TokenGrant>)
      modifies this
      ensures posted == (if HasRefreshToken(old(store)) then Some(old(store)[RefreshTokenKey]) else None)
      ensures posted.None? || response.Err? ==> r == None && unchanged(this)
      ensures posted.Some? && response.Ok? ==>
        r == Some(response.value)
        && store == GrantStore(old(store), response.value, now)
        && inMemoryToken == Some(response.value.accessToken)
        && defaultAuthorization == Some(Bearer(response.value.accessToken))
        && isRefreshing == old(isRefreshing) && queue == old(queue) && initiator == old(initiator)
        && redirectedToLogin == old(redirectedToLogin)
    {
      if HasRefreshToken(store) {
        posted := Some(store[RefreshTokenKey]);
        if response.Ok? {
          store := GrantStore(store, response.value, now);
          inMemoryToken := Some(response.value.accessToken);
          defaultAuthorization := Some(Bearer(response.value.accessToken));
          r := Some(response.value);
        } else {
          r := None;
        }
      } else {
        posted := None;
        r := None;
      }
    }
  }
}
