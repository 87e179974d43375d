/**
 * The cookie-session refresh pipeline of src/utils/apiClient.ts. The session itself travels
 * in cookies, so the interceptor attaches no header and stores no token; it keeps the same
 * refresh flag and queue, and its only storage effect is removing `token` and `user`. Unlike
 * the bearer pipeline, a 401 on an already retried request or on the refresh endpoint logs
 * the user out.
 */
module CookiePipeline {
  import opened Wrappers
  import opened Http

  const TokenKey := "token"
  const UserKey := "user"

  /** The only keys this pipeline removes. */
  const LoggedOutKeys: set<string> := {TokenKey, UserKey}

  /** A request parked behind the refresh in flight. */
  datatype Waiter = Waiter(request: Request)

  /** How a parked request ends: replayed as it was, or rejected with a reason. */
  datatype Settlement = Replayed(request: Request) | Rejected(reason: string)

  /** The four ways the response interceptor can treat an error. */
  datatype Reaction = PassThrough | ForceLogin | Enqueue | StartRefresh

  /** The response interceptor's choice (src/utils/apiClient.ts:39-59). */
  function Decide(req: Request, status: Option<int>, inBrowser: bool, refreshing: bool): (d: Reaction)
    ensures !inBrowser || status != Some(Unauthorized) ==> d == PassThrough
    ensures d == ForceLogin <==>
      inBrowser && status == Some(Unauthorized) && (req.retry || IsRefreshCall(req))
    ensures refreshing ==> d != StartRefresh
    ensures d == StartRefresh <==>
      inBrowser && status == Some(Unauthorized) && !req.retry && !IsRefreshCall(req) && !refreshing
    ensures d == Enqueue <==>
      inBrowser && status == Some(Unauthorized) && !req.retry && !IsRefreshCall(req) && refreshing
  {
    if !inBrowser || status != Some(Unauthorized) then PassThrough
    else if req.retry || IsRefreshCall(req) then ForceLogin
    else if refreshing then Enqueue
    else StartRefresh
  }

  /** How `processQueue(error)` settles one waiter: rejected with the error, or replayed unchanged. */
  function Settle(w: Waiter, error: Option<string>): (s: Settlement)
    ensures error.Some? ==> s == Rejected(error.value)
    ensures error.None? ==> s == Replayed(w.request)
  {
    if error.Some? then Rejected(error.value) else Replayed(w.request)
  }

  /** What the caller of a failed request sees once the interceptor has run. */
  datatype ErrorOutcome =
    | PassedThrough       // rejected with the original error, nothing changed
    | LoggedOut           // rejected after removing `token` and `user` and redirecting
    | Parked              // waiting in the queue
    | RefreshIssued       // this request started `POST /api/auth/refresh`, sent without a body

  class Pipeline {
    var isRefreshing: bool
    var queue: seq<Waiter>
    var store: map<string, string>
    var redirectedToLogin: bool
    /** The request whose 401 started the refresh in flight, already marked `_retry`. */
    var initiator: Option<Request>

    /** Single flight: a refresh is in flight exactly when it has an initiator, and requests wait only then. */
    ghost predicate Valid()
      reads this
    {
      && (isRefreshing <==> initiator.Some?)
      && (!isRefreshing ==> queue == [])
      && (initiator.Some? ==> initiator.value.retry)
    }

    /** The module loading with `initialStore` as localStorage (src/utils/apiClient.ts:5-11). */
    constructor (initialStore: map<string, string>)
      ensures Valid() && !isRefreshing && queue == [] && store == initialStore && !redirectedToLogin
    {
      isRefreshing := false;
      queue := [];
      store := initialStore;
      redirectedToLogin := false;
      initiator := None;
    }

    /** `processQueue(error)`: settles every waiter once, in order, then empties the queue. */
    method ProcessQueue(error: Option<string>) returns (settled: seq<Settlement>)
      modifies this`queue
      ensures queue == []
      ensures |settled| == |old(queue)|
      ensures forall i :: 0 <= i < |settled| ==> settled[i] == Settle(old(queue)[i], error)
    {
      settled := [];
      var i := 0;
      while i < |queue|
        invariant 0 <= i <= |queue|
        invariant |settled| == i
        invariant forall k :: 0 <= k < i ==> settled[k] == Settle(queue[k], error)
      {
        settled := settled + [Settle(queue[i], error)];
        i := i + 1;
      }
      queue := [];
    }

    /** Removing `token` and `user` and sending the browser to the login page. */
    method ClearAndRedirect()
      modifies this`store, this`redirectedToLogin
      ensures store == old(store) - LoggedOutKeys && redirectedToLogin
    {
      store := store - {TokenKey};
      store := store - {UserKey};
      redirectedToLogin := true;
    }

    /**
     * The response interceptor on a failed response with `status` (None: no response at all).
     * Only the request that starts a refresh is marked `_retry`, and it is marked before the
     * refresh call goes out.
     */
    method OnError(req: Request, status: Option<int>, inBrowser: bool) returns (out: ErrorOutcome)
      requires Valid()
      modifies this
      ensures Valid()
      ensures Decide(req, status, inBrowser, old(isRefreshing)) == PassThrough ==>
        out == PassedThrough && unchanged(this)
      ensures Decide(req, status, inBrowser, old(isRefreshing)) == ForceLogin ==>
        out == LoggedOut && store == old(store) - LoggedOutKeys && redirectedToLogin
        && isRefreshing == old(isRefreshing) && queue == old(queue) && initiator == old(initiator)
      ensures Decide(req, status, inBrowser, old(isRefreshing)) == Enqueue ==>
        out == Parked && queue == old(queue) + [Waiter(req)] && isRefreshing
        && store == old(store) && initiator == old(initiator) && redirectedToLogin == old(redirectedToLogin)
      ensures Decide(req, status, inBrowser, old(isRefreshing)) == StartRefresh ==>
        out == RefreshIssued && isRefreshing && initiator == Some(req.(retry := true)) && queue == []
        && store == old(store) && redirectedToLogin == old(redirectedToLogin)
    {
      var d := Decide(req, status, inBrowser, isRefreshing);
      if d == PassThrough {
        out := PassedThrough;
      } else if d == ForceLogin {
        ClearAndRedirect();
        out := LoggedOut;
      } else if d == Enqueue {
        queue := queue + [Waiter(req)];
        out := Parked;
      } else {
        initiator := Some(req.(retry := true));
        isRefreshing := true;
        out := RefreshIssued;
      }
    }

    /**
     * The refresh call resolved: every waiter is released and replays its request unchanged
     * (no token is handed over), and the initiator is replayed once; the flag is cleared.
     */
    method RefreshSucceeded() returns (settled: seq<Settlement>, replay: Request)
      requires Valid() && isRefreshing
      modifies this
      ensures Valid() && !isRefreshing && queue == [] && initiator == None
      ensures store == old(store) && redirectedToLogin == old(redirectedToLogin)
      ensures |settled| == |old(queue)|
      ensures forall i :: 0 <= i < |settled| ==> settled[i] == Replayed(old(queue)[i].request)
      ensures replay == old(initiator).value
      ensures replay.retry && forall s :: Decide(replay, s, true, false) != StartRefresh
    {
      settled := ProcessQueue(None);
      replay := initiator.value;
      isRefreshing := false;
      initiator := None;
    }

    /** The refresh call rejected with `reason`: every waiter rejects, `token` and `user` go, redirect. */
    method RefreshFailed(reason: string) returns (settled: seq<Settlement>)
      requires Valid() && isRefreshing
      modifies this
      ensures Valid() && !isRefreshing && queue == [] && initiator == None
      ensures |settled| == |old(queue)|
      ensures forall i :: 0 <= i < |settled| ==> settled[i] == Rejected(reason)
      ensures store == old(store) - LoggedOutKeys && redirectedToLogin
    {
      settled := ProcessQueue(Some(reason));
      ClearAndRedirect();
      isRefreshing := false;
      initiator := None;
    }
  }
}
