/**
 * src/hooks/useNotifications.ts: the mention feed hook. The feed is the list of mention
 * notifications and the unread counter; socket events and the two mark-read calls move it
 * from one value to the next. The socket itself, the browser Notification API and the HTTP
 * client are outside the model: their outcomes are parameters.
 */
module Notifications {
  import opened Wrappers

  /** The fields of `MentionNotification` the hook reads or writes. */
  datatype Notice = Notice(id: string, messageId: string, channelId: string, senderUsername: string,
                           content: string, isRead: Option<bool>)

  datatype Feed = Feed(notifications: seq<Notice>, unreadCount: int)

  /** How many notifications the feed keeps. */
  const Capacity := 50

  /** A feed the hook can reach: never more than `Capacity` items, never a negative counter. */
  predicate FeedOk(f: Feed) {
    |f.notifications| <= Capacity && f.unreadCount >= 0
  }

  /** `prev.slice(0, k)`: the first `k` items, or all of them when there are fewer. */
  function Take<T>(s: seq<T>, k: nat): (r: seq<T>)
    ensures |r| == if |s| < k then |s| else k
    ensures r == s[..|r|]
  {
    if |s| < k then s else s[..k]
  }

  /**
   * `mention_notification`: the new item goes first, followed by at most the 49 newest of the
   * old ones, and the counter goes up by exactly one.
   */
  function Receive(f: Feed, n: Notice): (r: Feed)
    ensures 1 <= |r.notifications| <= Capacity && |r.notifications| <= |f.notifications| + 1
    ensures r.notifications[0] == n
    ensures r.notifications[1..] == f.notifications[..|r.notifications| - 1]
    ensures |f.notifications| < Capacity ==> |r.notifications| == |f.notifications| + 1
    ensures r.unreadCount == f.unreadCount + 1
  {
    Feed([n] + Take(f.notifications, Capacity - 1), f.unreadCount + 1)
  }

  /** `map(n => n.id === id ? { ...n, isRead: true } : n)`. */
  function MarkRead(ns: seq<Notice>, id: string): (r: seq<Notice>)
    ensures |r| == |ns|
    ensures forall i :: 0 <= i < |ns| ==> r[i] == if ns[i].id == id then ns[i].(isRead := Some(true)) else ns[i]
  {
    seq(|ns|, i requires 0 <= i < |ns| => if ns[i].id == id then ns[i].(isRead := Some(true)) else ns[i])
  }

  /** `Math.max(0, prev - 1)`. */
  function Decrement(c: int): (r: int)
    ensures r >= 0
    ensures c >= 1 ==> r == c - 1
    ensures c <= 1 ==> r == 0
  {
    if c - 1 > 0 then c - 1 else 0
  }

  /**
   * One mark-read, from the `mention_marked_read` event or after a successful PATCH: the items
   * with that id are marked read and the counter drops by one, down to zero at most, whether or
   * not the item was unread or even present.
   */
  function ApplyMarkRead(f: Feed, id: string): (r: Feed)
    ensures r.notifications == MarkRead(f.notifications, id)
    ensures r.unreadCount == Decrement(f.unreadCount)
  {
    Feed(MarkRead(f.notifications, id), Decrement(f.unreadCount))
  }

  /** Marking one item touches no other item, and marking it twice marks it once. */
  lemma MarkReadProperties(ns: seq<Notice>, id: string)
    ensures forall i :: 0 <= i < |ns| ==> MarkRead(ns, id)[i].id == ns[i].id
    ensures forall i :: 0 <= i < |ns| && ns[i].id == id ==> MarkRead(ns, id)[i].isRead == Some(true)
    ensures forall i :: 0 <= i < |ns| && ns[i].id != id ==> MarkRead(ns, id)[i] == ns[i]
    ensures MarkRead(MarkRead(ns, id), id) == MarkRead(ns, id)
  {
  }

  /** `markAsRead`: the PATCH's outcome decides; the event is emitted only with a socket. */
  function MarkAsRead(f: Feed, id: string, patched: bool, hasSocket: bool): (r: (Feed, seq<string>))
    ensures !patched ==> r == (f, [])
    ensures patched ==> r.0 == ApplyMarkRead(f, id)
    ensures patched ==> r.1 == if hasSocket then [id] else []
  {
    if !patched then (f, [])
    else (ApplyMarkRead(f, id), if hasSocket then [id] else [])
  }

  /** `prev.map(n => ({ ...n, isRead: true }))`. */
  function MarkAll(ns: seq<Notice>): (r: seq<Notice>)
    ensures |r| == |ns|
    ensures forall i :: 0 <= i < |ns| ==> r[i] == ns[i].(isRead := Some(true))
  {
    seq(|ns|, i requires 0 <= i < |ns| => ns[i].(isRead := Some(true)))
  }

  /** After marking all, every item is read, the ids keep their places, and doing it again changes nothing. */
  lemma MarkAllProperties(ns: seq<Notice>)
    ensures forall i :: 0 <= i < |ns| ==> MarkAll(ns)[i].isRead == Some(true) && MarkAll(ns)[i].id == ns[i].id
    ensures MarkAll(MarkAll(ns)) == MarkAll(ns)
  {
  }

  /**
   * The `forEach` over the returned ids: one `mention_read` event per id, in order, and none
   * without a socket or without an id list in the response.
   */
  method EmitMarked(hasSocket: bool, markedIds: Option<seq<string>>) returns (emits: seq<string>)
    ensures emits == if hasSocket && markedIds.Some? then markedIds.value else []
  {
    emits := [];
    if !hasSocket || markedIds.None? {
      return;
    }
    var ids := markedIds.value;
    var i := 0;
    while i < |ids|
      invariant 0 <= i <= |ids|
      invariant emits == ids[..i]
    {
      emits := emits + [ids[i]];
      i := i + 1;
    }
  }

  /**
   * `markAllAsRead`: `patch` is the PATCH outcome, holding the response's `markedIds` if it
   * has any. On success every item is read, the counter is zero and one event goes out per
   * marked id; on failure nothing changes and nothing is emitted.
   */
  method MarkAllAsRead(f: Feed, patch: Result<Option<seq<string>>, ()>, hasSocket: bool)
    returns (r: Feed, emits: seq<string>)
    ensures patch.Err? ==> r == f && emits == []
    ensures patch.Ok? ==> r == Feed(MarkAll(f.notifications), 0)
    ensures patch.Ok? ==> emits == if hasSocket && patch.value.Some? then patch.value.value else []
  {
    if patch.Err? {
      return f, [];
    }
    r := Feed(MarkAll(f.notifications), 0);
    emits := EmitMarked(hasSocket, patch.value);
  }

  /** What `GET /api/mentions?unreadOnly=true` answered with. */
  datatype CountResponse =
    | NoUser               // `getUser()` gave no id: nothing is fetched
    | Failed               // the request rejected; the error is ignored
    | Falsy                // `response.data` is null, empty or otherwise falsy
    | ArrayData(len: nat)  // an array with `len` items
    | OtherData            // any other truthy value

  /** The initial count: the array's length, 0 for any other truthy data, else unchanged. */
  function InitialCount(c: int, response: CountResponse): (r: int)
    ensures response.ArrayData? ==> r == response.len
    ensures response.OtherData? ==> r == 0
    ensures !response.ArrayData? && !response.OtherData? ==> r == c
  {
    match response
    case ArrayData(n) => n
    case OtherData => 0
    case _ => c
  }

  /** Every transition keeps the feed within capacity and the counter non-negative. */
  lemma TransitionsKeepFeedOk(f: Feed, n: Notice, id: string, patched: bool, hasSocket: bool, response: CountResponse)
    requires FeedOk(f)
    ensures FeedOk(Receive(f, n))
    ensures FeedOk(ApplyMarkRead(f, id))
    ensures FeedOk(MarkAsRead(f, id, patched, hasSocket).0)
    ensures FeedOk(Feed(MarkAll(f.notifications), 0))
    ensures FeedOk(f.(unreadCount := InitialCount(f.unreadCount, response)))
  {
  }

  /**
   * A new mention followed by its own read confirmation: the item is first in the feed and
   * read, and the counter is back where it was.
   */
  lemma ReceiveThenRead(f: Feed, n: Notice)
    requires f.unreadCount >= 0
    ensures var r := ApplyMarkRead(Receive(f, n), n.id);
      r.notifications[0] == n.(isRead := Some(true)) && r.unreadCount == f.unreadCount
  {
  }
}
