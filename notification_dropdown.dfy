/**
 * src/components/NotificationDropdown.tsx: the mentions dropdown. It keeps its own copy of
 * the notification list, marks items read only after the PATCH succeeds, formats ages and
 * previews, and navigates to a message only when both ids of the target resolve.
 */
module NotificationDropdown {
  import opened Wrappers
  import opened Text

  datatype ChannelInfo = ChannelInfo(name: Option<string>, serverId: Option<string>)

  datatype MessageInfo = MessageInfo(id: Option<string>, content: Option<string>, channelId: Option<string>,
                                     channels: Option<ChannelInfo>)

  /** The fields of the dropdown's `Notification` that it reads or writes. */
  datatype Item = Item(id: string, messageId: Option<string>, isRead: bool, message: Option<MessageInfo>)

  // ---------------------------------------------------------------------------------------
  // Formatting
  // ---------------------------------------------------------------------------------------

  /**
   * `formatTimeAgo` on the age in whole seconds: under a minute (negative ages included) it
   * is "just now"; otherwise the whole number of minutes, hours or days, whichever is the
   * largest unit that fits, with its letter.
   */
  function FormatTimeAgo(seconds: int): (r: string)
    ensures seconds < 60 ==> r == "just now"
    ensures 60 <= seconds < 3600 ==> r == NatToString(seconds / 60) + "m" + " ago"
    ensures 3600 <= seconds < 86400 ==> r == NatToString(seconds / 3600) + "h" + " ago"
    ensures 86400 <= seconds ==> r == NatToString(seconds / 86400) + "d" + " ago"
  {
    if seconds < 60 then "just now"
    else if seconds < 3600 then NatToString(seconds / 60) + "m" + " ago"
    else if seconds < 86400 then NatToString(seconds / 3600) + "h" + " ago"
    else NatToString(seconds / 86400) + "d" + " ago"
  }

  /** The number of seconds a unit letter of `FormatTimeAgo` stands for. */
  function UnitSeconds(u: char): nat {
    if u == 'm' then 60 else if u == 'h' then 3600 else 86400
  }

  /**
   * Reading an age back: the digits before the unit letter, times the unit, are at most the
   * age and one more unit is more than it; minutes stay below 60 and hours below 24.
   */
  lemma TimeAgoReadsBack(seconds: int)
    requires seconds >= 60
    ensures var r := FormatTimeAgo(seconds);
      && |r| > 5 && r[|r| - 5] in "mhd" && r[|r| - 4..] == " ago"
      && var n := ParseNat(r[..|r| - 5]);
      && var u := UnitSeconds(r[|r| - 5]);
      && n >= 1 && n * u <= seconds < (n + 1) * u
      && (r[|r| - 5] == 'm' ==> n < 60) && (r[|r| - 5] == 'h' ==> n < 24)
  {
    if seconds < 3600 {
      WholeUnits(seconds, 60, 3600);
      ReadBack(seconds, seconds / 60, "m", 60);
    } else if seconds < 86400 {
      WholeUnits(seconds, 3600, 86400);
      ReadBack(seconds, seconds / 3600, "h", 3600);
    } else {
      WholeUnits(seconds, 86400, seconds + 1);
      ReadBack(seconds, seconds / 86400, "d", 86400);
    }
  }

  /** Whole units of a fixed size: at least one, and `n` of them fit but `n + 1` do not. */
  lemma WholeUnits(x: nat, u: nat, hi: nat)
    requires u in {60, 3600, 86400} && u <= x < hi
    ensures 1 <= x / u && (x / u) * u <= x < (x / u + 1) * u
    ensures u == 60 && hi == 3600 ==> x / u < 60
    ensures u == 3600 && hi == 86400 ==> x / u < 24
  {
    if u == 60 {
      assert 1 <= x / 60 && (x / 60) * 60 <= x < (x / 60 + 1) * 60;
    } else if u == 3600 {
      assert 1 <= x / 3600 && (x / 3600) * 3600 <= x < (x / 3600 + 1) * 3600;
    } else {
      assert 1 <= x / 86400 && (x / 86400) * 86400 <= x < (x / 86400 + 1) * 86400;
    }
  }

  /** Reading back one formatted age, once its count and unit are known. */
  lemma ReadBack(seconds: int, n: nat, unit: string, u: nat)
    requires |unit| == 1 && unit[0] in "mhd" && UnitSeconds(unit[0]) == u
    requires FormatTimeAgo(seconds) == NatToString(n) + unit + " ago"
    requires n >= 1 && n * u <= seconds < (n + 1) * u
    requires (unit[0] == 'm' ==> n < 60) && (unit[0] == 'h' ==> n < 24)
    ensures var r := FormatTimeAgo(seconds);
      && |r| > 5 && r[|r| - 5] in "mhd" && r[|r| - 4..] == " ago"
      && var n := ParseNat(r[..|r| - 5]);
      && var u := UnitSeconds(r[|r| - 5]);
      && n >= 1 && n * u <= seconds < (n + 1) * u
      && (r[|r| - 5] == 'm' ==> n < 60) && (r[|r| - 5] == 'h' ==> n < 24)
  {
    SuffixApart(NatToString(n), unit);
    ParseNatToString(n);
  }

  /** The unit letter and " ago" can be told apart from the digits before them. */
  lemma SuffixApart(d: string, unit: string)
    requires |unit| == 1
    ensures var r := d + unit + " ago";
      |r| == |d| + 5 && r[|r| - 5] == unit[0] && r[|r| - 4..] == " ago" && r[..|r| - 5] == d
  {
  }

  const DefaultMaxLength := 50

  /** `truncateContent`: short content unchanged, longer content cut and marked with "...". */
  function Truncate(content: string, maxLength: nat): (r: string)
    ensures |content| <= maxLength ==> r == content
    ensures |content| > maxLength ==> |r| == maxLength + 3 && r == content[..maxLength] + "..."
    ensures |r| <= maxLength + 3
  {
    if |content| <= maxLength then content else content[..maxLength] + "..."
  }

  /** The preview line of an item: its message's content, or empty, truncated to 50. */
  function Preview(n: Item): (r: string)
    ensures |r| <= DefaultMaxLength + 3
    ensures n.message.None? || n.message.value.content.None? ==> r == ""
    ensures n.message.Some? && n.message.value.content.Some? ==>
      var c := n.message.value.content.value;
      (|c| <= DefaultMaxLength ==> r == c) && (|c| > DefaultMaxLength ==> r == c[..DefaultMaxLength] + "...")
  {
    Truncate(if n.message.Some? then n.message.value.content.GetOr("") else "", DefaultMaxLength)
  }

  // ---------------------------------------------------------------------------------------
  // Read state
  // ---------------------------------------------------------------------------------------

  /** `notifications.some(n => !n.is_read)`, which shows the "Mark all read" control. */
  function AnyUnread(ns: seq<Item>): (b: bool)
    ensures b <==> exists i :: 0 <= i < |ns| && !ns[i].isRead
    decreases |ns|
  {
    if ns == [] then false
    else if !ns[0].isRead then true
    else
      var b := AnyUnread(ns[1..]);
      assert b ==> exists i :: 1 <= i < |ns| && !ns[i].isRead by {
        if b {
          var j :| 0 <= j < |ns[1..]| && !ns[1..][j].isRead;
          assert !ns[j + 1].isRead;
        }
      }
      b
  }

  /** `prev.map(n => n.id === id ? { ...n, is_read: true } : n)`. */
  function MarkItemRead(ns: seq<Item>, id: string): (r: seq<Item>)
    ensures |r| == |ns|
    ensures forall i :: 0 <= i < |ns| ==> r[i] == if ns[i].id == id then ns[i].(isRead := true) else ns[i]
  {
    seq(|ns|, i requires 0 <= i < |ns| => if ns[i].id == id then ns[i].(isRead := true) else ns[i])
  }

  /** `prev.map(n => ({ ...n, is_read: true }))`. */
  function MarkAllItemsRead(ns: seq<Item>): (r: seq<Item>)
    ensures |r| == |ns|
    ensures forall i :: 0 <= i < |ns| ==> r[i] == ns[i].(isRead := true)
  {
    seq(|ns|, i requires 0 <= i < |ns| => ns[i].(isRead := true))
  }

  /**
   * Marking all is idempotent and hides the control; marking one leaves the control shown
   * exactly when some item with another id is still unread.
   */
  lemma MarkReadAndControl(ns: seq<Item>, id: string)
    ensures MarkAllItemsRead(MarkAllItemsRead(ns)) == MarkAllItemsRead(ns)
    ensures !AnyUnread(MarkAllItemsRead(ns))
    ensures AnyUnread(MarkItemRead(ns, id)) <==> exists i :: 0 <= i < |ns| && ns[i].id != id && !ns[i].isRead
  {
    var m := MarkItemRead(ns, id);
    if AnyUnread(m) {
      var i :| 0 <= i < |m| && !m[i].isRead;
      assert ns[i].id != id && !ns[i].isRead;
    }
    if exists i :: 0 <= i < |ns| && ns[i].id != id && !ns[i].isRead {
      var i :| 0 <= i < |ns| && ns[i].id != id && !ns[i].isRead;
      assert !m[i].isRead;
    }
  }

  // ---------------------------------------------------------------------------------------
  // Clicking an item
  // ---------------------------------------------------------------------------------------

  /** `message?.channel_id || message?.channels?.server_id`. */
  function TargetChannel(n: Item): (r: Option<string>)
    ensures r.Some? ==> r.value != ""
    ensures n.message.Some? && Truthy(n.message.value.channelId) ==> r == n.message.value.channelId
    ensures n.message.None? ==> r.None?
    ensures n.message.Some? && !Truthy(n.message.value.channelId) ==>
      var m := n.message.value;
      (m.channels.Some? && Truthy(m.channels.value.serverId) ==> r == m.channels.value.serverId)
      && (!(m.channels.Some? && Truthy(m.channels.value.serverId)) ==> r.None?)
  {
    match n.message
    case None => None
    case Some(m) =>
      if Truthy(m.channelId) then m.channelId
      else if m.channels.Some? && Truthy(m.channels.value.serverId) then m.channels.value.serverId
      else None
  }

  /** `message_id || message?.id`. */
  function TargetMessage(n: Item): (r: Option<string>)
    ensures r.Some? ==> r.value != ""
    ensures Truthy(n.messageId) ==> r == n.messageId
    ensures !Truthy(n.messageId) && n.message.Some? && Truthy(n.message.value.id) ==> r == n.message.value.id
    ensures !Truthy(n.messageId) && !(n.message.Some? && Truthy(n.message.value.id)) ==> r.None?
  {
    if Truthy(n.messageId) then n.messageId
    else if n.message.Some? && Truthy(n.message.value.id) then n.message.value.id
    else None
  }

  /** What a click on an item does: mark it, navigate, close the dropdown. */
  datatype ClickEffect = ClickEffect(markRead: bool, navigate: Option<(string, string)>, close: bool)

  /**
   * The item's click handler: an unread item is marked read; with a navigation handler and
   * both ids resolved it navigates to them and closes, and otherwise stays open.
   */
  function OnItemClick(n: Item, hasHandler: bool): (e: ClickEffect)
    ensures e.markRead <==> !n.isRead
    ensures e.navigate.Some? <==> hasHandler && TargetChannel(n).Some? && TargetMessage(n).Some?
    ensures e.navigate.Some? ==> e.navigate.value == (TargetChannel(n).value, TargetMessage(n).value)
    ensures e.close <==> e.navigate.Some?
  {
    var nav := if hasHandler && TargetChannel(n).Some? && TargetMessage(n).Some?
      then Some((TargetChannel(n).value, TargetMessage(n).value)) else None;
    ClickEffect(!n.isRead, nav, nav.Some?)
  }

  /** An item whose message is missing never navigates, whatever its own message id. */
  lemma NoMessageNoNavigation(n: Item, hasHandler: bool)
    requires n.message.None?
    ensures OnItemClick(n, hasHandler).navigate.None? && !OnItemClick(n, hasHandler).close
  {
  }

  // ---------------------------------------------------------------------------------------
  // The component's state
  // ---------------------------------------------------------------------------------------

  /** What `loadNotifications` got back. */
  datatype LoadResponse = NoUser | Failed | ArrayData(items: seq<Item>) | NotArray

  class Dropdown {
    var notifications: seq<Item>
    var loading: bool

    constructor ()
      ensures notifications == [] && loading
    {
      notifications, loading := [], true;
    }

    /** Shows the "Mark all read" control. */
    predicate ShowsMarkAll()
      reads this
    {
      AnyUnread(notifications)
    }

    /**
     * `loadNotifications`: without a user nothing but the spinner changes; an array response
     * replaces the list; anything else, or a failure, empties it.
     */
    method LoadNotifications(response: LoadResponse)
      modifies this
      ensures response.NoUser? ==> notifications == old(notifications)
      ensures response.ArrayData? ==> notifications == response.items
      ensures response.Failed? || response.NotArray? ==> notifications == []
      ensures !loading
    {
      loading := true;
      match response {
        case NoUser =>
        case ArrayData(items) => notifications := items;
        case _ => notifications := [];
      }
      loading := false;
    }

    /**
     * `markAsRead`: only after the PATCH succeeds are the items with that id marked read, and
     * only then is the hook's own mark-read called.
     */
    method MarkAsRead(id: string, patched: bool) returns (hookCalled: bool)
      modifies this`notifications
      ensures hookCalled <==> patched
      ensures notifications == if patched then MarkItemRead(old(notifications), id) else old(notifications)
    {
      if !patched {
        return false;
      }
      notifications := MarkItemRead(notifications, id);
      hookCalled := true;
    }

    /**
     * `markAllAsRead`: after a successful PATCH every item is read, the hook's mark-all is
     * called and a reload is scheduled; after a failure nothing happens.
     */
    method MarkAllAsRead(patched: bool) returns (hookCalled: bool, reloadScheduled: bool)
      modifies this`notifications
      ensures hookCalled <==> patched
      ensures reloadScheduled <==> patched
      ensures notifications == if patched then MarkAllItemsRead(old(notifications)) else old(notifications)
      ensures patched ==> !ShowsMarkAll()
    {
      if !patched {
        return false, false;
      }
      notifications := MarkAllItemsRead(notifications);
      MarkReadAndControl(old(notifications), "");
      hookCalled, reloadScheduled := true, true;
    }
  }
}
