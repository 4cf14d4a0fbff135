/**
 * The notification endpoints over a table of notification records: the
 * caller's inbox with an optional unread filter, the unread count, and
 * marking one or all notifications read. Ordering (`latest()`) and
 * pagination are not modelled: the inbox keeps table order.
 */
module Inbox {
  import opened Common
  import opened Roles

  /** A notification row; timestamps are opaque integers. */
  datatype Notification = Notification(id: nat, userId: Option<nat>, readAt: Option<int>)

  /** `where('user_id', $user->id)`: a notification without a user belongs to nobody. */
  predicate OwnedBy(n: Notification, userId: nat) {
    n.userId == Some(userId)
  }

  predicate Unread(n: Notification) {
    n.readAt.None?
  }

  /** `$request->boolean(...)`: the accepted spellings of true. */
  predicate Truthy(s: string) {
    s in {"1", "true", "on", "yes"}
  }

  /** `$request->has('unread') && $request->boolean('unread')`. */
  predicate UnreadOnly(param: Option<string>) {
    param.Some? && Truthy(param.value)
  }

  /** Whether the inbox listing keeps this notification. */
  predicate Listed(n: Notification, userId: nat, unreadOnly: bool) {
    OwnedBy(n, userId) && (unreadOnly ==> Unread(n))
  }

  /** index: the caller's notifications, only the unread ones when asked, in table order. */
  function Index(ns: seq<Notification>, caller: Actor, unreadParam: Option<string>): (r: seq<Notification>)
    ensures |r| <= |ns|
    ensures forall i :: 0 <= i < |r| ==> r[i] in ns && Listed(r[i], caller.id, UnreadOnly(unreadParam))
    ensures forall i :: 0 <= i < |ns| && Listed(ns[i], caller.id, UnreadOnly(unreadParam)) ==> ns[i] in r
    decreases |ns|
  {
    if |ns| == 0 then []
    else
      var rest := Index(ns[..|ns| - 1], caller, unreadParam);
      var last := ns[|ns| - 1];
      assert forall i :: 0 <= i < |ns| - 1 ==> ns[..|ns| - 1][i] == ns[i];
      if Listed(last, caller.id, UnreadOnly(unreadParam)) then rest + [last] else rest
  }

  /** The number of the user's unread notifications, by direct recursion. */
  function UnreadOf(ns: seq<Notification>, userId: nat): nat {
    if |ns| == 0 then 0
    else UnreadOf(ns[..|ns| - 1], userId) + (if OwnedBy(ns[|ns| - 1], userId) && Unread(ns[|ns| - 1]) then 1 else 0)
  }

  /** getUnreadCount: counts the caller's notifications whose `read_at` is null. */
  method GetUnreadCount(ns: seq<Notification>, caller: Actor) returns (count: nat)
    ensures count == UnreadOf(ns, caller.id)
    ensures count == 0 <==> forall i :: 0 <= i < |ns| && OwnedBy(ns[i], caller.id) ==> !Unread(ns[i])
  {
    count := 0;
    var i := 0;
    while i < |ns|
      invariant 0 <= i <= |ns|
      invariant count == UnreadOf(ns[..i], caller.id)
    {
      assert ns[..i + 1][..i] == ns[..i];
      if OwnedBy(ns[i], caller.id) && Unread(ns[i]) {
        count := count + 1;
      }
      i := i + 1;
    }
    assert ns[..|ns|] == ns;
    UnreadOfZero(ns, caller.id);
  }

  lemma {:induction false} UnreadOfZero(ns: seq<Notification>, userId: nat)
    ensures UnreadOf(ns, userId) == 0 <==> forall i :: 0 <= i < |ns| && OwnedBy(ns[i], userId) ==> !Unread(ns[i])
  {
    if |ns| > 0 {
      UnreadOfZero(ns[..|ns| - 1], userId);
      assert forall i :: 0 <= i < |ns| - 1 ==> ns[..|ns| - 1][i] == ns[i];
    }
  }

  /** The unread count is the length of the unread-filtered inbox. */
  lemma {:induction false} UnreadCountMatchesIndex(ns: seq<Notification>, caller: Actor)
    ensures UnreadOf(ns, caller.id) == |Index(ns, caller, Some("1"))|
  {
    if |ns| > 0 {
      UnreadCountMatchesIndex(ns[..|ns| - 1], caller);
    }
  }

  /** markAllAsRead: stamps `now` on every unread notification of the caller. */
  function MarkAllAsRead(ns: seq<Notification>, caller: Actor, now: int): (r: seq<Notification>)
    ensures |r| == |ns|
    ensures forall i :: 0 <= i < |ns| ==> r[i].id == ns[i].id && r[i].userId == ns[i].userId
    ensures forall i :: 0 <= i < |ns| && OwnedBy(ns[i], caller.id) && Unread(ns[i]) ==> r[i].readAt == Some(now)
    ensures forall i :: 0 <= i < |ns| && !(OwnedBy(ns[i], caller.id) && Unread(ns[i])) ==> r[i] == ns[i]
  {
    seq(|ns|, i requires 0 <= i < |ns| =>
      if OwnedBy(ns[i], caller.id) && Unread(ns[i]) then ns[i].(readAt := Some(now)) else ns[i])
  }

  /** After markAllAsRead the caller's unread count is zero. */
  lemma MarkAllLeavesNothingUnread(ns: seq<Notification>, caller: Actor, now: int)
    ensures UnreadOf(MarkAllAsRead(ns, caller, now), caller.id) == 0
  {
    UnreadOfZero(MarkAllAsRead(ns, caller, now), caller.id);
  }

  /** Other users' unread counts are untouched by markAllAsRead. */
  lemma {:induction false} MarkAllKeepsOthersCounts(ns: seq<Notification>, caller: Actor, now: int, other: nat)
    requires other != caller.id
    ensures UnreadOf(MarkAllAsRead(ns, caller, now), other) == UnreadOf(ns, other)
  {
    if |ns| > 0 {
      var init := ns[..|ns| - 1];
      MarkAllKeepsOthersCounts(init, caller, now, other);
      assert MarkAllAsRead(ns, caller, now)[..|ns| - 1] == MarkAllAsRead(init, caller, now);
    }
  }

  /** Position of the notification with this id, as route binding finds it. */
  function Find(ns: seq<Notification>, id: nat): (r: Option<nat>)
    ensures r.Some? ==> r.value < |ns| && ns[r.value].id == id
    ensures r.None? ==> forall i :: 0 <= i < |ns| ==> ns[i].id != id
  {
    if |ns| == 0 then None
    else if ns[0].id == id then Some(0)
    else match Find(ns[1..], id)
      case None => None
      case Some(k) => Some(k + 1)
  }

  function Ref(n: Notification): NoticeRef {
    NoticeRef(n.userId)
  }

  datatype InboxReply = InboxReply(status: nat, table: seq<Notification>)

  /**
   * markAsRead: 404 for an unknown id, 403 unless the update policy (owner
   * only) allows it; otherwise `read_at` is set to `now`, whether or not it
   * was already set.
   */
  function MarkAsRead(ns: seq<Notification>, caller: Actor, id: nat, now: int): (r: InboxReply)
    ensures Find(ns, id).None? ==> r == InboxReply(StatusNotFound, ns)
    ensures Find(ns, id).Some? && !NotificationUpdate(caller, Ref(ns[Find(ns, id).value])) ==>
      r == InboxReply(StatusForbidden, ns)
    ensures r.status == StatusOk <==> Find(ns, id).Some? && OwnedBy(ns[Find(ns, id).value], caller.id)
    ensures r.status == StatusOk ==>
      var k := Find(ns, id).value;
      r.table == ns[k := ns[k].(readAt := Some(now))]
  {
    match Find(ns, id)
    case None => InboxReply(StatusNotFound, ns)
    case Some(k) =>
      if !NotificationUpdate(caller, Ref(ns[k])) then InboxReply(StatusForbidden, ns)
      else InboxReply(StatusOk, ns[k := ns[k].(readAt := Some(now))])
  }

  /** An already-read notification is stamped again with the new time. */
  lemma MarkAsReadRestamps(caller: Actor, earlier: int, now: int)
    requires earlier != now
    ensures var ns := [Notification(7, Some(caller.id), Some(earlier))];
      MarkAsRead(ns, caller, 7, now).table[0].readAt == Some(now)
  {
  }

  /** show: 404, then the view policy (owner only). */
  function Show(ns: seq<Notification>, caller: Actor, id: nat): (r: (nat, Option<Notification>))
    ensures r.0 == StatusOk <==> r.1.Some?
    ensures r.1.Some? ==> r.1.value in ns && r.1.value.id == id && OwnedBy(r.1.value, caller.id)
    ensures Find(ns, id).None? ==> r == (StatusNotFound, None)
    ensures Find(ns, id).Some? && OwnedBy(ns[Find(ns, id).value], caller.id) ==>
      r == (StatusOk, Some(ns[Find(ns, id).value]))
    ensures Find(ns, id).Some? && !OwnedBy(ns[Find(ns, id).value], caller.id) ==>
      r == (StatusForbidden, None)
  {
    match Find(ns, id)
    case None => (StatusNotFound, None)
    case Some(k) =>
      if NotificationView(caller, Ref(ns[k])) then (StatusOk, Some(ns[k])) else (StatusForbidden, None)
  }
}
