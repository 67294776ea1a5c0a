/** The notification bell: the unread badge, the local read marks, the order
    in which the inbox is listed, when a socket event triggers a refetch, and
    the icon of each kind. */
module Bell {
  import opened Common
  import opened Domain

  /** A notification as the bell holds it; `kind` is the serialised type. */
  datatype Item = Item(id: string, kind: string, message: string, read: bool)

  /** `notifications.filter(n => !n.read).length`. */
  function UnreadCount(ns: seq<Item>): nat
  {
    |Filter(ns, (n: Item) => !n.read)|
  }

  datatype Badge = NoBadge | BadgeText(text: string)

  /** The badge over the bell: hidden at zero, `9+` above nine, else the count. */
  function BadgeFor(n: nat): (b: Badge)
    ensures b.NoBadge? <==> n == 0
    ensures n > 9 ==> b == BadgeText("9+")
    ensures 0 < n <= 9 ==> b.BadgeText? && |b.text| == 1 && b.text[0] as int - '0' as int == n
  {
    if n == 0 then NoBadge
    else if n > 9 then BadgeText("9+")
    else BadgeText([('0' as int + n) as char])
  }

  /** `prev.map(n => n._id === id ? {...n, read: true} : n)`. */
  function MarkAsRead(ns: seq<Item>, id: string): (r: seq<Item>)
    ensures |r| == |ns|
    ensures forall i :: 0 <= i < |r| ==> r[i] == if ns[i].id == id then ns[i].(read := true) else ns[i]
  {
    seq(|ns|, i requires 0 <= i < |ns| => if ns[i].id == id then ns[i].(read := true) else ns[i])
  }

  /** `prev.map(n => ({...n, read: true}))`. */
  function MarkAllAsRead(ns: seq<Item>): (r: seq<Item>)
    ensures |r| == |ns|
    ensures forall i :: 0 <= i < |r| ==> r[i] == ns[i].(read := true)
  {
    seq(|ns|, i requires 0 <= i < |ns| => ns[i].(read := true))
  }

  /** After "mark all read" nothing is unread and the badge disappears. */
  lemma MarkAllClearsBadge(ns: seq<Item>)
    ensures UnreadCount(MarkAllAsRead(ns)) == 0
    ensures BadgeFor(UnreadCount(MarkAllAsRead(ns))) == NoBadge
  {
    FilterNone(MarkAllAsRead(ns), (n: Item) => !n.read);
  }

  /** Marking one entry never raises the unread count, and lowers it when an
      unread entry has that id. */
  lemma {:induction false} MarkAsReadLowersCount(ns: seq<Item>, id: string)
    ensures UnreadCount(MarkAsRead(ns, id)) <= UnreadCount(ns)
    ensures (exists i :: 0 <= i < |ns| && ns[i].id == id && !ns[i].read) ==> UnreadCount(MarkAsRead(ns, id)) < UnreadCount(ns)
    decreases |ns|
  {
    if ns != [] {
      var p := (n: Item) => !n.read;
      var r := MarkAsRead(ns, id);
      MarkAsReadLowersCount(ns[1..], id);
      assert r == [r[0]] + MarkAsRead(ns[1..], id);
      assert ns == [ns[0]] + ns[1..];
      FilterAppend([r[0]], MarkAsRead(ns[1..], id), p);
      FilterAppend([ns[0]], ns[1..], p);
      if exists i :: 0 <= i < |ns| && ns[i].id == id && !ns[i].read {
        var i :| 0 <= i < |ns| && ns[i].id == id && !ns[i].read;
        if i > 0 {
          assert ns[1..][i - 1] == ns[i];
        }
      }
    }
  }

  /** `array.reverse()`. */
  function Reverse(s: seq<Item>): (r: seq<Item>)
    ensures |r| == |s|
    ensures forall i :: 0 <= i < |s| ==> r[i] == s[|s| - 1 - i]
    decreases |s|
  {
    if s == [] then [] else Reverse(s[1..]) + [s[0]]
  }

  /** `fetchNotifications`: the inbox is listed newest first; a reply without
      notifications keeps the current list. */
  function Fetched(current: seq<Item>, fetched: Option<seq<Item>>): seq<Item>
  {
    if fetched.Some? then Reverse(fetched.value) else current
  }

  /** Listing newest first shows every entry once: reversing back restores the inbox. */
  lemma ReverseReverse(s: seq<Item>)
    ensures Reverse(Reverse(s)) == s
  {
  }

  /** ... and the unread count is the inbox's. */
  lemma {:induction false} ReverseKeepsUnread(s: seq<Item>)
    ensures UnreadCount(Reverse(s)) == UnreadCount(s)
    decreases |s|
  {
    if s != [] {
      var p := (n: Item) => !n.read;
      ReverseKeepsUnread(s[1..]);
      assert Reverse(s) == Reverse(s[1..]) + [s[0]];
      FilterAppend(Reverse(s[1..]), [s[0]], p);
      assert s == [s[0]] + s[1..];
      FilterAppend([s[0]], s[1..], p);
    }
  }

  /** The click handler `() => !n.read && markAsRead(n._id)`: the id to mark, if any. */
  function ClickTarget(n: Item): (r: Option<string>)
    ensures r.Some? <==> !n.read
    ensures r.Some? ==> r.value == n.id
  {
    if n.read then None else Some(n.id)
  }

  /** The list after clicking entry `k` and the server accepting the mark. */
  function Clicked(ns: seq<Item>, k: nat): seq<Item>
    requires k < |ns|
  {
    match ClickTarget(ns[k])
    case None => ns
    case Some(id) => MarkAsRead(ns, id)
  }

  /** Clicking a read entry changes nothing; clicking an unread one reads it
      and lowers the unread count. */
  lemma ClickReads(ns: seq<Item>, k: nat)
    requires k < |ns|
    ensures ns[k].read ==> Clicked(ns, k) == ns
    ensures Clicked(ns, k)[k].read
    ensures !ns[k].read ==> UnreadCount(Clicked(ns, k)) < UnreadCount(ns)
  {
    MarkAsReadLowersCount(ns, ns[k].id);
  }

  /** The `notification-created` listener: none without a logged-in user id;
      otherwise a refetch exactly for events addressed to that user. */
  predicate Refetches(eventUser: string, user: Option<string>)
  {
    user.Some? && user.value != "" && eventUser == user.value
  }

  lemma RefetchOnlyOwn(eventUser: string, user: Option<string>)
    ensures Refetches(eventUser, user) ==> user == Some(eventUser)
    ensures user.Some? && user.value != "" && eventUser != user.value ==> !Refetches(eventUser, user)
    ensures user.None? ==> !Refetches(eventUser, user)
  {
  }

  /** `getNotificationIcon`. */
  function Icon(kind: string): string
  {
    if kind == "task-assigned" then "\U{1F464}"
    else if kind == "task-comment" then "\U{1F4AC}"
    else if kind == "project-invite" then "\U{2795}"
    else if kind == "task-updated" then "\U{270F}\U{FE0F}"
    else "\U{1F514}"
  }

  /** How the server serialises a notification's type. */
  function KindName(k: NotificationType): string
  {
    match k
    case TaskAssigned => "task-assigned"
    case TaskComment => "task-comment"
    case ProjectInvite => "project-invite"
    case TaskUpdated => "task-updated"
  }

  /** Every kind the server produces has an icon of its own, and none of them
      falls back to the plain bell. */
  lemma IconsDistinguishKinds(a: NotificationType, b: NotificationType)
    ensures Icon(KindName(a)) != "\U{1F514}"
    ensures a != b ==> Icon(KindName(a)) != Icon(KindName(b))
  {
  }
}
