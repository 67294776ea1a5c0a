/** The notification helpers of the server: `createNotification` appends one
    unread entry to a user's inbox and announces it on the socket; the three
    `notify*` helpers fan it out to a list of recipients. */
module Notifications {
  import opened Common
  import opened Domain

  /** What every notification of one fan-out shares. */
  datatype Payload = Payload(kind: NotificationType, message: MessageText, projectId: Option<ObjectId>, taskId: Option<ObjectId>)

  /** The entry `createNotification` stores in an inbox that holds `size` entries. */
  function Entry(size: nat, pl: Payload): Notification
  {
    Notification(size, pl.kind, pl.message, pl.projectId, pl.taskId, false)
  }

  /** The inbox of `userId`, empty for an unknown user. */
  function InboxOf(us: seq<User>, userId: ObjectId): seq<Notification>
  {
    match UserIndex(us, userId)
    case None => []
    case Some(i) => us[i].notifications
  }

  predicate Registered(us: seq<User>, userId: ObjectId)
  {
    UserIndex(us, userId).Some?
  }

  /** `createNotification` on the user collection: the user's inbox gains one entry at its end. */
  function Deliver(us: seq<User>, userId: ObjectId, pl: Payload): (r: seq<User>)
    ensures |r| == |us|
    ensures forall i :: 0 <= i < |us| ==> r[i].id == us[i].id
  {
    match UserIndex(us, userId)
    case None => us
    case Some(i) => us[i := us[i].(notifications := us[i].notifications + [Entry(|us[i].notifications|, pl)])]
  }

  /** The socket emission that goes with Deliver: one event for a known user, none otherwise. */
  function DeliverEvents(us: seq<User>, userId: ObjectId, pl: Payload): seq<Event>
  {
    match UserIndex(us, userId)
    case None => []
    case Some(i) => [EmitNotificationCreated(userId, Entry(|us[i].notifications|, pl))]
  }

  /** One Deliver per recipient, in list order. */
  function DeliverAll(us: seq<User>, rs: seq<ObjectId>, pl: Payload): (r: seq<User>)
    ensures |r| == |us|
    ensures forall i :: 0 <= i < |us| ==> r[i].id == us[i].id
    decreases |rs|
  {
    if rs == [] then us
    else Deliver(DeliverAll(us, rs[..|rs| - 1], pl), rs[|rs| - 1], pl)
  }

  /** The events of DeliverAll, in emission order. */
  function FanOutEvents(us: seq<User>, rs: seq<ObjectId>, pl: Payload): seq<Event>
    decreases |rs|
  {
    if rs == [] then []
    else
      var front := rs[..|rs| - 1];
      FanOutEvents(us, front, pl) + DeliverEvents(DeliverAll(us, front, pl), rs[|rs| - 1], pl)
  }

  // ---------------------------------------------------------------------------
  // What delivery does to inboxes

  /** Updates that keep every user's id keep every lookup by id. */
  lemma SameIdsSameIndex(us: seq<User>, vs: seq<User>, userId: ObjectId)
    requires |us| == |vs|
    requires forall i :: 0 <= i < |us| ==> vs[i].id == us[i].id
    ensures UserIndex(vs, userId) == UserIndex(us, userId)
  {
    var p := (u: User) => u.id == userId;
    assert forall i :: 0 <= i < |us| ==> (p(vs[i]) <==> p(us[i]));
    match UserIndex(us, userId)
    case None =>
    case Some(k) =>
  }

  /** createNotification appends exactly one unread entry, numbered after the
      existing ones, to the recipient's inbox, and touches no other inbox;
      for an unknown user nothing changes. */
  lemma DeliverInbox(us: seq<User>, userId: ObjectId, pl: Payload, v: ObjectId)
    ensures InboxOf(Deliver(us, userId, pl), v)
         == InboxOf(us, v) + (if v == userId && Registered(us, userId) then [Entry(|InboxOf(us, v)|, pl)] else [])
  {
    var r := Deliver(us, userId, pl);
    SameIdsSameIndex(us, r, v);
    match UserIndex(us, v)
    case None =>
    case Some(j) =>
      match UserIndex(us, userId)
      case None =>
      case Some(i) =>
        if v != userId {
          assert i != j;
        }
  }

  /** Delivery keeps the user ids distinct and every inbox numbered by index. */
  lemma DeliverKeepsInvariant(us: seq<User>, userId: ObjectId, pl: Payload)
    requires UniqueUserIds(us) && InboxIdsAreIndices(us)
    ensures UniqueUserIds(Deliver(us, userId, pl)) && InboxIdsAreIndices(Deliver(us, userId, pl))
  {
    var r := Deliver(us, userId, pl);
    match UserIndex(us, userId)
    case None =>
    case Some(i) =>
      forall j, k | 0 <= j < |r| && 0 <= k < |r[j].notifications|
        ensures r[j].notifications[k].id == k
      {
        if j == i && k == |us[i].notifications| {
        } else {
          assert r[j].notifications[k] == us[j].notifications[k];
        }
      }
  }

  lemma {:induction false} DeliverAllKeepsInvariant(us: seq<User>, rs: seq<ObjectId>, pl: Payload)
    requires UniqueUserIds(us) && InboxIdsAreIndices(us)
    ensures UniqueUserIds(DeliverAll(us, rs, pl)) && InboxIdsAreIndices(DeliverAll(us, rs, pl))
    decreases |rs|
  {
    if rs != [] {
      DeliverAllKeepsInvariant(us, rs[..|rs| - 1], pl);
      DeliverKeepsInvariant(DeliverAll(us, rs[..|rs| - 1], pl), rs[|rs| - 1], pl);
    }
  }

  /** `after` is `before` followed by `count` fresh entries of the payload, each
      numbered by its index. */
  ghost predicate Extends(after: seq<Notification>, before: seq<Notification>, count: nat, pl: Payload)
  {
    && |after| == |before| + count
    && after[..|before|] == before
    && forall k :: |before| <= k < |after| ==> after[k] == Entry(k, pl)
  }

  lemma ExtendsStep(after: seq<Notification>, mid: seq<Notification>, before: seq<Notification>, count: nat, grew: bool, pl: Payload)
    requires Extends(mid, before, count, pl)
    requires after == mid + (if grew then [Entry(|mid|, pl)] else [])
    ensures Extends(after, before, count + (if grew then 1 else 0), pl)
  {
    if grew {
      assert after[..|before|] == mid[..|before|];
      forall k | |before| <= k < |after|
        ensures after[k] == Entry(k, pl)
      {
        if k < |mid| {
          assert after[k] == mid[k];
        }
      }
    } else {
      assert after == mid;
    }
  }

  /** A fan-out to `rs` gives a registered user one new entry per occurrence in
      `rs`, appended after the entries it already had, all unread and carrying
      the payload; an unknown user still has no inbox. */
  lemma {:induction false} DeliverAllInbox(us: seq<User>, rs: seq<ObjectId>, pl: Payload, v: ObjectId)
    ensures Extends(InboxOf(DeliverAll(us, rs, pl), v), InboxOf(us, v), if Registered(us, v) then Occurrences(rs, v) else 0, pl)
    decreases |rs|
  {
    var before := InboxOf(us, v);
    if rs != [] {
      var front, last := rs[..|rs| - 1], rs[|rs| - 1];
      var mid := DeliverAll(us, front, pl);
      DeliverAllInbox(us, front, pl, v);
      assert DeliverAll(us, rs, pl) == Deliver(mid, last, pl);
      DeliverInbox(mid, last, pl, v);
      SameIdsSameIndex(us, mid, v);
      SameIdsSameIndex(us, mid, last);
      var grew := v == last && Registered(mid, last);
      assert grew == (v == last && Registered(us, v));
      assert rs == front + [last];
      OccurrencesAppend(front, [last], v);
      assert Occurrences(rs, v) == Occurrences(front, v) + (if v == last then 1 else 0);
      ExtendsStep(InboxOf(DeliverAll(us, rs, pl), v), InboxOf(mid, v), before,
                  if Registered(us, v) then Occurrences(front, v) else 0, grew, pl);
    } else {
      assert before[..|before|] == before;
    }
  }

  /** Each event of a fan-out announces a notification of the payload to one
      of the recipients, and there is one event per registered recipient. */
  lemma {:induction false} FanOutEventsShape(us: seq<User>, rs: seq<ObjectId>, pl: Payload)
    ensures |FanOutEvents(us, rs, pl)| <= |rs|
    ensures (forall j :: 0 <= j < |rs| ==> Registered(us, rs[j])) ==> |FanOutEvents(us, rs, pl)| == |rs|
    ensures forall e :: e in FanOutEvents(us, rs, pl) ==>
      e.EmitNotificationCreated? && e.userId in rs && e.notification.kind == pl.kind
      && e.notification.message == pl.message && !e.notification.read
    decreases |rs|
  {
    if rs != [] {
      var front, last := rs[..|rs| - 1], rs[|rs| - 1];
      FanOutEventsShape(us, front, pl);
      SameIdsSameIndex(us, DeliverAll(us, front, pl), last);
      assert forall x :: x in front ==> x in rs;
    }
  }

  // ---------------------------------------------------------------------------
  // The helpers as operations on the store

  /** `createNotification`: append one entry to the user's inbox, emit
      `notification-created` for it and return it; an unknown user gives nothing. */
  method CreateNotification(db: Db, userId: ObjectId, pl: Payload) returns (saved: Option<Notification>)
    requires db.Valid()
    modifies db
    ensures db.Valid()
    ensures db.users == Deliver(old(db.users), userId, pl)
    ensures db.events == old(db.events) + DeliverEvents(old(db.users), userId, pl)
    ensures saved == (if Registered(old(db.users), userId) then Some(Entry(|InboxOf(old(db.users), userId)|, pl)) else None)
    ensures db.tasks == old(db.tasks) && db.projects == old(db.projects) && db.nextId == old(db.nextId)
  {
    DeliverKeepsInvariant(db.users, userId, pl);
    match UserIndex(db.users, userId)
    case None =>
      saved := None;
    case Some(i) =>
      var inbox := db.users[i].notifications;
      var n := Entry(|inbox|, pl);
      db.users := db.users[i := db.users[i].(notifications := inbox + [n])];
      db.events := db.events + [EmitNotificationCreated(userId, n)];
      saved := Some(n);
  }

  /** The `assignedUsers.map(createNotification)` fan-out, one recipient after the other. */
  method FanOut(db: Db, rs: seq<ObjectId>, pl: Payload)
    requires db.Valid()
    modifies db
    ensures db.Valid()
    ensures db.users == DeliverAll(old(db.users), rs, pl)
    ensures db.events == old(db.events) + FanOutEvents(old(db.users), rs, pl)
    ensures db.tasks == old(db.tasks) && db.projects == old(db.projects) && db.nextId == old(db.nextId)
  {
    var j := 0;
    while j < |rs|
      invariant 0 <= j <= |rs|
      invariant db.Valid()
      invariant db.users == DeliverAll(old(db.users), rs[..j], pl)
      invariant db.events == old(db.events) + FanOutEvents(old(db.users), rs[..j], pl)
      invariant db.tasks == old(db.tasks) && db.projects == old(db.projects) && db.nextId == old(db.nextId)
    {
      assert rs[..j + 1][..j] == rs[..j];
      var _ := CreateNotification(db, rs[j], pl);
      j := j + 1;
    }
    assert rs[..j] == rs;
  }

  /** `t` is the end of `s`. */
  predicate EndsWith(s: string, t: string)
  {
    |t| <= |s| && s[|s| - |t|..] == t
  }

  /** A template with a fixed middle between an opening and a closing piece. */
  function Framed(front: string, middle: string, back: string): (r: string)
    ensures front <= r && EndsWith(r, back)
  {
    var r := front + middle + back;
    assert r[..|front|] == front;
    assert r[|r| - |back|..] == back;
    r
  }

  /** The French text of a message: the task-assigned and task-updated texts
      open with their own wording and the quoted task title and end with the
      quoted project name; the comment text opens with the commenter's name and
      ends with the quoted task title. */
  function Render(m: MessageText): (r: string)
    ensures m.AssignedText? ==>
      "Une nouvelle t\U{E2}che \"" + m.taskTitle + "\"" <= r && EndsWith(r, "\"" + m.projectName + "\"")
    ensures m.UpdatedText? ==>
      "La t\U{E2}che \"" + m.taskTitle + "\"" <= r && EndsWith(r, "\"" + m.projectName + "\"")
    ensures m.CommentText? ==> m.commenterName <= r && EndsWith(r, "\"" + m.taskTitle + "\"")
  {
    match m
    case AssignedText(taskTitle, projectName) =>
      Framed("Une nouvelle t\U{E2}che \"" + taskTitle + "\"", " vous a \U{E9}t\U{E9} assign\U{E9}e dans le projet ", "\"" + projectName + "\"")
    case CommentText(commenterName, taskTitle) =>
      Framed(commenterName, " a comment\U{E9} sur la t\U{E2}che ", "\"" + taskTitle + "\"")
    case UpdatedText(taskTitle, projectName) =>
      Framed("La t\U{E2}che \"" + taskTitle + "\"", " a \U{E9}t\U{E9} mise \U{E0} jour dans le projet ", "\"" + projectName + "\"")
  }

  /** `notifyTaskAssigned`: every recipient gets a `task-assigned` notification; an empty list does nothing. */
  method NotifyTaskAssigned(db: Db, assignedUsers: seq<ObjectId>, taskTitle: string, projectName: string, taskId: ObjectId, projectId: ObjectId)
    requires db.Valid()
    modifies db
    ensures db.Valid()
    ensures var pl := Payload(TaskAssigned, AssignedText(taskTitle, projectName), Some(projectId), Some(taskId));
      && db.users == DeliverAll(old(db.users), assignedUsers, pl)
      && db.events == old(db.events) + FanOutEvents(old(db.users), assignedUsers, pl)
    ensures assignedUsers == [] ==> db.users == old(db.users) && db.events == old(db.events)
    ensures db.tasks == old(db.tasks) && db.projects == old(db.projects) && db.nextId == old(db.nextId)
  {
    if |assignedUsers| == 0 {
      return;
    }
    FanOut(db, assignedUsers, Payload(TaskAssigned, AssignedText(taskTitle, projectName), Some(projectId), Some(taskId)));
  }

  /** `notifyTaskComment`: every recipient gets a `task-comment` notification; an empty list does nothing. */
  method NotifyTaskComment(db: Db, recipients: seq<ObjectId>, commenterName: string, taskTitle: string, taskId: ObjectId, projectId: ObjectId)
    requires db.Valid()
    modifies db
    ensures db.Valid()
    ensures var pl := Payload(TaskComment, CommentText(commenterName, taskTitle), Some(projectId), Some(taskId));
      && db.users == DeliverAll(old(db.users), recipients, pl)
      && db.events == old(db.events) + FanOutEvents(old(db.users), recipients, pl)
    ensures recipients == [] ==> db.users == old(db.users) && db.events == old(db.events)
    ensures db.tasks == old(db.tasks) && db.projects == old(db.projects) && db.nextId == old(db.nextId)
  {
    if |recipients| == 0 {
      return;
    }
    FanOut(db, recipients, Payload(TaskComment, CommentText(commenterName, taskTitle), Some(projectId), Some(taskId)));
  }

  /** `notifyTaskUpdated`: every recipient gets a `task-updated` notification; an empty list does nothing. */
  method NotifyTaskUpdated(db: Db, assignedUsers: seq<ObjectId>, taskTitle: string, projectName: string, taskId: ObjectId, projectId: ObjectId)
    requires db.Valid()
    modifies db
    ensures db.Valid()
    ensures var pl := Payload(TaskUpdated, UpdatedText(taskTitle, projectName), Some(projectId), Some(taskId));
      && db.users == DeliverAll(old(db.users), assignedUsers, pl)
      && db.events == old(db.events) + FanOutEvents(old(db.users), assignedUsers, pl)
    ensures assignedUsers == [] ==> db.users == old(db.users) && db.events == old(db.events)
    ensures db.tasks == old(db.tasks) && db.projects == old(db.projects) && db.nextId == old(db.nextId)
  {
    if |assignedUsers| == 0 {
      return;
    }
    FanOut(db, assignedUsers, Payload(TaskUpdated, UpdatedText(taskTitle, projectName), Some(projectId), Some(taskId)));
  }
}
