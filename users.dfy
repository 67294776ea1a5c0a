/** The user routes of the server: the member search and the two
    mark-as-read operations on the caller's notification inbox. */
module UserRoutes {
  import opened Common
  import opened Domain

  /** The search's page size (`limit(10)`). */
  const SearchLimit: nat := 10

  /** The users a search may return: not the caller, and the pattern matches the
      name or the e-mail address. `matches` stands for the case-insensitive
      regular-expression test of the database. */
  predicate Candidate(u: User, caller: ObjectId, q: string, matches: (string, string) -> bool)
  {
    u.id != caller && (matches(u.name, q) || matches(u.email, q))
  }

  /** `GET /api/users/search?q=`: nothing for a missing or one-character query;
      otherwise the first ten candidates in collection order. */
  function SearchUsers(us: seq<User>, caller: ObjectId, q: Option<string>, matches: (string, string) -> bool): (r: seq<User>)
    ensures q.None? || |q.value| < 2 ==> r == []
    ensures |r| <= SearchLimit
    ensures forall u :: u in r ==> u in us && u.id != caller
    ensures q.Some? ==> forall u :: u in r ==> matches(u.name, q.value) || matches(u.email, q.value)
    ensures q.Some? && |q.value| >= 2 && |r| < SearchLimit ==>
      forall u :: u in us && Candidate(u, caller, q.value, matches) ==> u in r
    ensures IsSubsequence(r, us)
  {
    if q.None? || |q.value| < 2 then []
    else
      var all := Filter(us, u => Candidate(u, caller, q.value, matches));
      FilterIsSubsequence(us, u => Candidate(u, caller, q.value, matches));
      PrefixIsSubsequence(all, us, if |all| < SearchLimit then |all| else SearchLimit);
      all[..if |all| < SearchLimit then |all| else SearchLimit]
  }

  /** A prefix of a subsequence is a subsequence. */
  lemma {:induction false} PrefixIsSubsequence<T>(sub: seq<T>, s: seq<T>, n: nat)
    requires n <= |sub| && IsSubsequence(sub, s)
    ensures IsSubsequence(sub[..n], s)
    decreases |s|
  {
    if n > 0 {
      assert sub[..n][0] == sub[0];
      if sub[0] == s[0] {
        assert sub[..n][1..] == sub[1..][..n - 1];
        PrefixIsSubsequence(sub[1..], s[1..], n - 1);
      } else {
        PrefixIsSubsequence(sub, s[1..], n);
      }
    }
  }

  // ---------------------------------------------------------------------------
  // Marking notifications read

  /** Every entry of the inbox with `read` set, nothing else changed. */
  function AllRead(inbox: seq<Notification>): (r: seq<Notification>)
    ensures |r| == |inbox|
    ensures forall k :: 0 <= k < |r| ==> r[k] == inbox[k].(read := true)
  {
    seq(|inbox|, k requires 0 <= k < |inbox| => inbox[k].(read := true))
  }

  /** Marking all read leaves no unread entry, keeps every entry's other fields,
      and a second time changes nothing. */
  lemma AllReadProperties(inbox: seq<Notification>)
    ensures forall k :: 0 <= k < |inbox| ==> AllRead(inbox)[k].read
    ensures forall k :: 0 <= k < |inbox| ==>
      AllRead(inbox)[k].id == inbox[k].id && AllRead(inbox)[k].message == inbox[k].message && AllRead(inbox)[k].kind == inbox[k].kind
    ensures AllRead(AllRead(inbox)) == AllRead(inbox)
  {
  }

  /** The inbox with only the entry numbered `id` marked read. */
  function MarkedRead(inbox: seq<Notification>, id: nat): (r: seq<Notification>)
    ensures |r| == |inbox|
    ensures forall k :: 0 <= k < |r| ==> r[k] == if inbox[k].id == id then inbox[k].(read := true) else inbox[k]
  {
    seq(|inbox|, k requires 0 <= k < |inbox| => if inbox[k].id == id then inbox[k].(read := true) else inbox[k])
  }

  /** Marking the same entry twice is marking it once, and it ends up read. */
  lemma MarkedReadIdempotent(inbox: seq<Notification>, id: nat)
    ensures MarkedRead(MarkedRead(inbox, id), id) == MarkedRead(inbox, id)
    ensures forall k :: 0 <= k < |inbox| && inbox[k].id == id ==> MarkedRead(inbox, id)[k].read
  {
  }

  /** `PUT /api/users/notifications/read`: the `forEach` that sets every entry of
      the caller's inbox read. */
  method MarkAllRead(db: Db, caller: ObjectId) returns (reply: Reply<()>)
    requires db.Valid()
    modifies db
    ensures db.Valid()
    ensures reply.Fail? <==> UserIndex(old(db.users), caller).None?
    ensures reply.Fail? ==> reply.error == ServerError && db.users == old(db.users)
    ensures reply.Ok? ==>
      var i := UserIndex(old(db.users), caller).value;
      db.users == old(db.users)[i := old(db.users)[i].(notifications := AllRead(old(db.users)[i].notifications))]
    ensures db.tasks == old(db.tasks) && db.projects == old(db.projects) && db.events == old(db.events) && db.nextId == old(db.nextId)
  {
    var found := UserIndex(db.users, caller);
    if found.None? {
      return Fail(ServerError);
    }
    var i := found.value;
    var inbox := db.users[i].notifications;
    var j := 0;
    while j < |inbox|
      invariant 0 <= j <= |inbox| && |inbox| == |db.users[i].notifications|
      invariant forall k :: 0 <= k < j ==> inbox[k] == db.users[i].notifications[k].(read := true)
      invariant forall k :: j <= k < |inbox| ==> inbox[k] == db.users[i].notifications[k]
    {
      inbox := inbox[j := inbox[j].(read := true)];
      j := j + 1;
    }
    assert inbox == AllRead(db.users[i].notifications);
    ghost var us := db.users;
    db.users := db.users[i := db.users[i].(notifications := inbox)];
    assert forall j :: 0 <= j < |db.users| ==> db.users[j].id == us[j].id;
    assert forall j, k :: 0 <= j < |db.users| && 0 <= k < |db.users[j].notifications| ==> db.users[j].notifications[k].id == us[j].notifications[k].id;
    reply := Ok(());
  }

  /** `PUT /api/users/notifications/:id/read`: 404 when the caller's inbox has no
      entry with that id; otherwise that entry alone becomes read. */
  method MarkOneRead(db: Db, caller: ObjectId, id: nat) returns (reply: Reply<()>)
    requires db.Valid()
    modifies db
    ensures db.Valid()
    ensures UserIndex(old(db.users), caller).None? ==> reply == Fail(ServerError) && db.users == old(db.users)
    ensures UserIndex(old(db.users), caller).Some? ==>
      var i := UserIndex(old(db.users), caller).value;
      var inbox := old(db.users)[i].notifications;
      && (reply == Fail(NotFound) <==> forall k :: 0 <= k < |inbox| ==> inbox[k].id != id)
      && (reply.Fail? ==> db.users == old(db.users))
      && (reply.Ok? ==> db.users == old(db.users)[i := old(db.users)[i].(notifications := MarkedRead(inbox, id))])
    ensures db.tasks == old(db.tasks) && db.projects == old(db.projects) && db.events == old(db.events) && db.nextId == old(db.nextId)
  {
    var found := UserIndex(db.users, caller);
    if found.None? {
      return Fail(ServerError);
    }
    var i := found.value;
    var inbox := db.users[i].notifications;
    var k := FirstIndex(inbox, (n: Notification) => n.id == id);
    if k.None? {
      return Fail(NotFound);
    }
    // the ids of an inbox are its indices, so the entry found is the only one with that id
    assert forall j :: 0 <= j < |inbox| && j != k.value ==> inbox[j].id != id;
    var updated := inbox[k.value := inbox[k.value].(read := true)];
    assert updated == MarkedRead(inbox, id);
    ghost var us := db.users;
    db.users := db.users[i := db.users[i].(notifications := updated)];
    assert forall j :: 0 <= j < |db.users| ==> db.users[j].id == us[j].id;
    assert forall j, m :: 0 <= j < |db.users| && 0 <= m < |db.users[j].notifications| ==> db.users[j].notifications[m].id == us[j].notifications[m].id;
    reply := Ok(());
  }
}
