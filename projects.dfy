/** The project routes of the server: listing and reading the projects a user
    can see, creating, updating and deleting a project, and adding and removing
    members. */
module ProjectRoutes {
  import opened Common
  import opened Text
  import opened Domain
  import opened Ordering

  /** The colour a project gets when none (or an empty one) is given. */
  const DefaultColor: string := "#6366f1"

  // ---------------------------------------------------------------------------
  // Access

  /** Some member entry carries the `admin` role. */
  predicate HasAdminEntry(pr: Project)
  {
    exists j :: 0 <= j < |pr.members| && pr.members[j].role == Admin
  }

  /** The write filter of the update and member routes, as the query states it:
      `{owner: caller}` or `{'members.user': caller, 'members.role': 'admin'}`.
      The two conditions of the second branch are each matched against the
      array on their own, so they may hold of different member entries. */
  predicate CanAdminister(pr: Project, caller: ObjectId)
  {
    pr.owner == caller || (IsMember(pr, caller) && HasAdminEntry(pr))
  }

  /** The evidently intended write test: the owner, or a member entry of the
      caller whose role is `admin` (the client's `isAdmin`). */
  predicate CanAdministerTied(pr: Project, caller: ObjectId)
  {
    pr.owner == caller
    || exists i :: 0 <= i < |pr.members| && pr.members[i].user == caller && pr.members[i].role == Admin
  }

  /** As written, once any entry is an admin (every project starts with the
      owner's), anyone who may read the project may also change it. */
  lemma UntiedCheckIsReadCheck(pr: Project, caller: ObjectId)
    requires HasAdminEntry(pr)
    ensures CanAdminister(pr, caller) <==> HasAccess(pr, caller)
  {
  }

  /** A project as created, with one plain member added: that member passes the
      write filter although its own entry says `member`. */
  lemma UntiedCheckAdmitsPlainMember()
    ensures var pr := Project(1, "Board", "", 7, [Membership(7, Admin), Membership(8, Member)], DefaultColor, "");
      CanAdminister(pr, 8) && !CanAdministerTied(pr, 8)
  {
    var pr := Project(1, "Board", "", 7, [Membership(7, Admin), Membership(8, Member)], DefaultColor, "");
    assert pr.members[1].user == 8;
    assert pr.members[0].role == Admin;
  }

  /** The tied test refuses every caller who is not the owner and whose entries
      all say `member`, and it never admits more than the written filter. */
  lemma TiedCheckRefusesPlainMembers(pr: Project, caller: ObjectId)
    ensures caller != pr.owner && (forall i :: 0 <= i < |pr.members| && pr.members[i].user == caller ==> pr.members[i].role == Member)
      ==> !CanAdministerTied(pr, caller)
    ensures CanAdministerTied(pr, caller) ==> CanAdminister(pr, caller) && HasAccess(pr, caller)
  {
    if CanAdministerTied(pr, caller) && pr.owner != caller {
      var i :| 0 <= i < |pr.members| && pr.members[i].user == caller && pr.members[i].role == Admin;
      assert IsMember(pr, caller) && HasAdminEntry(pr);
    }
  }

  /** The index of the project `id` if the caller passes the write filter. */
  function AdminIndex(ps: seq<Project>, id: ObjectId, caller: ObjectId): (r: Option<nat>)
    requires UniqueProjectIds(ps)
    ensures r.Some? ==> r.value < |ps| && ps[r.value].id == id && CanAdminister(ps[r.value], caller)
    ensures r.None? <==> forall i :: 0 <= i < |ps| && ps[i].id == id ==> !CanAdminister(ps[i], caller)
  {
    match ProjectIndex(ps, id)
    case None => None
    case Some(i) => if CanAdminister(ps[i], caller) then Some(i) else None
  }

  /** The index of the project `id` if the caller owns it (`findOne({_id, owner})`). */
  function OwnedIndex(ps: seq<Project>, id: ObjectId, caller: ObjectId): (r: Option<nat>)
    requires UniqueProjectIds(ps)
    ensures r.Some? ==> r.value < |ps| && ps[r.value].id == id && ps[r.value].owner == caller
    ensures r.None? <==> forall i :: 0 <= i < |ps| && ps[i].id == id ==> ps[i].owner != caller
  {
    match ProjectIndex(ps, id)
    case None => None
    case Some(i) => if ps[i].owner == caller then Some(i) else None
  }

  /** Replacing a project by one with the same id and a name keeps the store's invariant. */
  lemma ReplaceProjectKeepsValid(tasks: seq<Task>, projects: seq<Project>, users: seq<User>, nextId: nat, i: nat, p: Project)
    requires ValidState(tasks, projects, users, nextId)
    requires i < |projects| && p.id == projects[i].id && p.name != []
    ensures ValidState(tasks, projects[i := p], users, nextId)
  {
  }

  // ---------------------------------------------------------------------------
  // Reading

  /** `GET /api/projects`: the projects the caller owns or is a member of, in
      collection order. */
  method ListProjects(db: Db, caller: ObjectId) returns (r: seq<Project>)
    ensures forall p :: p in r <==> p in db.projects && HasAccess(p, caller)
    ensures IsSubsequence(r, db.projects)
  {
    r := Filter(db.projects, (p: Project) => HasAccess(p, caller));
    FilterIsSubsequence(db.projects, (p: Project) => HasAccess(p, caller));
  }

  /** `GET /api/projects/:id`: the project, or 404 when it does not exist or the
      caller may not see it. */
  method GetProject(db: Db, caller: ObjectId, id: ObjectId) returns (reply: Reply<Project>)
    requires db.Valid()
    ensures reply.Fail? <==> forall i :: 0 <= i < |db.projects| && db.projects[i].id == id ==> !HasAccess(db.projects[i], caller)
    ensures reply.Fail? ==> reply.error == NotFound
    ensures reply.Ok? ==> reply.value in db.projects && reply.value.id == id && HasAccess(reply.value, caller)
  {
    var found := AccessibleProject(db.projects, id, caller);
    if found.None? {
      return Fail(NotFound);
    }
    return Ok(found.value);
  }

  // ---------------------------------------------------------------------------
  // Creating

  /** The body of `POST /api/projects`; `None` is an absent field. */
  datatype NewProject = NewProject(name: Option<string>, description: Option<string>, color: Option<string>, background: Option<string>)

  /** JavaScript truthiness of an optional string: present and not empty. */
  predicate Truthy(s: Option<string>)
  {
    s.Some? && s.value != []
  }

  /** The document `POST /api/projects` builds for the caller under a fresh
      id: 400 unless the name trims to something; otherwise the trimmed name,
      the caller as owner and as its first (admin) member, the default colour
      for a missing or empty one, and empty text for a missing description or
      background. */
  function NewProjectDoc(id: ObjectId, caller: ObjectId, body: NewProject): (r: Reply<Project>)
    ensures r.Fail? <==> body.name.None? || Trim(body.name.value) == []
    ensures r.Fail? ==> r.error == BadRequest
    ensures r.Ok? ==>
      var p := r.value;
      && p.id == id && p.name != [] && p.name == Trim(body.name.value) && p.owner == caller
      && p.members == [Membership(caller, Admin)]
      && p.color == (if Truthy(body.color) then body.color.value else DefaultColor)
      && p.description == (if body.description.Some? then body.description.value else "")
      && p.background == (if body.background.Some? then body.background.value else "")
  {
    if body.name.None? || Trim(body.name.value) == [] then Fail(BadRequest)
    else
      Ok(Project(id, Trim(body.name.value),
                 if body.description.Some? then body.description.value else "",
                 caller, [Membership(caller, Admin)],
                 if Truthy(body.color) then body.color.value else DefaultColor,
                 if body.background.Some? then body.background.value else ""))
  }

  /** `POST /api/projects`: stores the built document under the next id. */
  method CreateProject(db: Db, caller: ObjectId, body: NewProject) returns (reply: Reply<Project>)
    requires db.Valid()
    modifies db
    ensures db.Valid()
    ensures reply == NewProjectDoc(old(db.nextId), caller, body)
    ensures reply.Fail? ==> db.projects == old(db.projects) && db.nextId == old(db.nextId)
    ensures reply.Ok? ==> db.projects == old(db.projects) + [reply.value] && db.nextId == old(db.nextId) + 1
    ensures db.tasks == old(db.tasks) && db.users == old(db.users) && db.events == old(db.events)
  {
    reply := NewProjectDoc(db.nextId, caller, body);
    if reply.Fail? {
      return;
    }
    var p := reply.value;
    var projects, nextId := db.projects + [p], db.nextId + 1;
    AppendFreshProject(db.tasks, db.projects, db.users, db.nextId, p);
    db.projects := projects;
    db.nextId := nextId;
  }

  /** The creator of a project may change it, under either test. */
  lemma CreatorAdministers(p: Project, caller: ObjectId)
    requires p.owner == caller && p.members == [Membership(caller, Admin)]
    ensures CanAdministerTied(p, caller) && CanAdminister(p, caller) && HasAdminEntry(p)
  {
    assert p.members[0].role == Admin;
  }

  // ---------------------------------------------------------------------------
  // Updating

  /** The body of `PUT /api/projects/:id`. */
  datatype ProjectPatch = ProjectPatch(name: Option<string>, description: Option<string>, color: Option<string>, background: Option<string>)

  /** A truthy name that the schema trims to nothing fails its `required` check on save. */
  predicate RejectsName(patch: ProjectPatch)
  {
    Truthy(patch.name) && Trim(patch.name.value) == []
  }

  /** The project after the update's assignments: the name and the colour only
      when truthy, the description and the background whenever present. */
  function Patched(pr: Project, patch: ProjectPatch): (r: Project)
    ensures r.id == pr.id && r.owner == pr.owner && r.members == pr.members
    ensures !Truthy(patch.name) ==> r.name == pr.name
    ensures !Truthy(patch.color) ==> r.color == pr.color
    ensures patch.description.None? ==> r.description == pr.description
    ensures patch.background.None? ==> r.background == pr.background
    ensures Truthy(patch.name) ==> r.name == Trim(patch.name.value)
    ensures Truthy(patch.color) ==> r.color == patch.color.value
    ensures patch.description.Some? ==> r.description == patch.description.value
    ensures patch.background.Some? ==> r.background == patch.background.value
  {
    pr.(name := if Truthy(patch.name) then Trim(patch.name.value) else pr.name,
        description := if patch.description.Some? then patch.description.value else pr.description,
        color := if Truthy(patch.color) then patch.color.value else pr.color,
        background := if patch.background.Some? then patch.background.value else pr.background)
  }

  /** Sending the same update twice is sending it once; an empty update changes nothing. */
  lemma PatchedIdempotent(pr: Project, patch: ProjectPatch)
    ensures Patched(Patched(pr, patch), patch) == Patched(pr, patch)
    ensures Patched(pr, ProjectPatch(None, None, None, None)) == pr
  {
    if Truthy(patch.name) {
      TrimIdempotent(patch.name.value);
    }
  }

  /** `PUT /api/projects/:id`: 404 unless the caller passes the write filter;
      500 when the new name trims to nothing; otherwise the patched project. */
  method UpdateProject(db: Db, caller: ObjectId, id: ObjectId, patch: ProjectPatch) returns (reply: Reply<Project>)
    requires db.Valid()
    modifies db
    ensures db.Valid()
    ensures AdminIndex(old(db.projects), id, caller).None? ==> reply == Fail(NotFound)
    ensures AdminIndex(old(db.projects), id, caller).Some? ==>
      var i := AdminIndex(old(db.projects), id, caller).value;
      && (reply.Fail? <==> RejectsName(patch))
      && (reply.Fail? ==> reply.error == ServerError)
      && (reply.Ok? ==> reply.value == Patched(old(db.projects)[i], patch) && db.projects == old(db.projects)[i := reply.value])
    ensures reply.Fail? ==> db.projects == old(db.projects)
    ensures db.tasks == old(db.tasks) && db.users == old(db.users) && db.events == old(db.events) && db.nextId == old(db.nextId)
  {
    var found := AdminIndex(db.projects, id, caller);
    if found.None? {
      return Fail(NotFound);
    }
    var i := found.value;
    var pr := db.projects[i];
    var name, description, color, background := pr.name, pr.description, pr.color, pr.background;
    if Truthy(patch.name) {
      name := Trim(patch.name.value);
    }
    if patch.description.Some? {
      description := patch.description.value;
    }
    if Truthy(patch.color) {
      color := patch.color.value;
    }
    if patch.background.Some? {
      background := patch.background.value;
    }
    if name == [] {
      // the schema's `required` validator on save
      return Fail(ServerError);
    }
    var updated := pr.(name := name, description := description, color := color, background := background);
    ReplaceProjectKeepsValid(db.tasks, db.projects, db.users, db.nextId, i, updated);
    db.projects := db.projects[i := updated];
    reply := Ok(updated);
  }

  // ---------------------------------------------------------------------------
  // Deleting

  /** `Task.deleteMany({project: id})`: the tasks of every other project. */
  function WithoutProjectTasks(ts: seq<Task>, id: ObjectId): (r: seq<Task>)
    ensures forall t :: t in r ==> t.project != id
    ensures forall t :: t in ts && t.project != id ==> t in r
    ensures IsSubsequence(r, ts)
  {
    FilterIsSubsequence(ts, (t: Task) => t.project != id);
    Filter(ts, (t: Task) => t.project != id)
  }

  /** A filter that keeps every task of one column keeps that column's count. */
  lemma {:induction false} FilterKeepsCount(ts: seq<Task>, keep: Task -> bool, q: ObjectId, c: Column)
    requires forall t :: InColumn(t, q, c) ==> keep(t)
    ensures CountIn(Filter(ts, keep), q, c) == CountIn(ts, q, c)
    decreases |ts|
  {
    if ts != [] {
      FilterKeepsCount(ts[1..], keep, q, c);
    }
  }

  /** ... and the distinctness of that column's positions. */
  lemma {:induction false} FilterKeepsDistinct(ts: seq<Task>, keep: Task -> bool, q: ObjectId, c: Column)
    requires PositionsDistinct(ts, q, c)
    ensures PositionsDistinct(Filter(ts, keep), q, c)
    decreases |ts|
  {
    if ts != [] {
      var tail := ts[1..];
      assert PositionsDistinct(tail, q, c) by {
        forall i, j | 0 <= i < |tail| && 0 <= j < |tail| && i != j && InColumn(tail[i], q, c) && InColumn(tail[j], q, c)
          ensures tail[i].position != tail[j].position
        {
          assert tail[i] == ts[i + 1] && tail[j] == ts[j + 1];
        }
      }
      FilterKeepsDistinct(tail, keep, q, c);
      if keep(ts[0]) {
        DistinctWithHead(ts, Filter(tail, keep), q, c);
      }
    }
  }

  /** Putting back the head of `ts` in front of a distinct part of its tail keeps positions distinct. */
  lemma DistinctWithHead(ts: seq<Task>, rest: seq<Task>, q: ObjectId, c: Column)
    requires ts != [] && PositionsDistinct(ts, q, c) && PositionsDistinct(rest, q, c)
    requires forall t :: t in rest ==> t in ts[1..]
    ensures PositionsDistinct([ts[0]] + rest, q, c)
  {
    var r := [ts[0]] + rest;
    forall j | 0 < j < |r| && InColumn(r[j], q, c) && InColumn(ts[0], q, c)
      ensures r[j].position != ts[0].position
    {
      assert r[j] == rest[j - 1] && rest[j - 1] in rest;
      var k :| 0 <= k < |ts[1..]| && ts[1..][k] == rest[j - 1];
      assert ts[1..][k] == ts[k + 1];
    }
    forall i, j | 0 < i < |r| && 0 < j < |r| && i != j && InColumn(r[i], q, c) && InColumn(r[j], q, c)
      ensures r[i].position != r[j].position
    {
      assert r[i] == rest[i - 1] && r[j] == rest[j - 1];
    }
  }

  /** Deleting a project's tasks leaves every column of every other project as
      it was counted, and a contiguous one contiguous. */
  lemma ProjectDeletionKeepsOtherColumns(ts: seq<Task>, id: ObjectId, q: ObjectId, c: Column)
    requires q != id
    ensures CountIn(WithoutProjectTasks(ts, id), q, c) == CountIn(ts, q, c)
    ensures Contiguous(ts, q, c) ==> Contiguous(WithoutProjectTasks(ts, id), q, c)
  {
    var keep := (t: Task) => t.project != id;
    var r := WithoutProjectTasks(ts, id);
    assert r == Filter(ts, keep);
    FilterKeepsCount(ts, keep, q, c);
    if Contiguous(ts, q, c) {
      FilterKeepsDistinct(ts, keep, q, c);
      forall i | 0 <= i < |r| && InColumn(r[i], q, c)
        ensures 0 <= r[i].position < CountIn(r, q, c)
      {
        assert r[i] in ts;
        var k :| 0 <= k < |ts| && ts[k] == r[i];
      }
    }
  }

  /** `DELETE /api/projects/:id`: owner only (404 otherwise); removes the
      project's tasks, then the project. */
  method DeleteProject(db: Db, caller: ObjectId, id: ObjectId) returns (reply: Reply<()>)
    requires db.Valid()
    modifies db
    ensures db.Valid()
    ensures reply.Fail? <==> forall i :: 0 <= i < |old(db.projects)| && old(db.projects)[i].id == id ==> old(db.projects)[i].owner != caller
    ensures reply.Fail? ==> reply.error == NotFound && db.tasks == old(db.tasks) && db.projects == old(db.projects)
    ensures reply.Ok? ==>
      var i := OwnedIndex(old(db.projects), id, caller).value;
      && db.tasks == WithoutProjectTasks(old(db.tasks), id)
      && db.projects == old(db.projects)[..i] + old(db.projects)[i + 1..]
      && (forall p :: p in db.projects ==> p.id != id)
    ensures db.users == old(db.users) && db.events == old(db.events) && db.nextId == old(db.nextId)
  {
    var found := OwnedIndex(db.projects, id, caller);
    if found.None? {
      return Fail(NotFound);
    }
    var i := found.value;
    DeletionKeepsValid(db.tasks, db.projects, db.users, db.nextId, id, i);
    db.tasks := WithoutProjectTasks(db.tasks, id);
    db.projects := db.projects[..i] + db.projects[i + 1..];
    reply := Ok(());
  }

  /** Dropping a project and its tasks keeps the store's invariant, and no
      project with that id is left. */
  lemma DeletionKeepsValid(tasks: seq<Task>, projects: seq<Project>, users: seq<User>, nextId: nat, id: ObjectId, i: nat)
    requires ValidState(tasks, projects, users, nextId)
    requires i < |projects| && projects[i].id == id
    ensures ValidState(WithoutProjectTasks(tasks, id), projects[..i] + projects[i + 1..], users, nextId)
    ensures forall p :: p in projects[..i] + projects[i + 1..] ==> p.id != id
  {
    var rest := projects[..i] + projects[i + 1..];
    var kept := WithoutProjectTasks(tasks, id);
    FilterKeepsDistinctKeys(tasks, (t: Task) => t.project != id, (t: Task) => t.id);
    assert forall j :: 0 <= j < |rest| ==> rest[j] == if j < i then projects[j] else projects[j + 1];
    forall t | t in kept
      ensures t.id < nextId
    {
      var k :| 0 <= k < |tasks| && tasks[k] == t;
    }
  }

  // ---------------------------------------------------------------------------
  // Members

  /** No user appears in two member entries. */
  ghost predicate UniqueMembers(pr: Project)
  {
    forall i, j :: 0 <= i < |pr.members| && 0 <= j < |pr.members| && i != j ==> pr.members[i].user != pr.members[j].user
  }

  /** The body of `POST /api/projects/:id/members`. */
  datatype NewMember = NewMember(email: string, role: Option<string>)

  /** `role || 'member'`, then the schema's enum check on save. */
  function NewRole(role: Option<string>): (r: Option<Role>)
    ensures !Truthy(role) ==> r == Some(Member)
    ensures r == Some(Admin) <==> role == Some("admin")
  {
    if Truthy(role) then ParseRole(role.value) else Some(Member)
  }

  /** `User.findOne({email})`: the first registered user with that address. */
  function EmailIndex(us: seq<User>, email: string): (r: Option<nat>)
    ensures r.Some? ==> r.value < |us| && us[r.value].email == email
    ensures r.None? <==> forall i :: 0 <= i < |us| ==> us[i].email != email
  {
    FirstIndex(us, (u: User) => u.email == email)
  }

  /** `POST /api/projects/:id/members`: 400 for a malformed address, 404 when the
      caller fails the write filter or nobody has that address, 400 when that
      user is already a member, 500 for a role outside the enum; otherwise one
      entry appended. `isEmail` stands for the validator's address check. */
  method AddMember(db: Db, caller: ObjectId, id: ObjectId, body: NewMember, isEmail: string -> bool) returns (reply: Reply<Project>)
    requires db.Valid()
    modifies db
    ensures db.Valid()
    ensures !isEmail(body.email) ==> reply == Fail(BadRequest)
    ensures isEmail(body.email) && AdminIndex(old(db.projects), id, caller).None? ==> reply == Fail(NotFound)
    ensures isEmail(body.email) && AdminIndex(old(db.projects), id, caller).Some? ==>
      var pr := old(db.projects)[AdminIndex(old(db.projects), id, caller).value];
      && (EmailIndex(db.users, body.email).None? ==> reply == Fail(NotFound))
      && (EmailIndex(db.users, body.email).Some? ==>
            var u := db.users[EmailIndex(db.users, body.email).value].id;
            && (IsMember(pr, u) ==> reply == Fail(BadRequest))
            && (!IsMember(pr, u) && NewRole(body.role).None? ==> reply == Fail(ServerError))
            && (!IsMember(pr, u) && NewRole(body.role).Some? ==>
                  reply == Ok(pr.(members := pr.members + [Membership(u, NewRole(body.role).value)]))))
    ensures reply.Fail? ==> db.projects == old(db.projects)
    ensures reply.Ok? ==> db.projects == old(db.projects)[AdminIndex(old(db.projects), id, caller).value := reply.value]
    ensures db.tasks == old(db.tasks) && db.users == old(db.users) && db.events == old(db.events) && db.nextId == old(db.nextId)
  {
    if !isEmail(body.email) {
      return Fail(BadRequest);
    }
    var found := AdminIndex(db.projects, id, caller);
    if found.None? {
      return Fail(NotFound);
    }
    var i := found.value;
    var pr := db.projects[i];
    var userIndex := EmailIndex(db.users, body.email);
    if userIndex.None? {
      return Fail(NotFound);
    }
    var u := db.users[userIndex.value].id;
    if Any(pr.members, (m: Membership) => m.user == u) {
      return Fail(BadRequest);
    }
    var role := NewRole(body.role);
    if role.None? {
      return Fail(ServerError);
    }
    var updated := pr.(members := pr.members + [Membership(u, role.value)]);
    ReplaceProjectKeepsValid(db.tasks, db.projects, db.users, db.nextId, i, updated);
    db.projects := db.projects[i := updated];
    reply := Ok(updated);
  }

  /** What adding a member guarantees: the new user gains read access, earlier
      entries stay in place, and no user gets a second entry. */
  lemma AddedMemberJoins(pr: Project, u: ObjectId, role: Role)
    requires !IsMember(pr, u)
    ensures var p := pr.(members := pr.members + [Membership(u, role)]);
      && HasAccess(p, u)
      && p.members[..|pr.members|] == pr.members
      && (UniqueMembers(pr) ==> UniqueMembers(p))
  {
    var p := pr.(members := pr.members + [Membership(u, role)]);
    assert p.members[|pr.members|].user == u;
    if UniqueMembers(pr) {
      forall i, j | 0 <= i < |p.members| && 0 <= j < |p.members| && i != j
        ensures p.members[i].user != p.members[j].user
      {
        if i < |pr.members| && j < |pr.members| {
          assert p.members[i] == pr.members[i] && p.members[j] == pr.members[j];
        } else if i < |pr.members| {
          assert p.members[i] == pr.members[i];
        } else if j < |pr.members| {
          assert p.members[j] == pr.members[j];
        }
      }
    }
  }

  /** `members.filter(m => m.user != memberId)`. */
  function WithoutMember(ms: seq<Membership>, memberId: ObjectId): (r: seq<Membership>)
    ensures forall m :: m in r <==> m in ms && m.user != memberId
    ensures IsSubsequence(r, ms)
  {
    FilterIsSubsequence(ms, (m: Membership) => m.user != memberId);
    Filter(ms, (m: Membership) => m.user != memberId)
  }

  /** Removing a member: the user keeps no entry, every other entry stays in
      order, removing a non-member changes nothing, and entries stay unique. */
  lemma RemovedMemberLeaves(pr: Project, memberId: ObjectId)
    ensures var p := pr.(members := WithoutMember(pr.members, memberId));
      && !IsMember(p, memberId)
      && (memberId != pr.owner ==> !HasAccess(p, memberId))
      && (!IsMember(pr, memberId) ==> p == pr)
      && (UniqueMembers(pr) ==> UniqueMembers(p))
  {
    var keep := (m: Membership) => m.user != memberId;
    var p := pr.(members := WithoutMember(pr.members, memberId));
    assert p.members == Filter(pr.members, keep);
    if !IsMember(pr, memberId) {
      FilterAll(pr.members, keep);
    }
    if UniqueMembers(pr) {
      FilterKeepsDistinctKeys(pr.members, keep, (m: Membership) => m.user);
    }
  }

  /** `DELETE /api/projects/:id/members/:memberId`: 404 unless the caller passes
      the write filter; otherwise every entry of that user is dropped. */
  method RemoveMember(db: Db, caller: ObjectId, id: ObjectId, memberId: ObjectId) returns (reply: Reply<Project>)
    requires db.Valid()
    modifies db
    ensures db.Valid()
    ensures reply.Fail? <==> AdminIndex(old(db.projects), id, caller).None?
    ensures reply.Fail? ==> reply.error == NotFound && db.projects == old(db.projects)
    ensures reply.Ok? ==>
      var i := AdminIndex(old(db.projects), id, caller).value;
      && reply.value == old(db.projects)[i].(members := WithoutMember(old(db.projects)[i].members, memberId))
      && db.projects == old(db.projects)[i := reply.value]
    ensures db.tasks == old(db.tasks) && db.users == old(db.users) && db.events == old(db.events) && db.nextId == old(db.nextId)
  {
    var found := AdminIndex(db.projects, id, caller);
    if found.None? {
      return Fail(NotFound);
    }
    var i := found.value;
    var updated := db.projects[i].(members := WithoutMember(db.projects[i].members, memberId));
    ReplaceProjectKeepsValid(db.tasks, db.projects, db.users, db.nextId, i, updated);
    db.projects := db.projects[i := updated];
    reply := Ok(updated);
  }
}
