/** The task routes of the server: create, list, update, move, delete and
    comment. Each handler is one atomic step on the store; its reply is the
    HTTP outcome, and the socket emissions and notifications it causes are
    appended to the store's event log and the users' inboxes. */
module TaskRoutes {
  import opened Common
  import opened Text
  import opened Domain
  import opened Ordering
  import opened Notifications

  /** The body of `POST /api/tasks`. Absent fields are `None`; an absent
      `assignedTo` is the empty list. */
  datatype NewTask = NewTask(
    title: Option<string>,
    description: Option<string>,
    project: Option<ObjectId>,
    column: Option<string>,
    priority: Option<string>,
    dueDate: Option<int>,
    assignedTo: seq<ObjectId>)

  /** The body of `PUT /api/tasks/:id`: every field is optional; `dueDate` may
      be given as null (`Some(None)`) to clear it. */
  datatype TaskPatch = TaskPatch(
    title: Option<string>,
    description: Option<string>,
    column: Option<string>,
    priority: Option<string>,
    dueDate: Option<Option<int>>,
    assignedTo: Option<seq<ObjectId>>,
    position: Option<int>)

  /** The column a new task lands in: `todo` when absent, the schema's enum otherwise. */
  function NewColumn(column: Option<string>): (r: Option<Column>)
    ensures column.None? ==> r == Some(Todo)
    ensures column.Some? ==> r == ParseColumn(column.value)
  {
    match column
    case None => Some(Todo)
    case Some(s) => ParseColumn(s)
  }

  /** The priority a new task gets: `medium` when absent, the schema's enum otherwise. */
  function NewPriority(priority: Option<string>): (r: Option<Priority>)
    ensures priority.None? ==> r == Some(Medium)
    ensures priority.Some? ==> r == ParsePriority(priority.value)
  {
    match priority
    case None => Some(Medium)
    case Some(s) => ParsePriority(s)
  }

  /** The create route's validation: a title that trims to something and a project id. */
  predicate ValidNewTask(body: NewTask)
  {
    body.title.Some? && Trim(body.title.value) != [] && body.project.Some?
  }

  /** Why the create route refuses a body, in the order it checks: a missing
      title or project (400), no visible project (404), a column or priority
      outside the schema's enums (500, when the insert fails validation). */
  function CreateFailure(ps: seq<Project>, caller: ObjectId, body: NewTask): (r: Option<Failure>)
    requires UniqueProjectIds(ps)
    ensures r != Some(Forbidden)
    ensures r.None? ==>
      && body.title.Some? && Trim(body.title.value) != []
      && body.project.Some? && (exists i :: 0 <= i < |ps| && ps[i].id == body.project.value && HasAccess(ps[i], caller))
      && (body.column.None? || (body.column.value == "todo" || body.column.value == "doing" || body.column.value == "done"))
      && (body.priority.None? || (body.priority.value == "low" || body.priority.value == "medium" || body.priority.value == "high"))
  {
    if !ValidNewTask(body) then Some(BadRequest)
    else if AccessibleProject(ps, body.project.value, caller).None? then Some(NotFound)
    else if NewColumn(body.column).None? || NewPriority(body.priority).None? then Some(ServerError)
    else None
  }

  /** The create route answers 400 exactly for a blank title or a missing project,
      404 exactly when no project with that id is visible to the caller, 500
      exactly for a column or priority outside the enums, and never 403. */
  lemma CreateFailureCases(ps: seq<Project>, caller: ObjectId, body: NewTask)
    requires UniqueProjectIds(ps)
    ensures var r := CreateFailure(ps, caller, body);
      && (r == Some(BadRequest) <==> body.title.None? || Trim(body.title.value) == [] || body.project.None?)
      && (r == Some(NotFound) <==>
          ValidNewTask(body) && forall i :: 0 <= i < |ps| && ps[i].id == body.project.value ==> !HasAccess(ps[i], caller))
      && (r == Some(ServerError) <==>
          ValidNewTask(body) && (exists i :: 0 <= i < |ps| && ps[i].id == body.project.value && HasAccess(ps[i], caller))
          && ((body.column.Some? && ParseColumn(body.column.value).None?) || (body.priority.Some? && ParsePriority(body.priority.value).None?)))
      && r != Some(Forbidden)
  {
  }

  // ---------------------------------------------------------------------------
  // Notification choice of the update route

  /** Which notification an update sends. */
  datatype Notice = NoNotice | AssignedNotice(users: seq<ObjectId>) | UpdatedNotice(users: seq<ObjectId>)

  /** The update route's choice: without `assignedTo` nothing is sent; otherwise
      the users new to the list get `task-assigned`, and only when there are none
      does the whole (non-empty) list get `task-updated`. */
  function UpdateNotice(oldAssignees: seq<ObjectId>, assignedTo: Option<seq<ObjectId>>): (n: Notice)
    ensures assignedTo.None? ==> n == NoNotice
    ensures n.AssignedNotice? ==> n.users != [] && forall u :: u in n.users <==> u in assignedTo.value && u !in oldAssignees
    ensures n.AssignedNotice? ==> IsSubsequence(n.users, assignedTo.value)
    ensures n.AssignedNotice? ==>
      forall u :: multiset(n.users)[u] == if u !in oldAssignees then multiset(assignedTo.value)[u] else 0
    ensures n.UpdatedNotice? ==> n.users == assignedTo.value && n.users != [] && forall u :: u in n.users ==> u in oldAssignees
    ensures n == NoNotice ==> assignedTo.None? || assignedTo.value == []
  {
    match assignedTo
    case None => NoNotice
    case Some(now) =>
      var newly := Filter(now, u => u !in oldAssignees);
      FilterIsSubsequence(now, u => u !in oldAssignees);
      FilterMultiplicities(now, u => u !in oldAssignees);
      if |newly| > 0 then AssignedNotice(newly)
      else if |now| > 0 then
        assert forall u :: u in now ==> u in oldAssignees;
        UpdatedNotice(now)
      else NoNotice
  }

  /** The users a comment notifies: the assignees other than the commenter. */
  function CommentRecipients(assignees: seq<ObjectId>, commenter: ObjectId): (r: seq<ObjectId>)
    ensures commenter !in r
    ensures forall u :: u in r <==> u in assignees && u != commenter
    ensures IsSubsequence(r, assignees)
    ensures forall u :: multiset(r)[u] == if u != commenter then multiset(assignees)[u] else 0
  {
    FilterIsSubsequence(assignees, u => u != commenter);
    FilterMultiplicities(assignees, u => u != commenter);
    Filter(assignees, u => u != commenter)
  }

  /** The project's name as the update route sees it: that route loads the
      project with only its owner and members, so the name it puts into its
      notification messages is JavaScript's `undefined`. */
  const UnloadedName: string := "undefined"

  // ---------------------------------------------------------------------------
  // Handlers

  /** `GET /api/tasks/project/:projectId`: the project's tasks, for a caller with access. */
  method ListTasks(db: Db, caller: ObjectId, projectId: ObjectId) returns (reply: Reply<seq<Task>>)
    requires db.Valid()
    ensures reply.Fail? <==> AccessibleProject(db.projects, projectId, caller).None?
    ensures reply.Fail? ==> reply.error == NotFound
    ensures reply.Ok? ==> forall t :: t in reply.value <==> t in db.tasks && t.project == projectId
    ensures reply.Ok? ==> IsSubsequence(reply.value, db.tasks)
  {
    if AccessibleProject(db.projects, projectId, caller).None? {
      return Fail(NotFound);
    }
    FilterIsSubsequence(db.tasks, (t: Task) => t.project == projectId);
    reply := Ok(Filter(db.tasks, (t: Task) => t.project == projectId));
  }

  /** `POST /api/tasks`. The new task gets a fresh id and the position after the
      highest one in its column (0 in an empty column); its assignees are
      notified, then `task-created` is emitted. */
  method CreateTask(db: Db, caller: ObjectId, body: NewTask) returns (reply: Reply<Task>)
    requires db.Valid()
    modifies db
    ensures db.Valid()
    ensures reply.Fail? <==> CreateFailure(old(db.projects), caller, body).Some?
    ensures reply.Fail? ==> reply.error == CreateFailure(old(db.projects), caller, body).value
    ensures reply.Fail? ==> db.tasks == old(db.tasks) && db.users == old(db.users) && db.events == old(db.events) && db.nextId == old(db.nextId)
    ensures reply.Ok? ==>
      var t := reply.value;
      && body.project == Some(t.project)
      && AccessibleProject(old(db.projects), t.project, caller).Some?
      && var pl := Payload(TaskAssigned, AssignedText(t.title, AccessibleProject(old(db.projects), t.project, caller).value.name), Some(t.project), Some(t.id));
      && t.id == old(db.nextId) && db.nextId == old(db.nextId) + 1
      && t.title == Trim(body.title.value) && t.createdBy == caller && t.comments == []
      && Some(t.column) == NewColumn(body.column) && Some(t.priority) == NewPriority(body.priority)
      && t.description == (if body.description.Some? then body.description.value else "")
      && t.dueDate == body.dueDate && t.assignedTo == body.assignedTo
      && t.position == NextPosition(old(db.tasks), t.project, t.column)
      && db.tasks == old(db.tasks) + [t]
      && db.users == DeliverAll(old(db.users), body.assignedTo, pl)
      && db.events == old(db.events) + FanOutEvents(old(db.users), body.assignedTo, pl) + [EmitTaskCreated(t.project, t)]
    ensures db.projects == old(db.projects)
  {
    ghost var failure := CreateFailure(db.projects, caller, body);
    if !ValidNewTask(body) {
      return Fail(BadRequest);
    }
    var project := AccessibleProject(db.projects, body.project.value, caller);
    if project.None? {
      return Fail(NotFound);
    }
    var pr := project.value;
    var column := NewColumn(body.column);
    var priority := NewPriority(body.priority);
    if column.None? || priority.None? {
      return Fail(ServerError);
    }
    assert failure.None?;
    var position := NextPosition(db.tasks, pr.id, column.value);
    var t := Task(db.nextId, Trim(body.title.value), if body.description.Some? then body.description.value else "",
                  pr.id, column.value, priority.value, body.dueDate, body.assignedTo, position, [], caller);
    StoreNewTask(db, t, pr);
    reply := Ok(t);
  }

  /** The create route after validation: insert the task, notify its assignees
      (when there are any) and emit `task-created`. */
  method StoreNewTask(db: Db, t: Task, pr: Project)
    requires db.Valid() && t.id == db.nextId && t.project == pr.id
    modifies db
    ensures db.Valid()
    ensures var pl := Payload(TaskAssigned, AssignedText(t.title, pr.name), Some(t.project), Some(t.id));
      && db.tasks == old(db.tasks) + [t] && db.nextId == old(db.nextId) + 1
      && db.users == DeliverAll(old(db.users), t.assignedTo, pl)
      && db.events == old(db.events) + FanOutEvents(old(db.users), t.assignedTo, pl) + [EmitTaskCreated(t.project, t)]
    ensures db.projects == old(db.projects)
  {
    AppendFreshTask(db.tasks, db.projects, db.users, db.nextId, t);
    db.tasks := db.tasks + [t];
    db.nextId := db.nextId + 1;
    if |t.assignedTo| > 0 {
      NotifyTaskAssigned(db, t.assignedTo, t.title, pr.name, t.id, pr.id);
    }
    db.events := db.events + [EmitTaskCreated(pr.id, t)];
  }

  /** Looks up the task and its project and checks the caller's access, as the
      update, move, delete and comment routes all do first. */
  method LoadForWrite(db: Db, caller: ObjectId, taskId: ObjectId) returns (found: Reply<(nat, Project)>)
    ensures TaskIndex(db.tasks, taskId).None? <==> found == Fail(NotFound)
    ensures found == Fail(ServerError) <==>
      TaskIndex(db.tasks, taskId).Some? && ProjectIndex(db.projects, db.tasks[TaskIndex(db.tasks, taskId).value].project).None?
    ensures found == Fail(Forbidden) <==>
      TaskIndex(db.tasks, taskId).Some? && ProjectIndex(db.projects, db.tasks[TaskIndex(db.tasks, taskId).value].project).Some?
      && !HasAccess(db.projects[ProjectIndex(db.projects, db.tasks[TaskIndex(db.tasks, taskId).value].project).value], caller)
    ensures found.Fail? ==> found.error != BadRequest
    ensures found.Ok? ==>
      && Some(found.value.0) == TaskIndex(db.tasks, taskId)
      && ProjectIndex(db.projects, db.tasks[found.value.0].project).Some?
      && found.value.1 == db.projects[ProjectIndex(db.projects, db.tasks[found.value.0].project).value]
      && HasAccess(found.value.1, caller)
  {
    var k := TaskIndex(db.tasks, taskId);
    if k.None? {
      return Fail(NotFound);
    }
    var i := ProjectIndex(db.projects, db.tasks[k.value].project);
    if i.None? {
      return Fail(ServerError);
    }
    var pr := db.projects[i.value];
    if !HasAccess(pr, caller) {
      return Fail(Forbidden);
    }
    found := Ok((k.value, pr));
  }

  /** `PUT /api/tasks/:id/move`: an invalid column or a non-integer position is
      refused before anything is looked up; otherwise the collection becomes
      MoveResult (whatever the integer, negative or past the end) and
      `task-updated` is emitted. */
  method MoveTask(db: Db, caller: ObjectId, taskId: ObjectId, column: string, position: Option<int>) returns (reply: Reply<Task>)
    requires db.Valid()
    modifies db
    ensures db.Valid()
    ensures reply == Fail(BadRequest) <==> ParseColumn(column).None? || position.None?
    ensures reply.Fail? ==> db.tasks == old(db.tasks) && db.events == old(db.events)
    ensures ParseColumn(column).Some? && position.Some? ==>
      match TaskIndex(old(db.tasks), taskId)
      case None => reply == Fail(NotFound)
      case Some(k) =>
        match ProjectIndex(old(db.projects), old(db.tasks)[k].project)
        case None => reply == Fail(ServerError)
        case Some(i) =>
          if !HasAccess(old(db.projects)[i], caller) then reply == Fail(Forbidden)
          else
            && db.tasks == MoveResult(old(db.tasks), k, ParseColumn(column).value, position.value)
            && reply == Ok(db.tasks[k])
            && db.events == old(db.events) + [EmitTaskUpdated(old(db.tasks)[k].project, db.tasks[k])]
    ensures db.projects == old(db.projects) && db.users == old(db.users) && db.nextId == old(db.nextId)
  {
    var c := ParseColumn(column);
    if c.None? || position.None? {
      return Fail(BadRequest);
    }
    var found := LoadForWrite(db, caller, taskId);
    if found.Fail? {
      return Fail(found.error);
    }
    var k := found.value.0;
    var t := db.tasks[k];
    MoveEffect(db.tasks, k, c.value, position.value);
    db.tasks := MoveResult(db.tasks, k, c.value, position.value);
    db.events := db.events + [EmitTaskUpdated(t.project, db.tasks[k])];
    reply := Ok(db.tasks[k]);
  }

  /** `DELETE /api/tasks/:id`: compacts the column above the task, removes it and
      emits `task-deleted`. */
  method DeleteTask(db: Db, caller: ObjectId, taskId: ObjectId) returns (reply: Reply<()>)
    requires db.Valid()
    modifies db
    ensures db.Valid()
    ensures reply.Fail? ==> reply.error != BadRequest && db.tasks == old(db.tasks) && db.events == old(db.events)
    ensures
      match TaskIndex(old(db.tasks), taskId)
      case None => reply == Fail(NotFound)
      case Some(k) =>
        match ProjectIndex(old(db.projects), old(db.tasks)[k].project)
        case None => reply == Fail(ServerError)
        case Some(i) => if !HasAccess(old(db.projects)[i], caller) then reply == Fail(Forbidden) else reply.Ok?
    ensures reply.Ok? ==>
      && TaskIndex(old(db.tasks), taskId).Some?
      && var k := TaskIndex(old(db.tasks), taskId).value;
      && db.tasks == DeleteResult(old(db.tasks), k)
      && db.events == old(db.events) + [EmitTaskDeleted(old(db.tasks)[k].project, taskId)]
      && forall t :: t in db.tasks ==> t.id != taskId
    ensures db.projects == old(db.projects) && db.users == old(db.users) && db.nextId == old(db.nextId)
  {
    var found := LoadForWrite(db, caller, taskId);
    if found.Fail? {
      return Fail(found.error);
    }
    var k := found.value.0;
    var t := db.tasks[k];
    DeleteResultIds(db.tasks, k);
    db.tasks := DeleteResult(db.tasks, k);
    db.events := db.events + [EmitTaskDeleted(t.project, taskId)];
    reply := Ok(());
  }

  /** The save of an updated task passes schema validation: a given title does
      not trim to nothing, a given column and priority are in their enums. */
  predicate PatchSaves(patch: TaskPatch)
    ensures PatchSaves(patch) <==>
      && (patch.title.None? || Trim(patch.title.value) != [])
      && (patch.column.None? || (patch.column.value == "todo" || patch.column.value == "doing" || patch.column.value == "done"))
      && (patch.priority.None? || (patch.priority.value == "low" || patch.priority.value == "medium" || patch.priority.value == "high"))
  {
    && (patch.title.None? || Trim(patch.title.value) != [])
    && (patch.column.None? || ParseColumn(patch.column.value).Some?)
    && (patch.priority.None? || ParsePriority(patch.priority.value).Some?)
  }

  /** `u` is `t` with exactly the fields the body defines overwritten (the title
      trimmed by the schema); id, project, comments and author are kept. */
  ghost predicate Merged(t: Task, patch: TaskPatch, u: Task)
  {
    && u.id == t.id && u.project == t.project && u.comments == t.comments && u.createdBy == t.createdBy
    && u.title == (if patch.title.Some? then Trim(patch.title.value) else t.title)
    && u.description == (if patch.description.Some? then patch.description.value else t.description)
    && (if patch.column.Some? then ParseColumn(patch.column.value) == Some(u.column) else u.column == t.column)
    && (if patch.priority.Some? then ParsePriority(patch.priority.value) == Some(u.priority) else u.priority == t.priority)
    && u.dueDate == (if patch.dueDate.Some? then patch.dueDate.value else t.dueDate)
    && u.assignedTo == (if patch.assignedTo.Some? then patch.assignedTo.value else t.assignedTo)
    && u.position == (if patch.position.Some? then patch.position.value else t.position)
  }

  /** The update route's `if (x !== undefined) task.x = x` assignments followed by
      the save's validation: `None` when the save would fail. */
  method ApplyPatch(t: Task, patch: TaskPatch) returns (saved: Option<Task>)
    ensures saved.Some? <==> PatchSaves(patch)
    ensures saved.Some? ==> Merged(t, patch, saved.value)
  {
    var title, description, column, priority := t.title, t.description, t.column, t.priority;
    var dueDate, assignedTo, position := t.dueDate, t.assignedTo, t.position;
    var valid := true;
    if patch.title.Some? {
      title := Trim(patch.title.value);
      valid := title != [];
    }
    assert title == (if patch.title.Some? then Trim(patch.title.value) else t.title);
    assert valid == (patch.title.None? || Trim(patch.title.value) != []);
    if patch.description.Some? {
      description := patch.description.value;
    }
    assert description == (if patch.description.Some? then patch.description.value else t.description);
    ghost var validBefore := valid;
    if patch.column.Some? {
      match ParseColumn(patch.column.value) {
        case Some(c) => column := c;
        case None => valid := false;
      }
    }
    assert if patch.column.Some? then ParseColumn(patch.column.value).Some? ==> ParseColumn(patch.column.value) == Some(column) else column == t.column;
    assert valid == (validBefore && (patch.column.None? || ParseColumn(patch.column.value).Some?));
    validBefore := valid;
    if patch.priority.Some? {
      match ParsePriority(patch.priority.value) {
        case Some(p) => priority := p;
        case None => valid := false;
      }
    }
    assert if patch.priority.Some? then ParsePriority(patch.priority.value).Some? ==> ParsePriority(patch.priority.value) == Some(priority) else priority == t.priority;
    assert valid == (validBefore && (patch.priority.None? || ParsePriority(patch.priority.value).Some?));
    if patch.dueDate.Some? {
      dueDate := patch.dueDate.value;
    }
    assert dueDate == (if patch.dueDate.Some? then patch.dueDate.value else t.dueDate);
    if patch.assignedTo.Some? {
      assignedTo := patch.assignedTo.value;
    }
    assert assignedTo == (if patch.assignedTo.Some? then patch.assignedTo.value else t.assignedTo);
    if patch.position.Some? {
      position := patch.position.value;
    }
    assert position == (if patch.position.Some? then patch.position.value else t.position);
    if !valid {
      return None;
    }
    saved := Some(t.(title := title, description := description, column := column, priority := priority,
                     dueDate := dueDate, assignedTo := assignedTo, position := position));
  }

  /** `PUT /api/tasks/:id`: overwrites the fields the body defines, then notifies
      as UpdateNotice chooses and emits `task-updated`. Other tasks keep their
      positions whatever the new column or position. */
  method UpdateTask(db: Db, caller: ObjectId, taskId: ObjectId, patch: TaskPatch) returns (reply: Reply<Task>)
    requires db.Valid()
    modifies db
    ensures db.Valid()
    ensures reply.Fail? ==> reply.error != BadRequest
    ensures reply.Fail? ==> db.tasks == old(db.tasks) && db.users == old(db.users) && db.events == old(db.events)
    ensures
      match TaskIndex(old(db.tasks), taskId)
      case None => reply == Fail(NotFound)
      case Some(k) =>
        match ProjectIndex(old(db.projects), old(db.tasks)[k].project)
        case None => reply == Fail(ServerError)
        case Some(i) =>
          if !HasAccess(old(db.projects)[i], caller) then reply == Fail(Forbidden)
          else if PatchSaves(patch) then reply.Ok?
          else reply == Fail(ServerError)
    ensures reply.Ok? ==>
      && TaskIndex(old(db.tasks), taskId).Some?
      && var k := TaskIndex(old(db.tasks), taskId).value;
         && PatchSaves(patch) && Merged(old(db.tasks)[k], patch, reply.value)
         && db.tasks == old(db.tasks)[k := reply.value]
         && UpdateSent(old(db.users), old(db.events), db.users, db.events, old(db.tasks)[k], reply.value, patch)
    ensures db.projects == old(db.projects) && db.nextId == old(db.nextId)
  {
    var found := LoadForWrite(db, caller, taskId);
    if found.Fail? {
      return Fail(found.error);
    }
    var k := found.value.0;
    var pr := found.value.1;
    var t := db.tasks[k];
    var saved := ApplyPatch(t, patch);
    if saved.None? {
      return Fail(ServerError);
    }
    var u := saved.value;
    ReplaceTaskKeepsValid(db, k, u);
    db.tasks := db.tasks[k := u];
    NotifyAndEmitUpdate(db, t, u, patch);
    reply := Ok(u);
  }

  /** The notifications and the `task-updated` emission that follow a saved
      update of `t` to `u`, from users `us0` and events `ev0` to `us1` and `ev1`. */
  ghost predicate UpdateSent(us0: seq<User>, ev0: seq<Event>, us1: seq<User>, ev1: seq<Event>, t: Task, u: Task, patch: TaskPatch)
  {
    match UpdateNotice(t.assignedTo, patch.assignedTo)
    case NoNotice =>
      us1 == us0 && ev1 == ev0 + [EmitTaskUpdated(t.project, u)]
    case AssignedNotice(rs) =>
      var pl := Payload(TaskAssigned, AssignedText(u.title, UnloadedName), Some(t.project), Some(t.id));
      us1 == DeliverAll(us0, rs, pl) && ev1 == ev0 + FanOutEvents(us0, rs, pl) + [EmitTaskUpdated(t.project, u)]
    case UpdatedNotice(rs) =>
      var pl := Payload(TaskUpdated, UpdatedText(u.title, UnloadedName), Some(t.project), Some(t.id));
      us1 == DeliverAll(us0, rs, pl) && ev1 == ev0 + FanOutEvents(us0, rs, pl) + [EmitTaskUpdated(t.project, u)]
  }

  /** Replacing a task by one with the same id keeps the store's invariant. */
  lemma ReplaceTaskKeepsValid(db: Db, k: nat, u: Task)
    requires db.Valid() && k < |db.tasks| && u.id == db.tasks[k].id
    ensures ValidState(db.tasks[k := u], db.projects, db.users, db.nextId)
  {
    var r := db.tasks[k := u];
    assert forall i :: 0 <= i < |r| ==> r[i].id == db.tasks[i].id;
  }

  method NotifyAndEmitUpdate(db: Db, t: Task, u: Task, patch: TaskPatch)
    requires db.Valid() && u.id == t.id && u.project == t.project
    modifies db
    ensures db.Valid()
    ensures UpdateSent(old(db.users), old(db.events), db.users, db.events, t, u, patch)
    ensures db.tasks == old(db.tasks) && db.projects == old(db.projects) && db.nextId == old(db.nextId)
  {
    var notice := UpdateNotice(t.assignedTo, patch.assignedTo);
    match notice {
      case NoNotice =>
      case AssignedNotice(rs) =>
        NotifyTaskAssigned(db, rs, u.title, UnloadedName, u.id, u.project);
      case UpdatedNotice(rs) =>
        NotifyTaskUpdated(db, rs, u.title, UnloadedName, u.id, u.project);
    }
    db.events := db.events + [EmitTaskUpdated(u.project, u)];
  }

  /** `POST /api/tasks/:id/comments`: appends one comment by the caller with the
      trimmed text, notifies the other assignees and emits `task-updated`. */
  method AddComment(db: Db, caller: ObjectId, callerName: string, taskId: ObjectId, text: Option<string>) returns (reply: Reply<Task>)
    requires db.Valid()
    modifies db
    ensures db.Valid()
    ensures reply == Fail(BadRequest) <==> text.None? || Trim(text.value) == []
    ensures reply.Fail? ==> db.tasks == old(db.tasks) && db.users == old(db.users) && db.events == old(db.events)
    ensures text.Some? && Trim(text.value) != [] ==>
      match TaskIndex(old(db.tasks), taskId)
      case None => reply == Fail(NotFound)
      case Some(k) =>
        match ProjectIndex(old(db.projects), old(db.tasks)[k].project)
        case None => reply == Fail(ServerError)
        case Some(i) => if !HasAccess(old(db.projects)[i], caller) then reply == Fail(Forbidden) else reply.Ok?
    ensures reply.Ok? ==>
      && TaskIndex(old(db.tasks), taskId).Some?
      && var k := TaskIndex(old(db.tasks), taskId).value;
         var t := old(db.tasks)[k];
         && reply.value == t.(comments := t.comments + [Comment(caller, Trim(text.value))])
         && db.tasks == old(db.tasks)[k := reply.value]
         && CommentSent(old(db.users), old(db.events), db.users, db.events, t, reply.value, caller, callerName)
    ensures db.projects == old(db.projects) && db.nextId == old(db.nextId)
  {
    if text.None? || Trim(text.value) == [] {
      return Fail(BadRequest);
    }
    var found := LoadForWrite(db, caller, taskId);
    if found.Fail? {
      return Fail(found.error);
    }
    var u := CommentOn(db, found.value.0, caller, callerName, Trim(text.value));
    reply := Ok(u);
  }

  /** The accepted comment: task `k` gains it, then the notifications and the emission follow. */
  method CommentOn(db: Db, k: nat, caller: ObjectId, callerName: string, body: string) returns (u: Task)
    requires db.Valid() && k < |db.tasks|
    modifies db
    ensures db.Valid()
    ensures var t := old(db.tasks)[k];
      && u == t.(comments := t.comments + [Comment(caller, body)])
      && db.tasks == old(db.tasks)[k := u]
      && CommentSent(old(db.users), old(db.events), db.users, db.events, t, u, caller, callerName)
    ensures db.projects == old(db.projects) && db.nextId == old(db.nextId)
  {
    var t := db.tasks[k];
    u := t.(comments := t.comments + [Comment(caller, body)]);
    ReplaceTaskKeepsValid(db, k, u);
    db.tasks := db.tasks[k := u];
    NotifyAndEmitComment(db, t, u, caller, callerName);
  }

  /** The notifications and the `task-updated` emission that follow a comment on
      `t` (giving `u`) by `caller`. */
  ghost predicate CommentSent(us0: seq<User>, ev0: seq<Event>, us1: seq<User>, ev1: seq<Event>, t: Task, u: Task, caller: ObjectId, callerName: string)
  {
    var rs := CommentRecipients(t.assignedTo, caller);
    var pl := Payload(TaskComment, CommentText(callerName, t.title), Some(t.project), Some(t.id));
    us1 == DeliverAll(us0, rs, pl) && ev1 == ev0 + FanOutEvents(us0, rs, pl) + [EmitTaskUpdated(t.project, u)]
  }

  method NotifyAndEmitComment(db: Db, t: Task, u: Task, caller: ObjectId, callerName: string)
    requires db.Valid()
    modifies db
    ensures db.Valid()
    ensures CommentSent(old(db.users), old(db.events), db.users, db.events, t, u, caller, callerName)
    ensures db.tasks == old(db.tasks) && db.projects == old(db.projects) && db.nextId == old(db.nextId)
  {
    var rs := CommentRecipients(t.assignedTo, caller);
    if |rs| > 0 {
      NotifyTaskComment(db, rs, callerName, t.title, t.id, t.project);
    }
    db.events := db.events + [EmitTaskUpdated(t.project, u)];
  }
}
