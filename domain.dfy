/** The server's documents (tasks, projects, users with their notification
    inbox) and the store that the route handlers update. */
module Domain {
  import opened Common

  /** A document identifier (MongoDB ObjectId). */
  type ObjectId = nat

  datatype Column = Todo | Doing | Done
  datatype Priority = Low | Medium | High
  datatype Role = Admin | Member
  datatype NotificationType = TaskAssigned | TaskComment | ProjectInvite | TaskUpdated

  function ColumnName(c: Column): string
  {
    match c
    case Todo => "todo"
    case Doing => "doing"
    case Done => "done"
  }

  /** The schema's enum check on `column`: only "todo", "doing" and "done" are accepted. */
  function ParseColumn(s: string): (r: Option<Column>)
    ensures r.Some? ==> ColumnName(r.value) == s
    ensures r.None? <==> s != "todo" && s != "doing" && s != "done"
  {
    if s == "todo" then Some(Todo)
    else if s == "doing" then Some(Doing)
    else if s == "done" then Some(Done)
    else None
  }

  function PriorityName(p: Priority): string
  {
    match p
    case Low => "low"
    case Medium => "medium"
    case High => "high"
  }

  /** The schema's enum check on `priority`. */
  function ParsePriority(s: string): (r: Option<Priority>)
    ensures r.Some? ==> PriorityName(r.value) == s
    ensures r.None? <==> s != "low" && s != "medium" && s != "high"
  {
    if s == "low" then Some(Low)
    else if s == "medium" then Some(Medium)
    else if s == "high" then Some(High)
    else None
  }

  /** The schema's enum check on a member's `role`. */
  function ParseRole(s: string): (r: Option<Role>)
    ensures r == Some(Admin) <==> s == "admin"
    ensures r == Some(Member) <==> s == "member"
    ensures r.None? <==> s != "admin" && s != "member"
  {
    if s == "admin" then Some(Admin)
    else if s == "member" then Some(Member)
    else None
  }

  datatype Comment = Comment(user: ObjectId, text: string)

  datatype Task = Task(
    id: ObjectId,
    title: string,
    description: string,
    project: ObjectId,
    column: Column,
    priority: Priority,
    dueDate: Option<int>,
    assignedTo: seq<ObjectId>,
    position: int,
    comments: seq<Comment>,
    createdBy: ObjectId)

  datatype Membership = Membership(user: ObjectId, role: Role)

  datatype Project = Project(
    id: ObjectId,
    name: string,
    description: string,
    owner: ObjectId,
    members: seq<Membership>,
    color: string,
    background: string)

  /** A notification message, kept as its template and arguments (Render in
      module Notifications gives the text). */
  datatype MessageText =
    | AssignedText(taskTitle: string, projectName: string)
    | CommentText(commenterName: string, taskTitle: string)
    | UpdatedText(taskTitle: string, projectName: string)

  datatype Notification = Notification(
    id: nat,
    kind: NotificationType,
    message: MessageText,
    projectId: Option<ObjectId>,
    taskId: Option<ObjectId>,
    read: bool)

  datatype User = User(id: ObjectId, name: string, email: string, notifications: seq<Notification>)

  /** What the server emits on its socket, in emission order. */
  datatype Event =
    | EmitTaskCreated(projectId: ObjectId, task: Task)
    | EmitTaskUpdated(projectId: ObjectId, task: Task)
    | EmitTaskDeleted(projectId: ObjectId, taskId: ObjectId)
    | EmitNotificationCreated(userId: ObjectId, notification: Notification)

  /** The HTTP error statuses the routes answer with. */
  datatype Failure = BadRequest | Forbidden | NotFound | ServerError

  function StatusCode(f: Failure): (code: nat)
    ensures 400 <= code < 600
  {
    match f
    case BadRequest => 400
    case Forbidden => 403
    case NotFound => 404
    case ServerError => 500
  }

  datatype Reply<T> = Ok(value: T) | Fail(error: Failure)

  ghost predicate UniqueTaskIds(ts: seq<Task>)
  {
    forall i, j :: 0 <= i < |ts| && 0 <= j < |ts| && i != j ==> ts[i].id != ts[j].id
  }

  ghost predicate UniqueProjectIds(ps: seq<Project>)
  {
    forall i, j :: 0 <= i < |ps| && 0 <= j < |ps| && i != j ==> ps[i].id != ps[j].id
  }

  ghost predicate UniqueUserIds(us: seq<User>)
  {
    forall i, j :: 0 <= i < |us| && 0 <= j < |us| && i != j ==> us[i].id != us[j].id
  }

  /** Every notification's id is its index in the owner's inbox (the inbox only grows). */
  ghost predicate InboxIdsAreIndices(us: seq<User>)
  {
    forall i, k :: 0 <= i < |us| && 0 <= k < |us[i].notifications| ==> us[i].notifications[k].id == k
  }

  /** The read/write access test of the task routes and the project reads:
      the caller owns the project or appears among its members, whatever the role. */
  predicate HasAccess(pr: Project, caller: ObjectId)
  {
    pr.owner == caller || IsMember(pr, caller)
  }

  /** Some member entry of the project names the user (`members.user`). */
  predicate IsMember(pr: Project, u: ObjectId)
  {
    exists i :: 0 <= i < |pr.members| && pr.members[i].user == u
  }

  /** The project lookup `findOne({_id, $or: [owner, members.user]})`: the project
      with that id, if the caller may see it. */
  function AccessibleProject(ps: seq<Project>, id: ObjectId, caller: ObjectId): (r: Option<Project>)
    requires UniqueProjectIds(ps)
    ensures r.Some? ==> r.value in ps && r.value.id == id && HasAccess(r.value, caller)
    ensures r.None? <==> forall i :: 0 <= i < |ps| && ps[i].id == id ==> !HasAccess(ps[i], caller)
  {
    match ProjectIndex(ps, id)
    case None => None
    case Some(i) => if HasAccess(ps[i], caller) then Some(ps[i]) else None
  }

  function TaskIndex(ts: seq<Task>, id: ObjectId): Option<nat>
  {
    FirstIndex(ts, (t: Task) => t.id == id)
  }

  function ProjectIndex(ps: seq<Project>, id: ObjectId): Option<nat>
  {
    FirstIndex(ps, (p: Project) => p.id == id)
  }

  function UserIndex(us: seq<User>, id: ObjectId): Option<nat>
  {
    FirstIndex(us, (u: User) => u.id == id)
  }

  /** The store's invariant: ids are unique within each collection, task and
      project ids come from the generator, every project has a name (the
      schema's `required`), and inboxes are numbered by index. */
  ghost predicate ValidState(tasks: seq<Task>, projects: seq<Project>, users: seq<User>, nextId: nat)
  {
    && UniqueTaskIds(tasks)
    && (forall i :: 0 <= i < |tasks| ==> tasks[i].id < nextId)
    && UniqueProjectIds(projects)
    && (forall i :: 0 <= i < |projects| ==> projects[i].id < nextId)
    && (forall i :: 0 <= i < |projects| ==> projects[i].name != [])
    && UniqueUserIds(users)
    && InboxIdsAreIndices(users)
  }

  /** A task stored under the generator's next id keeps the invariant once the generator advances. */
  lemma AppendFreshTask(tasks: seq<Task>, projects: seq<Project>, users: seq<User>, nextId: nat, t: Task)
    requires ValidState(tasks, projects, users, nextId) && t.id == nextId
    ensures ValidState(tasks + [t], projects, users, nextId + 1)
  {
    var r := tasks + [t];
    assert forall i :: 0 <= i < |tasks| ==> r[i] == tasks[i];
  }

  /** Likewise for a project. */
  lemma AppendFreshProject(tasks: seq<Task>, projects: seq<Project>, users: seq<User>, nextId: nat, p: Project)
    requires ValidState(tasks, projects, users, nextId) && p.id == nextId && p.name != []
    ensures ValidState(tasks, projects + [p], users, nextId + 1)
  {
    var r := projects + [p];
    assert forall i :: 0 <= i < |projects| ==> r[i] == projects[i];
  }

  /** The document store: the task, project and user collections, the id
      generator and the log of socket emissions. */
  class Db {
    var tasks: seq<Task>
    var projects: seq<Project>
    var users: seq<User>
    var nextId: nat
    var events: seq<Event>

    ghost predicate Valid()
      reads this
    {
      ValidState(tasks, projects, users, nextId)
    }

    constructor (registered: seq<User>)
      requires UniqueUserIds(registered)
      requires forall i :: 0 <= i < |registered| ==> registered[i].notifications == []
      ensures Valid()
      ensures tasks == [] && projects == [] && users == registered && events == []
    {
      tasks := [];
      projects := [];
      users := registered;
      nextId := 0;
      events := [];
    }
  }
}
