/** The project page: how socket events and modal results update the task
    list, who counts as an admin, and which list the board displays. */
module Board {
  import opened Common
  import opened Client

  // ---------------------------------------------------------------------------
  // Task-list reducers

  /** `prev.map(t => t._id === updated._id ? updated : t)` (`task-updated`, and
      `handleTaskUpdated` after the modal or a move). */
  function ReplaceById(prev: seq<Card>, updated: Card): (r: seq<Card>)
    ensures |r| == |prev|
    ensures forall i :: 0 <= i < |r| ==> r[i].id == prev[i].id
    ensures forall i :: 0 <= i < |r| ==> r[i] == if prev[i].id == updated.id then updated else prev[i]
  {
    seq(|prev|, i requires 0 <= i < |prev| => if prev[i].id == updated.id then updated else prev[i])
  }

  /** `[...prev, created]` (`task-created`, and `handleTaskCreated`). */
  function Appended(prev: seq<Card>, created: Card): (r: seq<Card>)
    ensures |r| == |prev| + 1 && r[..|prev|] == prev && r[|prev|] == created
  {
    prev + [created]
  }

  /** `prev.filter(t => t._id !== taskId)` (`task-deleted`). */
  function RemoveById(prev: seq<Card>, taskId: string): (r: seq<Card>)
    ensures forall c :: c in r <==> c in prev && c.id != taskId
    ensures IsSubsequence(r, prev)
  {
    FilterIsSubsequence(prev, (c: Card) => c.id != taskId);
    Filter(prev, (c: Card) => c.id != taskId)
  }

  /** Replaying an update is harmless, and an update for an id the list does
      not hold changes nothing. */
  lemma ReplaceByIdIdempotent(prev: seq<Card>, updated: Card)
    ensures ReplaceById(ReplaceById(prev, updated), updated) == ReplaceById(prev, updated)
    ensures (forall i :: 0 <= i < |prev| ==> prev[i].id != updated.id) ==> ReplaceById(prev, updated) == prev
  {
  }

  /** A created task that is deleted again leaves the list as it was, provided
      its id was new. */
  lemma CreateThenDelete(prev: seq<Card>, created: Card)
    requires forall i :: 0 <= i < |prev| ==> prev[i].id != created.id
    ensures RemoveById(Appended(prev, created), created.id) == prev
  {
    var p := (c: Card) => c.id != created.id;
    FilterAppend(prev, [created], p);
    FilterAll(prev, p);
    FilterNone([created], p);
    assert RemoveById(Appended(prev, created), created.id) == Filter(prev + [created], p);
  }

  /** Deleting the same id twice is deleting it once. */
  lemma RemoveByIdIdempotent(prev: seq<Card>, taskId: string)
    ensures RemoveById(RemoveById(prev, taskId), taskId) == RemoveById(prev, taskId)
  {
    var p := (c: Card) => c.id != taskId;
    FilterAll(Filter(prev, p), p);
  }

  // ---------------------------------------------------------------------------
  // Admin rights on the page

  datatype BoardMember = BoardMember(user: DocId, role: string)
  datatype BoardProject = BoardProject(id: DocId, owner: DocId, members: seq<BoardMember>)

  /** `isOwner || project?.members.some(m => m.user._id === user?.id && m.role === 'admin')`,
      with `None` for a project not yet loaded or a user not logged in. With
      neither, `isOwner` compares `undefined` with `undefined` and holds. */
  predicate IsAdmin(project: Option<BoardProject>, user: Option<DocId>)
  {
    if project.None? then user.None?
    else
      user.Some?
      && (project.value.owner == user.value
          || exists i :: 0 <= i < |project.value.members| && project.value.members[i].user == user.value && project.value.members[i].role == "admin")
  }

  /** The "new task" button: admins only, and only on the board view. */
  predicate ShowCreateButton(project: Option<BoardProject>, user: Option<DocId>, showAnalytics: bool, showActivityFeed: bool)
  {
    IsAdmin(project, user) && !showAnalytics && !showActivityFeed
  }

  /** The page's test ties the role to the user's own entry: a logged-in user
      who does not own the project and whose entries all say something other
      than `admin` is not an admin, and so never sees the create button. */
  lemma PlainMemberIsNotAdmin(project: BoardProject, user: DocId, showAnalytics: bool, showActivityFeed: bool)
    requires project.owner != user
    requires forall i :: 0 <= i < |project.members| && project.members[i].user == user ==> project.members[i].role != "admin"
    ensures !IsAdmin(Some(project), Some(user))
    ensures !ShowCreateButton(Some(project), Some(user), showAnalytics, showActivityFeed)
  {
  }

  // ---------------------------------------------------------------------------
  // The displayed list

  /** The page's list state: all tasks, the last search or focus result, and
      whether that result is shown. */
  datatype View = View(tasks: seq<Card>, filteredTasks: seq<Card>, isFiltered: bool)

  /** `fetchTasks`: both lists become the fetched one; the flag is kept. */
  function Fetched(v: View, fetched: seq<Card>): (r: View)
    ensures r.tasks == fetched && r.filteredTasks == fetched && r.isFiltered == v.isFiltered
  {
    View(fetched, fetched, v.isFiltered)
  }

  /** `handleSearchResults`: a search result is always shown. */
  function SearchResults(v: View, results: seq<Card>): (r: View)
    ensures r.tasks == v.tasks && r.filteredTasks == results && r.isFiltered
  {
    v.(filteredTasks := results, isFiltered := true)
  }

  /** `handleFocusFilter`: a focus result is shown when its length differs from the task count. */
  function FocusFilter(v: View, results: seq<Card>): (r: View)
    ensures r.tasks == v.tasks && r.filteredTasks == results
    ensures r.isFiltered <==> |results| != |v.tasks|
  {
    v.(filteredTasks := results, isFiltered := |results| != |v.tasks|)
  }

  /** `isFiltered ? filteredTasks : tasks`. */
  function Displayed(v: View): seq<Card>
  {
    if v.isFiltered then v.filteredTasks else v.tasks
  }

  /** Whatever the focus filter hands over, as long as it selects from the
      tasks in order, the board then shows exactly that selection; the
      length test only skips the copy when nothing was filtered out. */
  lemma FocusShowsSelection(v: View, results: seq<Card>)
    requires IsSubsequence(results, v.tasks)
    ensures Displayed(FocusFilter(v, results)) == results
  {
    if |results| == |v.tasks| {
      FullSubsequence(results, v.tasks);
    }
  }
}
