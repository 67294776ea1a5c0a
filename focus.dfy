/** Focus mode: a toggle that narrows the board to the tasks assigned to the
    signed-in user, and back. */
module Focus {
  import opened Common
  import opened Client
  import Text
  import Search
  import Board

  /** The activation test on one task: it has a non-empty assignee list and
      one of its assignees is the user. With no user signed in no assignee
      matches, since an assignee id is never absent. */
  predicate Mine(task: Card, user: Option<DocId>)
  {
    if task.assignedTo.None? || |task.assignedTo.value| == 0 then false
    else exists i :: 0 <= i < |task.assignedTo.value| && Some(IdOf(task.assignedTo.value[i])) == user
  }

  /** `myTasks`: the tasks assigned to the user, in the board's order. */
  function MyTasks(tasks: seq<Card>, user: Option<DocId>): seq<Card>
  {
    Filter(tasks, (task: Card) => Mine(task, user))
  }

  /** The component's state after a click, and the list it hands to the board. */
  datatype Toggled = Toggled(isActive: bool, passed: seq<Card>)

  /** `toggleFocusMode`: activating hands over the user's tasks, deactivating
      the full list; the flag flips either way. */
  function ToggleFocusMode(isActive: bool, tasks: seq<Card>, user: Option<DocId>): (r: Toggled)
    ensures r.isActive == !isActive
    ensures isActive ==> r.passed == tasks
    ensures !isActive ==> forall c :: c in r.passed <==> c in tasks && Mine(c, user)
  {
    if !isActive then Toggled(true, MyTasks(tasks, user)) else Toggled(false, tasks)
  }

  /** `myTasksCount`, shown while the mode is active. */
  function MyTasksCount(tasks: seq<Card>, user: Option<DocId>): (n: nat)
    ensures n <= |tasks|
  {
    |MyTasks(tasks, user)|
  }

  /** What activation hands over keeps the board's order and is what the
      active badge counts. */
  lemma ActivationSelects(tasks: seq<Card>, user: Option<DocId>)
    ensures IsSubsequence(ToggleFocusMode(false, tasks, user).passed, tasks)
    ensures |ToggleFocusMode(false, tasks, user).passed| == MyTasksCount(tasks, user)
  {
    FilterIsSubsequence(tasks, (task: Card) => Mine(task, user));
  }

  /** A task without assignees is never in focus, whoever is signed in. */
  lemma UnassignedNeverShown(tasks: seq<Card>, user: Option<DocId>, c: Card)
    requires c.assignedTo.None? || c.assignedTo.value == []
    ensures c !in MyTasks(tasks, user)
  {
  }

  /** With nobody signed in, focus mode shows nothing. */
  lemma NoUserNoTasks(tasks: seq<Card>)
    ensures MyTasks(tasks, None) == []
  {
    FilterNone(tasks, (task: Card) => Mine(task, None));
  }

  /** Clicking twice returns to the inactive state and hands the full list back. */
  lemma ToggleTwice(tasks: seq<Card>, user: Option<DocId>)
    ensures var once := ToggleFocusMode(false, tasks, user);
      var twice := ToggleFocusMode(once.isActive, tasks, user);
      !twice.isActive && twice.passed == tasks
  {
  }

  /** On one task: being the user's is passing the assignee filter set to the user's id. */
  lemma MineIsWanted(c: Card, user: DocId, now: int)
    ensures Mine(c, Some(user)) == Search.Wanted(c, "", Search.Filters("", "", user, false, false), now)
  {
    assert Text.Trim("") == [];
    if AssignedTo(c, user) {
      var k :| 0 <= k < |c.assignedTo.value| && IdOf(c.assignedTo.value[k]) == user;
      assert Some(IdOf(c.assignedTo.value[k])) == Some(user);
    }
  }

  /** Focus mode selects what the advanced search selects with an empty query
      and only the assignee filter set to the user's id. */
  lemma FocusIsAssigneeSearch(tasks: seq<Card>, user: DocId, now: int)
    ensures MyTasks(tasks, Some(user)) == Search.Matching(tasks, "", Search.Filters("", "", user, false, false), now)
  {
    var f := Search.Filters("", "", user, false, false);
    forall i | 0 <= i < |tasks|
      ensures Mine(tasks[i], Some(user)) == Search.Wanted(tasks[i], "", f, now)
    {
      MineIsWanted(tasks[i], user, now);
    }
    FilterCongruent(tasks, (task: Card) => Mine(task, Some(user)), (c: Card) => Search.Wanted(c, "", f, now));
  }

  /** Whichever way the toggle goes, the board then shows exactly the list
      handed over. */
  lemma BoardShowsToggle(v: Board.View, isActive: bool, user: Option<DocId>)
    ensures var r := ToggleFocusMode(isActive, v.tasks, user);
      Board.Displayed(Board.FocusFilter(v, r.passed)) == r.passed
  {
    var r := ToggleFocusMode(isActive, v.tasks, user);
    if !isActive {
      ActivationSelects(v.tasks, user);
    } else {
      FilterAll(v.tasks, (c: Card) => true);
      FilterIsSubsequence(v.tasks, (c: Card) => true);
    }
    Board.FocusShowsSelection(v, r.passed);
  }
}
