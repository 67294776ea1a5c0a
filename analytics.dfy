/** The project dashboard's statistics: counts per column, per priority and
    of overdue tasks, and the number of assignments per member. */
module Analytics {
  import opened Common
  import opened Client
  import Kanban
  import Search

  // ---------------------------------------------------------------------------
  // Counts by column, priority and due date

  /** `tasks.filter(t => t.priority === p)`. */
  function OfPriority(tasks: seq<Card>, p: string): seq<Card>
  {
    Filter(tasks, (t: Card) => t.priority == p)
  }

  /** The overdue tasks: a due date before `now`, and not done. */
  function OverdueTasks(tasks: seq<Card>, now: int): seq<Card>
  {
    Filter(tasks, (t: Card) => Search.Overdue(t, now))
  }

  /** Three filters by pairwise different priorities that between them cover
      every task split the tasks. */
  lemma {:induction false} ThreePrioritiesSplit(tasks: seq<Card>, a: string, b: string, c: string)
    requires a != b && b != c && a != c
    requires forall i :: 0 <= i < |tasks| ==> tasks[i].priority == a || tasks[i].priority == b || tasks[i].priority == c
    ensures |OfPriority(tasks, a)| + |OfPriority(tasks, b)| + |OfPriority(tasks, c)| == |tasks|
    decreases |tasks|
  {
    if tasks != [] {
      ThreePrioritiesSplit(tasks[1..], a, b, c);
    }
  }

  /** An overdue task is never done, so overdue and done tasks together are
      at most all tasks. */
  lemma {:induction false} OverdueAreNotDone(tasks: seq<Card>, now: int)
    ensures |OverdueTasks(tasks, now)| + |Kanban.OfColumn(tasks, "done")| <= |tasks|
    decreases |tasks|
  {
    if tasks != [] {
      OverdueAreNotDone(tasks[1..], now);
    }
  }

  // ---------------------------------------------------------------------------
  // Assignments per member

  /** One row of `tasksByMember`. */
  datatype MemberCount = MemberCount(memberId: DocId, memberName: string, taskCount: nat)

  /** The name shown for an assignee with no name, and for a bare id. */
  const Unassigned: string := "Non assign\U{E9}"

  /** `member.name || 'Non assigné'`: a bare id has no name. */
  function NameOf(a: Assignee): (r: string)
    ensures r != []
    ensures a.Populated? && a.name != [] ==> r == a.name
    ensures !(a.Populated? && a.name != []) ==> r == Unassigned
  {
    match a
    case Populated(_, name) => if name != [] then name else Unassigned
    case Raw(_) => Unassigned
  }

  /** A task's assignees; an absent list has none. */
  function AssigneesOf(t: Card): seq<Assignee>
  {
    if t.assignedTo.Some? then t.assignedTo.value else []
  }

  /** Every assignment of the tasks, task by task, in order. */
  function AssigneeStream(tasks: seq<Card>): seq<Assignee>
    decreases |tasks|
  {
    if tasks == [] then [] else AssigneeStream(tasks[..|tasks| - 1]) + AssigneesOf(tasks[|tasks| - 1])
  }

  /** The row for an id, if there is one. */
  function EntryIndex(tally: seq<MemberCount>, id: DocId): Option<nat>
  {
    FirstIndex(tally, (e: MemberCount) => e.memberId == id)
  }

  /** One assignment counted: a new row (count 1, the assignee's name) for an
      id not seen yet, one more on the existing row otherwise. */
  function Bump(tally: seq<MemberCount>, a: Assignee): seq<MemberCount>
  {
    match EntryIndex(tally, IdOf(a))
    case None => tally + [MemberCount(IdOf(a), NameOf(a), 1)]
    case Some(i) => tally[i := tally[i].(taskCount := tally[i].taskCount + 1)]
  }

  /** The rows after counting a stream of assignments, in order of first appearance. */
  function TallyOf(stream: seq<Assignee>): seq<MemberCount>
    decreases |stream|
  {
    if stream == [] then [] else Bump(TallyOf(stream[..|stream| - 1]), stream[|stream| - 1])
  }

  /** The number of assignments to an id. */
  function IdCount(stream: seq<Assignee>, id: DocId): nat
    decreases |stream|
  {
    if stream == [] then 0
    else IdCount(stream[..|stream| - 1], id) + (if IdOf(stream[|stream| - 1]) == id then 1 else 0)
  }

  /** The sum of the rows' counts. */
  function TotalCount(tally: seq<MemberCount>): nat
    decreases |tally|
  {
    if tally == [] then 0 else TotalCount(tally[..|tally| - 1]) + tally[|tally| - 1].taskCount
  }

  lemma {:induction false} TotalCountAppend(tally: seq<MemberCount>, e: MemberCount)
    ensures TotalCount(tally + [e]) == TotalCount(tally) + e.taskCount
  {
    assert (tally + [e])[..|tally|] == tally;
  }

  lemma {:induction false} TotalCountBumped(tally: seq<MemberCount>, i: nat)
    requires i < |tally|
    ensures TotalCount(tally[i := tally[i].(taskCount := tally[i].taskCount + 1)]) == TotalCount(tally) + 1
    decreases |tally|
  {
    var t := tally[i := tally[i].(taskCount := tally[i].taskCount + 1)];
    if i < |tally| - 1 {
      assert t[..|t| - 1] == tally[..|tally| - 1][i := tally[i].(taskCount := tally[i].taskCount + 1)];
      TotalCountBumped(tally[..|tally| - 1], i);
    } else {
      assert t[..|t| - 1] == tally[..|tally| - 1];
    }
  }

  /** Counting one more assignment is one more `Bump`. */
  lemma TallyLast(stream: seq<Assignee>)
    requires stream != []
    ensures TallyOf(stream) == Bump(TallyOf(stream[..|stream| - 1]), stream[|stream| - 1])
    ensures IdCount(stream, IdOf(stream[|stream| - 1])) == IdCount(stream[..|stream| - 1], IdOf(stream[|stream| - 1])) + 1
    ensures forall id :: id != IdOf(stream[|stream| - 1]) ==> IdCount(stream, id) == IdCount(stream[..|stream| - 1], id)
  {
  }

  /** A new id gets a fresh last row; a known id keeps every row's id and
      adds one to its own row only. */
  lemma BumpShape(tally: seq<MemberCount>, a: Assignee)
    ensures EntryIndex(tally, IdOf(a)).None? ==>
      && Bump(tally, a) == tally + [MemberCount(IdOf(a), NameOf(a), 1)]
      && forall j :: 0 <= j < |tally| ==> tally[j].memberId != IdOf(a)
    ensures EntryIndex(tally, IdOf(a)).Some? ==>
      var k := EntryIndex(tally, IdOf(a)).value;
      && k < |tally| && tally[k].memberId == IdOf(a)
      && |Bump(tally, a)| == |tally|
      && (forall j :: 0 <= j < |tally| ==> Bump(tally, a)[j].memberId == tally[j].memberId && Bump(tally, a)[j].memberName == tally[j].memberName)
      && (forall j :: 0 <= j < |tally| && j != k ==> Bump(tally, a)[j].taskCount == tally[j].taskCount)
      && Bump(tally, a)[k].taskCount == tally[k].taskCount + 1
  {
  }

  /** Each assignment adds exactly one to the total. */
  lemma {:induction false} TallyTotal(stream: seq<Assignee>)
    ensures TotalCount(TallyOf(stream)) == |stream|
    decreases |stream|
  {
    if stream != [] {
      var prev := TallyOf(stream[..|stream| - 1]);
      var a := stream[|stream| - 1];
      TallyTotal(stream[..|stream| - 1]);
      TallyLast(stream);
      BumpTotal(prev, a);
    }
  }

  /** Counting one more assignment adds one to the total. */
  lemma BumpTotal(tally: seq<MemberCount>, a: Assignee)
    ensures TotalCount(Bump(tally, a)) == TotalCount(tally) + 1
  {
    match EntryIndex(tally, IdOf(a))
    case None => TotalCountAppend(tally, MemberCount(IdOf(a), NameOf(a), 1));
    case Some(i) => TotalCountBumped(tally, i);
  }

  /** No two rows of a tally share an id. */
  ghost predicate DistinctIds(tally: seq<MemberCount>)
  {
    forall i, j :: 0 <= i < j < |tally| ==> tally[i].memberId != tally[j].memberId
  }

  /** Some row of the tally is for `id`. */
  ghost predicate HasRow(tally: seq<MemberCount>, id: DocId)
  {
    exists i :: 0 <= i < |tally| && tally[i].memberId == id
  }

  /** No id gets two rows. */
  lemma {:induction false} TallyDistinct(stream: seq<Assignee>)
    ensures DistinctIds(TallyOf(stream))
    decreases |stream|
  {
    if stream != [] {
      var prev := TallyOf(stream[..|stream| - 1]);
      var a := stream[|stream| - 1];
      TallyDistinct(stream[..|stream| - 1]);
      TallyLast(stream);
      BumpShape(prev, a);
    }
  }

  /** An id has a row exactly when it was assigned at least once. */
  lemma {:induction false} TallyCoversAssigned(stream: seq<Assignee>, id: DocId)
    ensures HasRow(TallyOf(stream), id) <==> IdCount(stream, id) > 0
    decreases |stream|
  {
    if stream != [] {
      var prev := TallyOf(stream[..|stream| - 1]);
      var a := stream[|stream| - 1];
      TallyCoversAssigned(stream[..|stream| - 1], id);
      TallyLast(stream);
      BumpShape(prev, a);
      var r := TallyOf(stream);
      if EntryIndex(prev, IdOf(a)).None? {
        assert r[|prev|].memberId == IdOf(a);
        if HasRow(prev, id) {
          var i :| 0 <= i < |prev| && prev[i].memberId == id;
          assert r[i].memberId == id;
        }
      } else {
        if HasRow(prev, id) {
          var i :| 0 <= i < |prev| && prev[i].memberId == id;
          assert r[i].memberId == id;
        }
        if HasRow(r, id) {
          var i :| 0 <= i < |r| && r[i].memberId == id;
          assert prev[i].memberId == id;
        }
      }
    }
  }

  /** Each row counts every assignment to its id. */
  lemma {:induction false} TallyCounts(stream: seq<Assignee>)
    ensures forall i :: 0 <= i < |TallyOf(stream)| ==> TallyOf(stream)[i].taskCount == IdCount(stream, TallyOf(stream)[i].memberId)
    decreases |stream|
  {
    if stream != [] {
      var rest := stream[..|stream| - 1];
      var prev := TallyOf(rest);
      var a := stream[|stream| - 1];
      TallyCounts(rest);
      TallyDistinct(rest);
      TallyCoversAssigned(rest, IdOf(a));
      TallyLast(stream);
      BumpShape(prev, a);
      var r := TallyOf(stream);
      if EntryIndex(prev, IdOf(a)).None? {
        assert !HasRow(prev, IdOf(a));
      }
    }
  }

  /** Position `k` of the stream is the first assignment to the row's id,
      and gave the row its name. */
  ghost predicate NamedBy(stream: seq<Assignee>, k: int, e: MemberCount)
  {
    && 0 <= k < |stream| && IdOf(stream[k]) == e.memberId && NameOf(stream[k]) == e.memberName
    && IdCount(stream[..k], e.memberId) == 0
  }

  /** A row's name is that of the first assignment to its id; later
      assignments only add to the count. */
  lemma {:induction false} RowNamedByFirst(stream: seq<Assignee>, i: nat)
    requires i < |TallyOf(stream)|
    ensures exists k :: NamedBy(stream, k, TallyOf(stream)[i])
    decreases |stream|
  {
    var rest := stream[..|stream| - 1];
    var prev := TallyOf(rest);
    var a := stream[|stream| - 1];
    TallyLast(stream);
    BumpShape(prev, a);
    var r := TallyOf(stream);
    if i < |prev| {
      RowNamedByFirst(rest, i);
      var k :| NamedBy(rest, k, prev[i]);
      assert stream[k] == rest[k] && stream[..k] == rest[..k];
      assert NamedBy(stream, k, r[i]);
    } else {
      TallyCoversAssigned(rest, IdOf(a));
      assert !HasRow(prev, IdOf(a));
      assert NamedBy(stream, |stream| - 1, r[i]);
    }
  }

  lemma StreamStep(tasks: seq<Card>, i: nat)
    requires i < |tasks|
    ensures AssigneeStream(tasks[..i + 1]) == AssigneeStream(tasks[..i]) + AssigneesOf(tasks[i])
  {
    assert tasks[..i + 1][..i] == tasks[..i];
  }

  /** Counting a batch of assignments one after the other, from the front. */
  function BumpAll(tally: seq<MemberCount>, batch: seq<Assignee>): seq<MemberCount>
    decreases |batch|
  {
    if batch == [] then tally else BumpAll(Bump(tally, batch[0]), batch[1..])
  }

  /** Counting a stream and then a batch is counting the stream followed by the batch. */
  lemma {:induction false} TallyOfAppend(stream: seq<Assignee>, batch: seq<Assignee>)
    ensures TallyOf(stream + batch) == BumpAll(TallyOf(stream), batch)
    decreases |batch|
  {
    if batch == [] {
      assert stream + batch == stream;
    } else {
      var next := stream + [batch[0]];
      assert stream + batch == next + batch[1..];
      assert next[..|stream|] == stream;
      TallyOfAppend(next, batch[1..]);
    }
  }

  /** The two-step update of `memberTasks[memberId]` is one `Bump`: `created`
      is the tally after the row was created with count 0 if it was missing,
      and `at` the index of the member's row in it. */
  lemma CreateThenIncrement(tally: seq<MemberCount>, member: Assignee, at: nat, created: seq<MemberCount>)
    requires EntryIndex(tally, IdOf(member)).None? ==>
      at == |tally| && created == tally + [MemberCount(IdOf(member), NameOf(member), 0)]
    requires EntryIndex(tally, IdOf(member)).Some? ==>
      at == EntryIndex(tally, IdOf(member)).value && created == tally
    ensures at < |created|
    ensures created[at := created[at].(taskCount := created[at].taskCount + 1)] == Bump(tally, member)
  {
  }

  /** Peeling the first assignment of the rest of a batch. */
  lemma BumpAllStep(tally: seq<MemberCount>, batch: seq<Assignee>, j: nat)
    requires j < |batch|
    ensures BumpAll(tally, batch[j..]) == BumpAll(Bump(tally, batch[j]), batch[j + 1..])
  {
    assert batch[j..][0] == batch[j] && batch[j..][1..] == batch[j + 1..];
  }

  /** `memberTasks` and its `Object.entries`: for every task with assignees,
      each assignee either gets a new row (named, with count 0) or finds its
      row, and the row's count goes up by one. Rows stay in order of first
      appearance, as the entries of a string-keyed object do. */
  method MemberTally(tasks: seq<Card>) returns (tally: seq<MemberCount>)
    ensures tally == TallyOf(AssigneeStream(tasks))
  {
    tally := [];
    for i := 0 to |tasks|
      invariant tally == TallyOf(AssigneeStream(tasks[..i]))
    {
      var task := tasks[i];
      StreamStep(tasks, i);
      TallyOfAppend(AssigneeStream(tasks[..i]), AssigneesOf(task));
      if task.assignedTo.Some? && |task.assignedTo.value| > 0 {
        var members := task.assignedTo.value;
        ghost var start := tally;
        assert members[0..] == members;
        for j := 0 to |members|
          invariant BumpAll(tally, members[j..]) == BumpAll(start, members)
        {
          var member := members[j];
          var memberId := IdOf(member);
          var memberName := NameOf(member);
          ghost var prev := tally;
          var at: nat;
          match EntryIndex(tally, memberId) {
            case None =>
              at := |tally|;
              tally := tally + [MemberCount(memberId, memberName, 0)];
            case Some(row) =>
              at := row;
          }
          CreateThenIncrement(prev, member, at, tally);
          BumpAllStep(prev, members, j);
          tally := tally[at := tally[at].(taskCount := tally[at].taskCount + 1)];
        }
        assert members[|members|..] == [];
      } else {
        assert AssigneesOf(task) == [];
      }
    }
    assert tasks[..|tasks|] == tasks;
  }

  // ---------------------------------------------------------------------------
  // The dashboard

  datatype PriorityCounts = PriorityCounts(high: nat, medium: nat, low: nat)

  /** The figures `fetchAnalytics` stores (the percentages are left out). */
  datatype Summary = Summary(
    totalTasks: nat,
    completedTasks: nat,
    inProgressTasks: nat,
    todoTasks: nat,
    overdueTasks: nat,
    tasksByPriority: PriorityCounts,
    tasksByMember: seq<MemberCount>)

  /** The figures for a task list, as `fetchAnalytics` defines them. */
  function Summarize(tasks: seq<Card>, now: int): Summary
  {
    Summary(
      |tasks|,
      |Kanban.OfColumn(tasks, "done")|,
      |Kanban.OfColumn(tasks, "doing")|,
      |Kanban.OfColumn(tasks, "todo")|,
      |OverdueTasks(tasks, now)|,
      PriorityCounts(|OfPriority(tasks, "high")|, |OfPriority(tasks, "medium")|, |OfPriority(tasks, "low")|),
      TallyOf(AssigneeStream(tasks)))
  }

  /** `fetchAnalytics` on the fetched task list; `now` is the time of the fetch. */
  method FetchAnalytics(tasks: seq<Card>, now: int) returns (s: Summary)
    ensures s == Summarize(tasks, now)
  {
    var totalTasks := |tasks|;
    var completedTasks := |Filter(tasks, (t: Card) => t.column == "done")|;
    var inProgressTasks := |Filter(tasks, (t: Card) => t.column == "doing")|;
    var todoTasks := |Filter(tasks, (t: Card) => t.column == "todo")|;
    var overdueTasks := |Filter(tasks, (t: Card) => Search.Overdue(t, now))|;
    var tasksByPriority := PriorityCounts(
      |Filter(tasks, (t: Card) => t.priority == "high")|,
      |Filter(tasks, (t: Card) => t.priority == "medium")|,
      |Filter(tasks, (t: Card) => t.priority == "low")|);
    var tasksByMember := MemberTally(tasks);
    s := Summary(totalTasks, completedTasks, inProgressTasks, todoTasks, overdueTasks, tasksByPriority, tasksByMember);
  }

  /** With every column in the enum, the column counts add up to the total. */
  lemma ColumnCountsAddUp(tasks: seq<Card>, now: int)
    requires forall i :: 0 <= i < |tasks| ==> tasks[i].column == "todo" || tasks[i].column == "doing" || tasks[i].column == "done"
    ensures var s := Summarize(tasks, now); s.todoTasks + s.inProgressTasks + s.completedTasks == s.totalTasks
  {
    Kanban.ThreeColumnsSplit(tasks, "todo", "doing", "done");
  }

  /** With every priority in the enum, the priority counts add up to the total. */
  lemma PriorityCountsAddUp(tasks: seq<Card>, now: int)
    requires forall i :: 0 <= i < |tasks| ==> tasks[i].priority == "high" || tasks[i].priority == "medium" || tasks[i].priority == "low"
    ensures var p := Summarize(tasks, now).tasksByPriority; p.high + p.medium + p.low == |tasks|
  {
    ThreePrioritiesSplit(tasks, "high", "medium", "low");
  }

  /** Overdue tasks are never done ones. */
  lemma OverdueWithinOpen(tasks: seq<Card>, now: int)
    ensures var s := Summarize(tasks, now); s.overdueTasks + s.completedTasks <= s.totalTasks
  {
    OverdueAreNotDone(tasks, now);
  }

  /** The member counts add up to the number of assignments; each member
      appears once, with every assignment to it counted. */
  lemma MemberCountsAddUp(tasks: seq<Card>, now: int)
    ensures var m := Summarize(tasks, now).tasksByMember;
      && TotalCount(m) == |AssigneeStream(tasks)|
      && DistinctIds(m)
      && forall i :: 0 <= i < |m| ==> m[i].taskCount == IdCount(AssigneeStream(tasks), m[i].memberId)
  {
    TallyTotal(AssigneeStream(tasks));
    TallyDistinct(AssigneeStream(tasks));
    TallyCounts(AssigneeStream(tasks));
  }
}
