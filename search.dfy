/** The advanced search of the board: a text query and five optional
    filters, applied one after the other to the task list. */
module Search {
  import opened Common
  import opened Text
  import opened Client

  /** The filter panel; an empty string or `false` means "not set". */
  datatype Filters = Filters(priority: string, column: string, assignedTo: string, hasDueDate: bool, overdue: bool)

  /** The panel's initial state, and what `clearFilters` restores. */
  const NoFilters: Filters := Filters("", "", "", false, false)

  /** The text test, with the query already lower-cased (not trimmed). */
  predicate MatchesQuery(c: Card, query: string)
  {
    Contains(Lower(c.title), query) || (c.description.Some? && Contains(Lower(c.description.value), query))
  }

  /** A due date in the past on a task that is not done. */
  predicate Overdue(c: Card, now: int)
  {
    c.dueDate.Some? && c.dueDate.value < now && c.column != "done"
  }

  /** What the search asks of a task: with a non-blank query, its lower-cased
      title or description contains the lower-cased untrimmed query; each set
      filter matches exactly; with `hasDueDate` it has a due date; with
      `overdue` it is overdue and not done. */
  predicate Wanted(c: Card, searchQuery: string, f: Filters, now: int)
  {
    && (Trim(searchQuery) != [] ==> MatchesQuery(c, Lower(searchQuery)))
    && (f.priority != "" ==> c.priority == f.priority)
    && (f.column != "" ==> c.column == f.column)
    && (f.assignedTo != "" ==> AssignedTo(c, f.assignedTo))
    && (f.hasDueDate ==> c.dueDate.Some?)
    && (f.overdue ==> Overdue(c, now))
  }

  /** The search result: the wanted tasks, in the board's order. */
  function Matching(tasks: seq<Card>, searchQuery: string, f: Filters, now: int): seq<Card>
  {
    Filter(tasks, (c: Card) => Wanted(c, searchQuery, f, now))
  }

  // The six narrowing steps of `handleSearch`, each applied to the result of
  // the one before.

  function AfterQuery(tasks: seq<Card>, searchQuery: string): seq<Card>
  {
    if Trim(searchQuery) != [] then
      var query := Lower(searchQuery);
      Filter(tasks, (task: Card) => MatchesQuery(task, query))
    else tasks
  }

  function AfterPriority(tasks: seq<Card>, searchQuery: string, filters: Filters): seq<Card>
  {
    var results := AfterQuery(tasks, searchQuery);
    if filters.priority != "" then Filter(results, (task: Card) => task.priority == filters.priority) else results
  }

  function AfterColumn(tasks: seq<Card>, searchQuery: string, filters: Filters): seq<Card>
  {
    var results := AfterPriority(tasks, searchQuery, filters);
    if filters.column != "" then Filter(results, (task: Card) => task.column == filters.column) else results
  }

  function AfterAssignee(tasks: seq<Card>, searchQuery: string, filters: Filters): seq<Card>
  {
    var results := AfterColumn(tasks, searchQuery, filters);
    if filters.assignedTo != "" then Filter(results, (task: Card) => AssignedTo(task, filters.assignedTo)) else results
  }

  function AfterDueDate(tasks: seq<Card>, searchQuery: string, filters: Filters): seq<Card>
  {
    var results := AfterAssignee(tasks, searchQuery, filters);
    if filters.hasDueDate then Filter(results, (task: Card) => task.dueDate.Some?) else results
  }

  function AfterOverdue(tasks: seq<Card>, searchQuery: string, filters: Filters, now: int): seq<Card>
  {
    var results := AfterDueDate(tasks, searchQuery, filters);
    if filters.overdue then Filter(results, (task: Card) => Overdue(task, now)) else results
  }

  /** Step `k` of the pipeline, as a test on one card; a step whose criterion
      is not set lets every card through. */
  predicate Step(c: Card, searchQuery: string, f: Filters, now: int, k: nat)
  {
    if k == 0 then Trim(searchQuery) == [] || MatchesQuery(c, Lower(searchQuery))
    else if k == 1 then f.priority == "" || c.priority == f.priority
    else if k == 2 then f.column == "" || c.column == f.column
    else if k == 3 then f.assignedTo == "" || AssignedTo(c, f.assignedTo)
    else if k == 4 then !f.hasDueDate || c.dueDate.Some?
    else !f.overdue || Overdue(c, now)
  }

  /** The card passes the first `n` steps. */
  predicate PassesFirst(c: Card, searchQuery: string, f: Filters, now: int, n: nat)
    decreases n
  {
    n == 0 || (PassesFirst(c, searchQuery, f, now, n - 1) && Step(c, searchQuery, f, now, n - 1))
  }

  /** Passing all six steps is being wanted. */
  lemma PassesAllSteps(c: Card, searchQuery: string, f: Filters, now: int)
    ensures PassesFirst(c, searchQuery, f, now, 6) <==> Wanted(c, searchQuery, f, now)
  {
    var q, n := searchQuery, now;
    assert PassesFirst(c, q, f, n, 1) == Step(c, q, f, n, 0);
    assert PassesFirst(c, q, f, n, 2) == (PassesFirst(c, q, f, n, 1) && Step(c, q, f, n, 1));
    assert PassesFirst(c, q, f, n, 3) == (PassesFirst(c, q, f, n, 2) && Step(c, q, f, n, 2));
    assert PassesFirst(c, q, f, n, 4) == (PassesFirst(c, q, f, n, 3) && Step(c, q, f, n, 3));
    assert PassesFirst(c, q, f, n, 5) == (PassesFirst(c, q, f, n, 4) && Step(c, q, f, n, 4));
    assert PassesFirst(c, q, f, n, 6) == (PassesFirst(c, q, f, n, 5) && Step(c, q, f, n, 5));
  }

  /** One more step: when the list so far is the tasks passing the first `k`
      steps, narrowing it by step `k` (or leaving it, when the criterion is not
      set) gives the tasks passing the first `k + 1`. */
  lemma Extend(tasks: seq<Card>, prev: seq<Card>, active: bool, p: Card -> bool, searchQuery: string, f: Filters, now: int, k: nat)
    requires prev == Filter(tasks, (c: Card) => PassesFirst(c, searchQuery, f, now, k))
    requires forall c :: Step(c, searchQuery, f, now, k) == (!active || p(c))
    ensures (if active then Filter(prev, p) else prev) == Filter(tasks, (c: Card) => PassesFirst(c, searchQuery, f, now, k + 1))
  {
    if active {
      FilterFilter(tasks, (c: Card) => PassesFirst(c, searchQuery, f, now, k), p,
        (c: Card) => PassesFirst(c, searchQuery, f, now, k + 1));
    } else {
      FilterCongruent(tasks, (c: Card) => PassesFirst(c, searchQuery, f, now, k),
        (c: Card) => PassesFirst(c, searchQuery, f, now, k + 1));
    }
  }

  lemma QueryStage(tasks: seq<Card>, searchQuery: string, f: Filters, now: int)
    ensures AfterQuery(tasks, searchQuery) == Filter(tasks, (c: Card) => PassesFirst(c, searchQuery, f, now, 1))
  {
    FilterAll(tasks, (c: Card) => PassesFirst(c, searchQuery, f, now, 0));
    var query := Lower(searchQuery);
    Extend(tasks, tasks, Trim(searchQuery) != [], (task: Card) => MatchesQuery(task, query), searchQuery, f, now, 0);
  }

  lemma PriorityStage(tasks: seq<Card>, searchQuery: string, filters: Filters, now: int)
    ensures AfterPriority(tasks, searchQuery, filters) == Filter(tasks, (c: Card) => PassesFirst(c, searchQuery, filters, now, 2))
  {
    QueryStage(tasks, searchQuery, filters, now);
    Extend(tasks, AfterQuery(tasks, searchQuery), filters.priority != "",
      (task: Card) => task.priority == filters.priority, searchQuery, filters, now, 1);
  }

  lemma ColumnStage(tasks: seq<Card>, searchQuery: string, filters: Filters, now: int)
    ensures AfterColumn(tasks, searchQuery, filters) == Filter(tasks, (c: Card) => PassesFirst(c, searchQuery, filters, now, 3))
  {
    PriorityStage(tasks, searchQuery, filters, now);
    Extend(tasks, AfterPriority(tasks, searchQuery, filters), filters.column != "",
      (task: Card) => task.column == filters.column, searchQuery, filters, now, 2);
  }

  lemma AssigneeStage(tasks: seq<Card>, searchQuery: string, filters: Filters, now: int)
    ensures AfterAssignee(tasks, searchQuery, filters) == Filter(tasks, (c: Card) => PassesFirst(c, searchQuery, filters, now, 4))
  {
    ColumnStage(tasks, searchQuery, filters, now);
    Extend(tasks, AfterColumn(tasks, searchQuery, filters), filters.assignedTo != "",
      (task: Card) => AssignedTo(task, filters.assignedTo), searchQuery, filters, now, 3);
  }

  lemma DueDateStage(tasks: seq<Card>, searchQuery: string, filters: Filters, now: int)
    ensures AfterDueDate(tasks, searchQuery, filters) == Filter(tasks, (c: Card) => PassesFirst(c, searchQuery, filters, now, 5))
  {
    AssigneeStage(tasks, searchQuery, filters, now);
    Extend(tasks, AfterAssignee(tasks, searchQuery, filters), filters.hasDueDate,
      (task: Card) => task.dueDate.Some?, searchQuery, filters, now, 4);
  }

  lemma OverdueStage(tasks: seq<Card>, searchQuery: string, filters: Filters, now: int)
    ensures AfterOverdue(tasks, searchQuery, filters, now) == Filter(tasks, (c: Card) => PassesFirst(c, searchQuery, filters, now, 6))
  {
    DueDateStage(tasks, searchQuery, filters, now);
    Extend(tasks, AfterDueDate(tasks, searchQuery, filters), filters.overdue,
      (task: Card) => Overdue(task, now), searchQuery, filters, now, 5);
  }

  /** Applying the six steps one after the other is a single filter by what
      the search asks of a task. */
  lemma PipelineIsMatching(tasks: seq<Card>, searchQuery: string, filters: Filters, now: int)
    ensures AfterOverdue(tasks, searchQuery, filters, now) == Matching(tasks, searchQuery, filters, now)
  {
    OverdueStage(tasks, searchQuery, filters, now);
    forall i | 0 <= i < |tasks|
      ensures PassesFirst(tasks[i], searchQuery, filters, now, 6) == Wanted(tasks[i], searchQuery, filters, now)
    {
      PassesAllSteps(tasks[i], searchQuery, filters, now);
    }
    FilterCongruent(tasks, (c: Card) => PassesFirst(c, searchQuery, filters, now, 6),
      (c: Card) => Wanted(c, searchQuery, filters, now));
  }

  /** `handleSearch`: `results` starts as the task list and each set criterion
      narrows it with a `filter`; the result is exactly the wanted tasks, in
      the board's order. `now` is the time of the search. */
  method HandleSearch(tasks: seq<Card>, searchQuery: string, filters: Filters, now: int) returns (results: seq<Card>)
    ensures results == Matching(tasks, searchQuery, filters, now)
  {
    results := tasks;
    if Trim(searchQuery) != [] {
      var query := Lower(searchQuery);
      results := Filter(results, (task: Card) => MatchesQuery(task, query));
    }
    assert results == AfterQuery(tasks, searchQuery);
    if filters.priority != "" {
      results := Filter(results, (task: Card) => task.priority == filters.priority);
    }
    assert results == AfterPriority(tasks, searchQuery, filters);
    if filters.column != "" {
      results := Filter(results, (task: Card) => task.column == filters.column);
    }
    assert results == AfterColumn(tasks, searchQuery, filters);
    if filters.assignedTo != "" {
      results := Filter(results, (task: Card) => AssignedTo(task, filters.assignedTo));
    }
    assert results == AfterAssignee(tasks, searchQuery, filters);
    if filters.hasDueDate {
      results := Filter(results, (task: Card) => task.dueDate.Some?);
    }
    assert results == AfterDueDate(tasks, searchQuery, filters);
    if filters.overdue {
      results := Filter(results, (task: Card) => Overdue(task, now));
    }
    assert results == AfterOverdue(tasks, searchQuery, filters, now);
    PipelineIsMatching(tasks, searchQuery, filters, now);
  }

  /** The result holds exactly the wanted tasks, in the board's order. */
  lemma MatchingMeans(tasks: seq<Card>, searchQuery: string, f: Filters, now: int)
    ensures forall c :: c in Matching(tasks, searchQuery, f, now) <==> c in tasks && Wanted(c, searchQuery, f, now)
    ensures IsSubsequence(Matching(tasks, searchQuery, f, now), tasks)
  {
    FilterIsSubsequence(tasks, (c: Card) => Wanted(c, searchQuery, f, now));
  }

  /** A blank query with no filter set keeps every task. */
  lemma NothingSetKeepsAll(tasks: seq<Card>, searchQuery: string, now: int)
    requires Trim(searchQuery) == []
    ensures Matching(tasks, searchQuery, NoFilters, now) == tasks
  {
    FilterAll(tasks, (c: Card) => Wanted(c, searchQuery, NoFilters, now));
  }

  /** Each criterion only narrows: setting one more filter on top of others
      gives a subsequence of the previous result. */
  lemma MoreFiltersNarrow(tasks: seq<Card>, searchQuery: string, f: Filters, g: Filters, now: int)
    requires forall c :: Wanted(c, searchQuery, g, now) ==> Wanted(c, searchQuery, f, now)
    ensures Matching(tasks, searchQuery, g, now) == Filter(Matching(tasks, searchQuery, f, now), (c: Card) => Wanted(c, searchQuery, g, now))
  {
    FilterFilter(tasks, (c: Card) => Wanted(c, searchQuery, f, now), (c: Card) => Wanted(c, searchQuery, g, now),
      (c: Card) => Wanted(c, searchQuery, g, now));
  }

  /** The search panel's state. */
  datatype Panel = Panel(searchQuery: string, filters: Filters)

  /** `clearFilters`: an empty query, no filter, and the full list handed to the board. */
  function ClearFilters(tasks: seq<Card>): (r: (Panel, seq<Card>))
    ensures r.1 == tasks
  {
    (Panel("", NoFilters), tasks)
  }

  /** Searching right after clearing gives the full list again. */
  lemma SearchAfterClear(tasks: seq<Card>, now: int)
    ensures var p := ClearFilters(tasks).0;
      Matching(tasks, p.searchQuery, p.filters, now) == ClearFilters(tasks).1
  {
    NothingSetKeepsAll(tasks, "", now);
  }
}
