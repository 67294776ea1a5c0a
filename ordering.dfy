/** Per-column task ordering on the server: every task has an integer
    `position` within its (project, column) pair. The bulk position updates that
    the create, move and delete handlers issue are defined here as functions on
    the task collection, together with what they preserve and what they do not. */
module Ordering {
  import opened Common
  import opened Domain

  predicate InColumn(t: Task, p: ObjectId, c: Column)
  {
    t.project == p && t.column == c
  }

  /** Number of tasks of project `p` in column `c`. */
  function CountIn(ts: seq<Task>, p: ObjectId, c: Column): (n: nat)
    ensures n <= |ts|
    ensures n == 0 <==> forall i :: 0 <= i < |ts| ==> !InColumn(ts[i], p, c)
    decreases |ts|
  {
    if ts == [] then 0
    else (if InColumn(ts[0], p, c) then 1 else 0) + CountIn(ts[1..], p, c)
  }

  ghost predicate PositionsDistinct(ts: seq<Task>, p: ObjectId, c: Column)
  {
    forall i, j :: 0 <= i < |ts| && 0 <= j < |ts| && i != j && InColumn(ts[i], p, c) && InColumn(ts[j], p, c)
      ==> ts[i].position != ts[j].position
  }

  ghost predicate PositionsBelow(ts: seq<Task>, p: ObjectId, c: Column, n: int)
  {
    forall i :: 0 <= i < |ts| && InColumn(ts[i], p, c) ==> 0 <= ts[i].position < n
  }

  /** The ordering invariant of a column: its n tasks hold distinct positions in
      [0, n), i.e. exactly the positions 0 .. n-1 (see ContiguousIsExactRange). */
  ghost predicate Contiguous(ts: seq<Task>, p: ObjectId, c: Column)
  {
    PositionsBelow(ts, p, c, CountIn(ts, p, c)) && PositionsDistinct(ts, p, c)
  }

  /** The set of positions used in a column. */
  function Positions(ts: seq<Task>, p: ObjectId, c: Column): set<int>
    decreases |ts|
  {
    if ts == [] then {}
    else (if InColumn(ts[0], p, c) then {ts[0].position} else {}) + Positions(ts[1..], p, c)
  }

  function Range(n: nat): (r: set<int>)
    ensures forall v :: v in r <==> 0 <= v < n
    ensures |r| == n
  {
    if n == 0 then {} else Range(n - 1) + {n - 1}
  }

  // ---------------------------------------------------------------------------
  // Counting

  lemma {:induction false} CountConcat(a: seq<Task>, b: seq<Task>, p: ObjectId, c: Column)
    ensures CountIn(a + b, p, c) == CountIn(a, p, c) + CountIn(b, p, c)
    decreases |a|
  {
    if a == [] {
      assert a + b == b;
    } else {
      assert (a + b)[0] == a[0];
      assert (a + b)[1..] == a[1..] + b;
      CountConcat(a[1..], b, p, c);
    }
  }

  /** Replacing one task changes the count by what the old and the new task contribute. */
  lemma CountUpdate(ts: seq<Task>, k: nat, x: Task, p: ObjectId, c: Column)
    requires k < |ts|
    ensures CountIn(ts[k := x], p, c)
         == CountIn(ts, p, c) - (if InColumn(ts[k], p, c) then 1 else 0) + (if InColumn(x, p, c) then 1 else 0)
  {
    assert ts == ts[..k] + [ts[k]] + ts[k + 1..];
    assert ts[k := x] == ts[..k] + [x] + ts[k + 1..];
    CountConcat(ts[..k] + [ts[k]], ts[k + 1..], p, c);
    CountConcat(ts[..k], [ts[k]], p, c);
    CountConcat(ts[..k] + [x], ts[k + 1..], p, c);
    CountConcat(ts[..k], [x], p, c);
  }

  function RemoveAt(ts: seq<Task>, k: nat): (r: seq<Task>)
    requires k < |ts|
    ensures |r| == |ts| - 1
    ensures forall i :: 0 <= i < k ==> r[i] == ts[i]
    ensures forall i :: k <= i < |r| ==> r[i] == ts[i + 1]
  {
    ts[..k] + ts[k + 1..]
  }

  lemma CountRemove(ts: seq<Task>, k: nat, p: ObjectId, c: Column)
    requires k < |ts|
    ensures CountIn(RemoveAt(ts, k), p, c) == CountIn(ts, p, c) - (if InColumn(ts[k], p, c) then 1 else 0)
  {
    assert ts == ts[..k] + [ts[k]] + ts[k + 1..];
    CountConcat(ts[..k] + [ts[k]], ts[k + 1..], p, c);
    CountConcat(ts[..k], [ts[k]], p, c);
    CountConcat(ts[..k], ts[k + 1..], p, c);
  }

  /** Updates that touch only positions leave every column's count unchanged. */
  lemma {:induction false} CountSameShape(ts: seq<Task>, us: seq<Task>, p: ObjectId, c: Column)
    requires |ts| == |us|
    requires forall i :: 0 <= i < |ts| ==> us[i].project == ts[i].project && us[i].column == ts[i].column
    ensures CountIn(us, p, c) == CountIn(ts, p, c)
    decreases |ts|
  {
    if ts != [] {
      CountSameShape(ts[1..], us[1..], p, c);
    }
  }

  // ---------------------------------------------------------------------------
  // Contiguity is exactly the range 0 .. n-1

  lemma {:induction false} PositionsMember(ts: seq<Task>, p: ObjectId, c: Column, v: int)
    ensures v in Positions(ts, p, c) <==> exists i :: 0 <= i < |ts| && InColumn(ts[i], p, c) && ts[i].position == v
    decreases |ts|
  {
    if ts != [] {
      PositionsMember(ts[1..], p, c, v);
      if v in Positions(ts[1..], p, c) {
        var i :| 0 <= i < |ts[1..]| && InColumn(ts[1..][i], p, c) && ts[1..][i].position == v;
        assert InColumn(ts[i + 1], p, c) && ts[i + 1].position == v;
      }
      if exists i :: 0 <= i < |ts| && InColumn(ts[i], p, c) && ts[i].position == v {
        var i :| 0 <= i < |ts| && InColumn(ts[i], p, c) && ts[i].position == v;
        if i > 0 {
          assert InColumn(ts[1..][i - 1], p, c) && ts[1..][i - 1].position == v;
        }
      }
    }
  }

  lemma {:induction false} PositionsCard(ts: seq<Task>, p: ObjectId, c: Column)
    requires PositionsDistinct(ts, p, c)
    ensures |Positions(ts, p, c)| == CountIn(ts, p, c)
    decreases |ts|
  {
    if ts != [] {
      var tail := ts[1..];
      assert PositionsDistinct(tail, p, c) by {
        forall i, j | 0 <= i < |tail| && 0 <= j < |tail| && i != j && InColumn(tail[i], p, c) && InColumn(tail[j], p, c)
          ensures tail[i].position != tail[j].position
        {
          assert tail[i] == ts[i + 1] && tail[j] == ts[j + 1];
        }
      }
      PositionsCard(tail, p, c);
      if InColumn(ts[0], p, c) {
        PositionsMember(tail, p, c, ts[0].position);
        forall i | 0 <= i < |tail| && InColumn(tail[i], p, c)
          ensures tail[i].position != ts[0].position
        {
          assert tail[i] == ts[i + 1];
        }
      }
    }
  }

  /** A contiguous column of n tasks uses every position 0 .. n-1, and no other. */
  lemma ContiguousIsExactRange(ts: seq<Task>, p: ObjectId, c: Column)
    requires Contiguous(ts, p, c)
    ensures Positions(ts, p, c) == Range(CountIn(ts, p, c))
  {
    var n := CountIn(ts, p, c);
    var used := Positions(ts, p, c);
    PositionsCard(ts, p, c);
    forall v | v in used
      ensures v in Range(n)
    {
      PositionsMember(ts, p, c, v);
    }
    assert |Range(n) - used| == |Range(n)| - |used|;
  }

  // ---------------------------------------------------------------------------
  // The bulk updates: `updateMany(filter, {$inc: {position: ±1}})`

  /** The filter of the "close the gap" update: same project and column, position above the vacated one. */
  predicate Vacated(t: Task, p: ObjectId, c: Column, vacated: int)
  {
    InColumn(t, p, c) && t.position > vacated
  }

  /** Decrement every task of (p, c) whose position is above `vacated`. */
  function CloseGap(ts: seq<Task>, p: ObjectId, c: Column, vacated: int): (r: seq<Task>)
    ensures |r| == |ts|
  {
    seq(|ts|, i requires 0 <= i < |ts| =>
      if Vacated(ts[i], p, c, vacated) then ts[i].(position := ts[i].position - 1) else ts[i])
  }

  /** The filter of the "open a slot" update: same project and column, position at
      or above the target, and not the moving task. */
  predicate Displaced(t: Task, p: ObjectId, c: Column, target: int, mover: ObjectId)
  {
    InColumn(t, p, c) && t.position >= target && t.id != mover
  }

  /** Increment every task of (p, c) other than `mover` whose position is at least `target`. */
  function OpenSlot(ts: seq<Task>, p: ObjectId, c: Column, target: int, mover: ObjectId): (r: seq<Task>)
    ensures |r| == |ts|
  {
    seq(|ts|, i requires 0 <= i < |ts| =>
      if Displaced(ts[i], p, c, target, mover) then ts[i].(position := ts[i].position + 1) else ts[i])
  }

  // ---------------------------------------------------------------------------
  // Create: append at max + 1

  /** The highest position in (p, c), as the handler's `findOne` sorted by position descending finds it. */
  function MaxPosition(ts: seq<Task>, p: ObjectId, c: Column): (r: Option<int>)
    ensures r.None? <==> CountIn(ts, p, c) == 0
    ensures r.Some? ==> forall i :: 0 <= i < |ts| && InColumn(ts[i], p, c) ==> ts[i].position <= r.value
    ensures r.Some? ==> exists i :: 0 <= i < |ts| && InColumn(ts[i], p, c) && ts[i].position == r.value
    decreases |ts|
  {
    if ts == [] then None
    else
      var rest := MaxPosition(ts[1..], p, c);
      assert forall i :: 1 <= i < |ts| ==> ts[i] == ts[1..][i - 1];
      assert rest.Some? ==> exists i :: 1 <= i < |ts| && InColumn(ts[i], p, c) && ts[i].position == rest.value;
      if !InColumn(ts[0], p, c) then rest
      else if rest.None? || rest.value < ts[0].position then Some(ts[0].position)
      else rest
  }

  /** The position a created task receives: max + 1, or 0 in an empty column. */
  function NextPosition(ts: seq<Task>, p: ObjectId, c: Column): (q: int)
    ensures forall i :: 0 <= i < |ts| && InColumn(ts[i], p, c) ==> ts[i].position < q
    ensures CountIn(ts, p, c) == 0 ==> q == 0
    ensures CountIn(ts, p, c) > 0 ==> exists i :: 0 <= i < |ts| && InColumn(ts[i], p, c) && ts[i].position == q - 1
  {
    match MaxPosition(ts, p, c)
    case None => 0
    case Some(m) => m + 1
  }

  /** On a contiguous column of n tasks the created task lands at n, and the
      column stays contiguous with n + 1 tasks. */
  lemma CreateAppendsAtEnd(ts: seq<Task>, t: Task)
    requires Contiguous(ts, t.project, t.column)
    requires t.position == NextPosition(ts, t.project, t.column)
    ensures t.position == CountIn(ts, t.project, t.column)
    ensures Contiguous(ts + [t], t.project, t.column)
    ensures CountIn(ts + [t], t.project, t.column) == CountIn(ts, t.project, t.column) + 1
  {
    NextPositionIsCount(ts, t.project, t.column);
    AppendAtCount(ts, t);
  }

  /** In a contiguous column the maximum position is n - 1, so max + 1 is n. */
  lemma NextPositionIsCount(ts: seq<Task>, p: ObjectId, c: Column)
    requires Contiguous(ts, p, c)
    ensures NextPosition(ts, p, c) == CountIn(ts, p, c)
  {
    var n := CountIn(ts, p, c);
    if n > 0 {
      ContiguousIsExactRange(ts, p, c);
      PositionsMember(ts, p, c, n - 1);
      var m := MaxPosition(ts, p, c).value;
      var i :| 0 <= i < |ts| && InColumn(ts[i], p, c) && ts[i].position == m;
    }
  }

  /** Appending a task at position n to a contiguous column of n tasks keeps it contiguous. */
  lemma AppendAtCount(ts: seq<Task>, t: Task)
    requires Contiguous(ts, t.project, t.column)
    requires t.position == CountIn(ts, t.project, t.column)
    ensures Contiguous(ts + [t], t.project, t.column)
    ensures CountIn(ts + [t], t.project, t.column) == CountIn(ts, t.project, t.column) + 1
  {
    CountConcat(ts, [t], t.project, t.column);
    var r := ts + [t];
    assert forall i :: 0 <= i < |ts| ==> r[i] == ts[i];
  }

  // ---------------------------------------------------------------------------
  // Move, as the handler does it

  /** The move handler's effect on the collection: close the gap in the old column
      only when the column changes, open a slot in the target column, then store
      the mover at exactly (target column, target position). */
  function MoveResult(ts: seq<Task>, k: nat, target: Column, q: int): (r: seq<Task>)
    requires k < |ts|
    ensures |r| == |ts|
  {
    var t := ts[k];
    var closed := if t.column != target then CloseGap(ts, t.project, t.column, t.position) else ts;
    var shifted := OpenSlot(closed, t.project, target, q, t.id);
    shifted[k := t.(column := target, position := q)]
  }

  /** What a move does to each task: a cross-column move decrements the old
      column's tasks above the mover; every move increments the target column's
      other tasks at or above the target; the mover lands at exactly (target, q);
      nothing else changes. */
  lemma MoveEffect(ts: seq<Task>, k: nat, target: Column, q: int)
    requires k < |ts| && UniqueTaskIds(ts)
    ensures var r := MoveResult(ts, k, target, q);
      && r[k] == ts[k].(column := target, position := q)
      && forall i :: 0 <= i < |ts| && i != k ==>
          r[i] == ts[i].(position :=
            if ts[k].column != target && Vacated(ts[i], ts[k].project, ts[k].column, ts[k].position)
            then ts[i].position - 1
            else if InColumn(ts[i], ts[k].project, target) && ts[i].position >= q
            then ts[i].position + 1
            else ts[i].position)
  {
    var t := ts[k];
    var closed := if t.column != target then CloseGap(ts, t.project, t.column, t.position) else ts;
    forall i | 0 <= i < |ts| && i != k
      ensures closed[i].id == ts[i].id && closed[i].project == ts[i].project && closed[i].column == ts[i].column
    {
    }
  }

  /** After a move no other task of the target column shares the mover's position. */
  lemma MoveLeavesNoTie(ts: seq<Task>, k: nat, target: Column, q: int)
    requires k < |ts| && UniqueTaskIds(ts)
    ensures var r := MoveResult(ts, k, target, q);
      forall i :: 0 <= i < |r| && i != k && InColumn(r[i], ts[k].project, target) ==> r[i].position != q
  {
    MoveEffect(ts, k, target, q);
  }

  /** A move keeps the relative order of the target column's other tasks. */
  lemma MoveKeepsTargetOrder(ts: seq<Task>, k: nat, target: Column, q: int)
    requires k < |ts| && UniqueTaskIds(ts)
    ensures var r := MoveResult(ts, k, target, q);
      forall i, j :: 0 <= i < |ts| && 0 <= j < |ts| && i != k && j != k
        && InColumn(ts[i], ts[k].project, target) && InColumn(ts[j], ts[k].project, target)
        ==> (ts[i].position < ts[j].position <==> r[i].position < r[j].position)
  {
    MoveEffect(ts, k, target, q);
  }

  /** The other tasks of a column, all but index k, hold distinct positions in [0, m). */
  ghost predicate PackedOthers(ts: seq<Task>, p: ObjectId, c: Column, k: nat, m: int)
  {
    && (forall i :: 0 <= i < |ts| && i != k && InColumn(ts[i], p, c) ==> 0 <= ts[i].position < m)
    && (forall i, j ::
          (0 <= i < |ts| && 0 <= j < |ts| && i != k && j != k && i != j && InColumn(ts[i], p, c) && InColumn(ts[j], p, c))
          ==> ts[i].position != ts[j].position)
  }

  /** Closing the gap above the mover packs the other tasks of its contiguous column into [0, n-1). */
  lemma CloseGapPacks(ts: seq<Task>, k: nat)
    requires k < |ts|
    requires Contiguous(ts, ts[k].project, ts[k].column)
    ensures var closed := CloseGap(ts, ts[k].project, ts[k].column, ts[k].position);
      && closed[k] == ts[k]
      && PackedOthers(closed, ts[k].project, ts[k].column, k, CountIn(ts, ts[k].project, ts[k].column) - 1)
  {
    var t := ts[k];
    var p, c, n := t.project, t.column, CountIn(ts, t.project, t.column);
    var closed := CloseGap(ts, p, c, t.position);
    CloseGapShape(ts, p, c, t.position);
    forall i | 0 <= i < |closed| && i != k && InColumn(closed[i], p, c)
      ensures 0 <= closed[i].position < n - 1
    {
      assert ts[i].position != t.position;
    }
    forall i, j | 0 <= i < |closed| && 0 <= j < |closed| && i != k && j != k && i != j
        && InColumn(closed[i], p, c) && InColumn(closed[j], p, c)
      ensures closed[i].position != closed[j].position
    {
      assert ts[i].position != t.position && ts[j].position != t.position;
      assert ts[i].position != ts[j].position;
    }
  }

  /** The slot opened at q with the mover placed in it: the mover lands at
      (c, q), and every other task keeps its id, project and column and moves up
      by one exactly when it sits in (project, c) at or above q. */
  lemma InsertShape(ts: seq<Task>, k: nat, c: Column, q: int)
    requires k < |ts| && UniqueTaskIds(ts)
    ensures var t := ts[k];
      var r := OpenSlot(ts, t.project, c, q, t.id)[k := t.(column := c, position := q)];
      && |r| == |ts|
      && r[k] == t.(column := c, position := q)
      && forall i :: 0 <= i < |ts| && i != k ==>
          && r[i].project == ts[i].project && r[i].column == ts[i].column
          && r[i].position == ts[i].position + (if InColumn(ts[i], t.project, c) && ts[i].position >= q then 1 else 0)
  {
    var t := ts[k];
    var shifted := OpenSlot(ts, t.project, c, q, t.id);
    forall i | 0 <= i < |ts| && i != k
      ensures shifted[i].position == ts[i].position + (if InColumn(ts[i], t.project, c) && ts[i].position >= q then 1 else 0)
    {
      assert ts[i].id != t.id;
    }
  }

  /** Opening a slot at q in a column whose other tasks are packed into [0, m),
      and placing the mover there, gives a contiguous column of m + 1 tasks. */
  lemma OpenSlotInserts(ts: seq<Task>, k: nat, c: Column, q: int)
    requires k < |ts| && UniqueTaskIds(ts)
    requires var m := CountIn(ts, ts[k].project, c) - (if InColumn(ts[k], ts[k].project, c) then 1 else 0);
      PackedOthers(ts, ts[k].project, c, k, m) && 0 <= q <= m
    ensures var t := ts[k];
      var r := OpenSlot(ts, t.project, c, q, t.id)[k := t.(column := c, position := q)];
      && Contiguous(r, t.project, c)
      && CountIn(r, t.project, c) == CountIn(ts, t.project, c) - (if InColumn(t, t.project, c) then 1 else 0) + 1
  {
    var t := ts[k];
    var p := t.project;
    var m := CountIn(ts, p, c) - (if InColumn(t, p, c) then 1 else 0);
    var r := OpenSlot(ts, p, c, q, t.id)[k := t.(column := c, position := q)];
    InsertCount(ts, k, c, q);
    InsertShape(ts, k, c, q);
    InsertBelow(ts, k, c, q, m, r);
    InsertDistinct(ts, k, c, q, m, r);
  }

  lemma InsertCount(ts: seq<Task>, k: nat, c: Column, q: int)
    requires k < |ts|
    ensures var t := ts[k];
      var r := OpenSlot(ts, t.project, c, q, t.id)[k := t.(column := c, position := q)];
      CountIn(r, t.project, c) == CountIn(ts, t.project, c) - (if InColumn(t, t.project, c) then 1 else 0) + 1
  {
    var t := ts[k];
    var shifted := OpenSlot(ts, t.project, c, q, t.id);
    OpenSlotShape(ts, t.project, c, q, t.id);
    CountSameShape(ts, shifted, t.project, c);
    CountUpdate(shifted, k, t.(column := c, position := q), t.project, c);
    assert shifted[k] == t;
  }

  lemma InsertBelow(ts: seq<Task>, k: nat, c: Column, q: int, m: int, r: seq<Task>)
    requires k < |ts| == |r|
    requires PackedOthers(ts, ts[k].project, c, k, m) && 0 <= q <= m
    requires r[k] == ts[k].(column := c, position := q)
    requires forall i :: 0 <= i < |ts| && i != k ==>
          && r[i].project == ts[i].project && r[i].column == ts[i].column
          && r[i].position == ts[i].position + (if InColumn(ts[i], ts[k].project, c) && ts[i].position >= q then 1 else 0)
    ensures PositionsBelow(r, ts[k].project, c, m + 1)
  {
  }

  lemma InsertDistinct(ts: seq<Task>, k: nat, c: Column, q: int, m: int, r: seq<Task>)
    requires k < |ts| == |r|
    requires PackedOthers(ts, ts[k].project, c, k, m) && 0 <= q <= m
    requires r[k] == ts[k].(column := c, position := q)
    requires forall i :: 0 <= i < |ts| && i != k ==>
          && r[i].project == ts[i].project && r[i].column == ts[i].column
          && r[i].position == ts[i].position + (if InColumn(ts[i], ts[k].project, c) && ts[i].position >= q then 1 else 0)
    ensures PositionsDistinct(r, ts[k].project, c)
  {
    var p := ts[k].project;
    forall i, j | 0 <= i < |r| && 0 <= j < |r| && i != j && InColumn(r[i], p, c) && InColumn(r[j], p, c)
      ensures r[i].position != r[j].position
    {
      if i != k && j != k {
        assert ts[i].position != ts[j].position;
      }
    }
  }

  /** The bulk increment changes positions only. */
  lemma OpenSlotShape(ts: seq<Task>, p: ObjectId, c: Column, q: int, mover: ObjectId)
    ensures var r := OpenSlot(ts, p, c, q, mover);
      forall i :: 0 <= i < |ts| ==>
        && r[i].id == ts[i].id && r[i].project == ts[i].project && r[i].column == ts[i].column
        && r[i].position == ts[i].position + (if Displaced(ts[i], p, c, q, mover) then 1 else 0)
  {
  }

  /** The bulk decrement changes positions only. */
  lemma CloseGapShape(ts: seq<Task>, p: ObjectId, c: Column, vacated: int)
    ensures var r := CloseGap(ts, p, c, vacated);
      forall i :: 0 <= i < |ts| ==>
        && r[i].id == ts[i].id && r[i].project == ts[i].project && r[i].column == ts[i].column
        && r[i].position == ts[i].position - (if Vacated(ts[i], p, c, vacated) then 1 else 0)
  {
  }

  /** A move to another column at 0 <= q <= n (n = size of the target column)
      keeps the target column contiguous, with the mover added. */
  lemma CrossColumnMoveKeepsTargetContiguous(ts: seq<Task>, k: nat, target: Column, q: int)
    requires k < |ts| && UniqueTaskIds(ts)
    requires ts[k].column != target
    requires Contiguous(ts, ts[k].project, target)
    requires 0 <= q <= CountIn(ts, ts[k].project, target)
    ensures var r := MoveResult(ts, k, target, q);
      && Contiguous(r, ts[k].project, target)
      && CountIn(r, ts[k].project, target) == CountIn(ts, ts[k].project, target) + 1
  {
    var t := ts[k];
    var closed := CloseGap(ts, t.project, t.column, t.position);
    ClosingElsewhereKeepsTarget(ts, k, target);
    OpenSlotInserts(closed, k, target, q);
    assert MoveResult(ts, k, target, q) == OpenSlot(closed, t.project, target, q, t.id)[k := closed[k].(column := target, position := q)];
  }

  /** Closing the gap in the mover's own column leaves ids distinct and the
      target column's other tasks packed as before. */
  lemma ClosingElsewhereKeepsTarget(ts: seq<Task>, k: nat, target: Column)
    requires k < |ts| && UniqueTaskIds(ts)
    requires ts[k].column != target
    requires Contiguous(ts, ts[k].project, target)
    ensures var closed := CloseGap(ts, ts[k].project, ts[k].column, ts[k].position);
      && closed[k] == ts[k]
      && UniqueTaskIds(closed)
      && CountIn(closed, ts[k].project, target) == CountIn(ts, ts[k].project, target)
      && PackedOthers(closed, ts[k].project, target, k, CountIn(ts, ts[k].project, target))
  {
    var t := ts[k];
    var p, a := t.project, t.column;
    var closed := CloseGap(ts, p, a, t.position);
    CloseGapShape(ts, p, a, t.position);
    CountSameShape(ts, closed, p, target);
    assert UniqueTaskIds(closed) by {
      forall i, j | 0 <= i < |closed| && 0 <= j < |closed| && i != j
        ensures closed[i].id != closed[j].id
      {
      }
    }
    assert forall i :: 0 <= i < |closed| && InColumn(closed[i], p, target) ==> closed[i] == ts[i];
  }

  /** A move to another column keeps the old column contiguous, without the mover. */
  lemma CrossColumnMoveKeepsSourceContiguous(ts: seq<Task>, k: nat, target: Column, q: int)
    requires k < |ts|
    requires ts[k].column != target
    requires Contiguous(ts, ts[k].project, ts[k].column)
    ensures var r := MoveResult(ts, k, target, q);
      && Contiguous(r, ts[k].project, ts[k].column)
      && CountIn(r, ts[k].project, ts[k].column) == CountIn(ts, ts[k].project, ts[k].column) - 1
  {
    var t := ts[k];
    var p, a := t.project, t.column;
    var closed := CloseGap(ts, p, a, t.position);
    var shifted := OpenSlot(closed, p, target, q, t.id);
    var moved := t.(column := target, position := q);
    var r := shifted[k := moved];
    assert MoveResult(ts, k, target, q) == r;
    CloseGapPacks(ts, k);
    CloseGapShape(ts, p, a, t.position);
    OpenSlotShape(closed, p, target, q, t.id);
    CountSameShape(ts, closed, p, a);
    CountSameShape(closed, shifted, p, a);
    CountUpdate(shifted, k, moved, p, a);
    assert shifted[k] == t;
    assert forall i :: 0 <= i < |r| && i != k && InColumn(r[i], p, a) ==> r[i] == closed[i];
    PackedWithoutMover(r, p, a, k, CountIn(ts, p, a) - 1);
  }

  /** When index k is outside (p, c) and the others of (p, c) are packed into
      [0, m) with m the count, the column is contiguous. */
  lemma PackedWithoutMover(ts: seq<Task>, p: ObjectId, c: Column, k: nat, m: int)
    requires k < |ts| && !InColumn(ts[k], p, c)
    requires PackedOthers(ts, p, c, k, m) && CountIn(ts, p, c) == m
    ensures Contiguous(ts, p, c)
  {
  }

  /** A move to another column at 0 <= q <= n (n = size of the target column)
      keeps both columns contiguous: the old one loses the mover, the new one gains it. */
  lemma CrossColumnMoveKeepsContiguous(ts: seq<Task>, k: nat, target: Column, q: int)
    requires k < |ts| && UniqueTaskIds(ts)
    requires ts[k].column != target
    requires Contiguous(ts, ts[k].project, ts[k].column)
    requires Contiguous(ts, ts[k].project, target)
    requires 0 <= q <= CountIn(ts, ts[k].project, target)
    ensures var r := MoveResult(ts, k, target, q);
      && Contiguous(r, ts[k].project, ts[k].column)
      && Contiguous(r, ts[k].project, target)
      && CountIn(r, ts[k].project, ts[k].column) == CountIn(ts, ts[k].project, ts[k].column) - 1
      && CountIn(r, ts[k].project, target) == CountIn(ts, ts[k].project, target) + 1
  {
    CrossColumnMoveKeepsSourceContiguous(ts, k, target, q);
    CrossColumnMoveKeepsTargetContiguous(ts, k, target, q);
  }

  lemma ThreeInColumn(x: Task, y: Task, z: Task, p: ObjectId, c: Column)
    requires InColumn(x, p, c) && InColumn(y, p, c) && InColumn(z, p, c)
    ensures CountIn([x, y, z], p, c) == 3
  {
    assert [x, y, z][1..] == [y, z];
    assert [y, z][1..] == [z];
    assert [z][1..] == [];
    assert CountIn([z], p, c) == 1;
    assert CountIn([y, z], p, c) == 2;
  }

  /** The column [X0, Y1, Z2] of project 7 used by the counterexample below. */
  function GapColumn(): (ts: seq<Task>)
    ensures |ts| == 3 && Contiguous(ts, 7, Todo)
  {
    var x := Task(1, "X", "", 7, Todo, Medium, None, [], 0, [], 0);
    var ts := [x, x.(id := 2, title := "Y", position := 1), x.(id := 3, title := "Z", position := 2)];
    ThreeInColumn(ts[0], ts[1], ts[2], 7, Todo);
    assert ts == [ts[0], ts[1], ts[2]];
    ts
  }

  /** A column whose third task sits at position 3 is not contiguous. */
  lemma ThirdAtThreeBreaks(ts: seq<Task>)
    requires |ts| == 3 && forall i :: 0 <= i < 3 ==> InColumn(ts[i], 7, Todo)
    requires ts[2].position == 3
    ensures !Contiguous(ts, 7, Todo)
  {
    ThreeInColumn(ts[0], ts[1], ts[2], 7, Todo);
    assert ts == [ts[0], ts[1], ts[2]];
  }

  /** Moving X from 0 to 2 gives X2, Y1, Z3. */
  lemma MoveFirstToEnd()
    ensures var ts := GapColumn();
      MoveResult(ts, 0, Todo, 2) == [ts[0].(position := 2), ts[1], ts[2].(position := 3)]
  {
    var ts := GapColumn();
    var shifted := OpenSlot(ts, 7, Todo, 2, 1);
    assert shifted[0] == ts[0] && shifted[1] == ts[1] && shifted[2] == ts[2].(position := 3);
  }

  /** Moving Y onto its own slot 1 gives X0, Y1, Z3. */
  lemma MoveOntoOwnSlot()
    ensures var ts := GapColumn();
      MoveResult(ts, 1, Todo, 1) == [ts[0], ts[1], ts[2].(position := 3)]
  {
    var ts := GapColumn();
    var shifted := OpenSlot(ts, 7, Todo, 1, 2);
    assert shifted[0] == ts[0] && shifted[1] == ts[1] && shifted[2] == ts[2].(position := 3);
  }

  /** Neither outcome is contiguous: Z sits at 3 in a column of three. */
  lemma PushedThirdBreaks()
    ensures var ts := GapColumn();
      && !Contiguous([ts[0].(position := 2), ts[1], ts[2].(position := 3)], 7, Todo)
      && !Contiguous([ts[0], ts[1], ts[2].(position := 3)], 7, Todo)
  {
    var ts := GapColumn();
    ThirdAtThreeBreaks([ts[0].(position := 2), ts[1], ts[2].(position := 3)]);
    ThirdAtThreeBreaks([ts[0], ts[1], ts[2].(position := 3)]);
  }

  /** A same-column move opens a slot without closing the one it vacates:
      [X0, Y1, Z2] with X moved to 2 becomes X2, Y1, Z3, which is no longer
      contiguous; and moving Y onto its own slot 1 still pushes Z to 3. */
  lemma SameColumnMoveLeavesGap()
    ensures var ts := GapColumn();
      && Contiguous(ts, 7, Todo)
      && MoveResult(ts, 0, Todo, 2) == [ts[0].(position := 2), ts[1], ts[2].(position := 3)]
      && !Contiguous(MoveResult(ts, 0, Todo, 2), 7, Todo)
      && MoveResult(ts, 1, Todo, 1) == [ts[0], ts[1], ts[2].(position := 3)]
      && !Contiguous(MoveResult(ts, 1, Todo, 1), 7, Todo)
  {
    MoveFirstToEnd();
    MoveOntoOwnSlot();
    PushedThirdBreaks();
  }

  // ---------------------------------------------------------------------------
  // Move, with the vacated slot closed in every case

  /** The move as the position invariant needs it: the vacated slot is closed
      whether or not the column changes. */
  function MoveClosingGap(ts: seq<Task>, k: nat, target: Column, q: int): (r: seq<Task>)
    requires k < |ts|
    ensures |r| == |ts|
  {
    var t := ts[k];
    var closed := CloseGap(ts, t.project, t.column, t.position);
    OpenSlot(closed, t.project, target, q, t.id)[k := t.(column := target, position := q)]
  }

  /** For a cross-column move the corrected move and the handler's agree. */
  lemma MoveClosingGapAgreesAcrossColumns(ts: seq<Task>, k: nat, target: Column, q: int)
    requires k < |ts| && ts[k].column != target
    ensures MoveClosingGap(ts, k, target, q) == MoveResult(ts, k, target, q)
  {
  }

  /** Within one column of n tasks, the corrected move to 0 <= q < n keeps the column contiguous. */
  lemma MoveClosingGapKeepsContiguous(ts: seq<Task>, k: nat, q: int)
    requires k < |ts| && UniqueTaskIds(ts)
    requires Contiguous(ts, ts[k].project, ts[k].column)
    requires 0 <= q < CountIn(ts, ts[k].project, ts[k].column)
    ensures var r := MoveClosingGap(ts, k, ts[k].column, q);
      Contiguous(r, ts[k].project, ts[k].column)
      && CountIn(r, ts[k].project, ts[k].column) == CountIn(ts, ts[k].project, ts[k].column)
  {
    var t := ts[k];
    var closed := CloseGap(ts, t.project, t.column, t.position);
    CloseGapPacks(ts, k);
    CloseGapShape(ts, t.project, t.column, t.position);
    CountSameShape(ts, closed, t.project, t.column);
    assert UniqueTaskIds(closed) by {
      forall i, j | 0 <= i < |closed| && 0 <= j < |closed| && i != j
        ensures closed[i].id != closed[j].id
      {
      }
    }
    OpenSlotInserts(closed, k, t.column, q);
    assert MoveClosingGap(ts, k, t.column, q) == OpenSlot(closed, t.project, t.column, q, t.id)[k := closed[k].(column := t.column, position := q)];
  }

  /** With the corrected move, moving a task onto its own slot of a contiguous column changes nothing. */
  lemma MoveClosingGapToOwnSlotIsNoOp(ts: seq<Task>, k: nat)
    requires k < |ts| && UniqueTaskIds(ts)
    requires Contiguous(ts, ts[k].project, ts[k].column)
    ensures MoveClosingGap(ts, k, ts[k].column, ts[k].position) == ts
  {
    var r := MoveClosingGap(ts, k, ts[k].column, ts[k].position);
    forall i | 0 <= i < |ts|
      ensures r[i] == ts[i]
    {
    }
  }

  // ---------------------------------------------------------------------------
  // Delete: compact above the removed task

  /** The delete handler's effect: decrement the tasks of the same (project, column)
      above the removed one, then remove it. */
  function DeleteResult(ts: seq<Task>, k: nat): (r: seq<Task>)
    requires k < |ts|
    ensures |r| == |ts| - 1
  {
    RemoveAt(CloseGap(ts, ts[k].project, ts[k].column, ts[k].position), k)
  }

  /** Deleting keeps the other tasks' ids, which stay distinct, and drops the deleted one. */
  lemma DeleteResultIds(ts: seq<Task>, k: nat)
    requires k < |ts| && UniqueTaskIds(ts)
    ensures var r := DeleteResult(ts, k);
      && UniqueTaskIds(r)
      && (forall i :: 0 <= i < |r| ==> r[i].id == ts[if i < k then i else i + 1].id)
      && (forall t :: t in r ==> t.id != ts[k].id)
  {
    var closed := CloseGap(ts, ts[k].project, ts[k].column, ts[k].position);
    CloseGapShape(ts, ts[k].project, ts[k].column, ts[k].position);
    var r := DeleteResult(ts, k);
    forall i | 0 <= i < |r|
      ensures r[i].id == ts[if i < k then i else i + 1].id
    {
      assert r[i] == closed[if i < k then i else i + 1];
    }
    forall i, j | 0 <= i < |r| && 0 <= j < |r| && i != j
      ensures r[i].id != r[j].id
    {
      var si, sj := if i < k then i else i + 1, if j < k then j else j + 1;
      assert r[i].id == ts[si].id && r[j].id == ts[sj].id;
    }
    forall t | t in r
      ensures t.id != ts[k].id
    {
      var i :| 0 <= i < |r| && r[i] == t;
      assert r[i].id == ts[if i < k then i else i + 1].id;
    }
  }

  /** Deleting from a contiguous column of n tasks leaves it contiguous with n - 1 tasks;
      every task outside that column is kept unchanged. */
  lemma DeleteKeepsContiguous(ts: seq<Task>, k: nat)
    requires k < |ts|
    requires Contiguous(ts, ts[k].project, ts[k].column)
    ensures var r := DeleteResult(ts, k);
      && Contiguous(r, ts[k].project, ts[k].column)
      && CountIn(r, ts[k].project, ts[k].column) == CountIn(ts, ts[k].project, ts[k].column) - 1
      && forall i :: 0 <= i < |r| && !InColumn(r[i], ts[k].project, ts[k].column) ==> r[i] == ts[if i < k then i else i + 1]
  {
    var t := ts[k];
    var closed := CloseGap(ts, t.project, t.column, t.position);
    CloseGapPacks(ts, k);
    CountSameShape(ts, closed, t.project, t.column);
    CountRemove(closed, k, t.project, t.column);
    RemovePacked(closed, k, t.project, t.column, CountIn(ts, t.project, t.column) - 1);
  }

  /** Removing index k from a sequence whose other tasks of (p, c) are packed into [0, m) leaves (p, c) within [0, m) with distinct positions. */
  lemma RemovePacked(ts: seq<Task>, k: nat, p: ObjectId, c: Column, m: int)
    requires k < |ts| && PackedOthers(ts, p, c, k, m)
    ensures PositionsBelow(RemoveAt(ts, k), p, c, m) && PositionsDistinct(RemoveAt(ts, k), p, c)
  {
    var r := RemoveAt(ts, k);
    forall i, j | 0 <= i < |r| && 0 <= j < |r| && i != j && InColumn(r[i], p, c) && InColumn(r[j], p, c)
      ensures r[i].position != r[j].position
    {
      var si := if i < k then i else i + 1;
      var sj := if j < k then j else j + 1;
      assert r[i] == ts[si] && r[j] == ts[sj];
    }
  }
}
