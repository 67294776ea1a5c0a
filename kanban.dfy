/** The board component: the three column lists it displays and the move
    request a drag-and-drop produces. */
module Kanban {
  import opened Common
  import opened Client

  /** The droppable column ids. */
  const ColumnIds: seq<string> := ["todo", "doing", "done"]

  ghost predicate SortedByPosition(s: seq<Card>)
  {
    forall i, j :: 0 <= i < j < |s| ==> s[i].position <= s[j].position
  }

  /** Inserts `c` before the first card with a larger position. */
  function Insert(c: Card, s: seq<Card>): (r: seq<Card>)
    ensures multiset(r) == multiset(s) + multiset{c}
    ensures forall x :: x in r <==> x == c || x in s
    decreases |s|
  {
    if s == [] || c.position <= s[0].position then [c] + s
    else
      assert s == [s[0]] + s[1..];
      [s[0]] + Insert(c, s[1..])
  }

  lemma {:induction false} InsertSorted(c: Card, s: seq<Card>)
    requires SortedByPosition(s)
    ensures SortedByPosition(Insert(c, s))
    decreases |s|
  {
    if s != [] && c.position > s[0].position {
      var tail := s[1..];
      var rest := Insert(c, tail);
      InsertSorted(c, tail);
      forall x | x in rest
        ensures s[0].position <= x.position
      {
        if x != c {
          var k :| 0 <= k < |tail| && tail[k] == x;
          assert tail[k] == s[k + 1];
        }
      }
      var r := [s[0]] + rest;
      forall i, j | 0 <= i < j < |r|
        ensures r[i].position <= r[j].position
      {
        if i == 0 {
          assert r[j] == rest[j - 1];
        } else {
          assert r[i] == rest[i - 1] && r[j] == rest[j - 1];
        }
      }
    }
  }

  /** `sort((a, b) => a.position - b.position)`: a stable insertion sort. */
  function SortByPosition(s: seq<Card>): (r: seq<Card>)
    ensures SortedByPosition(r)
    ensures multiset(r) == multiset(s)
    decreases |s|
  {
    if s == [] then []
    else
      assert s == [s[0]] + s[1..];
      var sorted := SortByPosition(s[1..]);
      InsertSorted(s[0], sorted);
      Insert(s[0], sorted)
  }

  /** `tasksByColumn[col]`: the cards of one column, by ascending position. */
  function ColumnTasks(cards: seq<Card>, col: string): seq<Card>
  {
    SortByPosition(OfColumn(cards, col))
  }

  /** `tasks.filter(t => t.column === col)`, before sorting. */
  function OfColumn(cards: seq<Card>, col: string): seq<Card>
  {
    Filter(cards, (c: Card) => c.column == col)
  }

  /** Each list holds exactly the cards of its column, as many times as they
      occur, sorted by position; a card whose column is none of the three
      appears in no list. */
  lemma ColumnContents(cards: seq<Card>, col: string, x: Card)
    ensures SortedByPosition(ColumnTasks(cards, col))
    ensures multiset(ColumnTasks(cards, col))[x] == if x.column == col then multiset(cards)[x] else 0
  {
    FilterMultiplicity(cards, (c: Card) => c.column == col, x);
    assert OfColumn(cards, col) == Filter(cards, (c: Card) => c.column == col);
  }

  /** Three filters by pairwise different columns that between them cover
      every card split the cards. */
  lemma {:induction false} ThreeColumnsSplit(cards: seq<Card>, a: string, b: string, c: string)
    requires a != b && b != c && a != c
    requires forall i :: 0 <= i < |cards| ==> cards[i].column == a || cards[i].column == b || cards[i].column == c
    ensures |OfColumn(cards, a)| + |OfColumn(cards, b)| + |OfColumn(cards, c)| == |cards|
    decreases |cards|
  {
    if cards != [] {
      ThreeColumnsSplit(cards[1..], a, b, c);
    }
  }

  /** When every card's column is one of the three, the lists together hold every card. */
  lemma ColumnsCoverBoard(cards: seq<Card>)
    requires forall i :: 0 <= i < |cards| ==> cards[i].column in ColumnIds
    ensures |ColumnTasks(cards, "todo")| + |ColumnTasks(cards, "doing")| + |ColumnTasks(cards, "done")| == |cards|
  {
    ThreeColumnsSplit(cards, "todo", "doing", "done");
    forall col | col in ColumnIds
      ensures |ColumnTasks(cards, col)| == |OfColumn(cards, col)|
    {
      assert |multiset(ColumnTasks(cards, col))| == |multiset(OfColumn(cards, col))|;
    }
  }

  /** What a drag-and-drop asks the server: `PUT /tasks/:id/move` with this body. */
  datatype MoveRequest = MoveRequest(taskId: DocId, column: string, position: int)

  /** `tasks.find(t => t._id === id)`. */
  function FindCard(cards: seq<Card>, id: string): Option<Card>
  {
    Find(cards, (c: Card) => c.id == id)
  }

  /** `findIndex(t => t._id === id)`, -1 when absent. */
  function IndexOf(s: seq<Card>, id: string): (r: int)
    ensures -1 <= r < |s|
    ensures r >= 0 ==> s[r].id == id && forall j :: 0 <= j < r ==> s[j].id != id
    ensures r == -1 <==> forall j :: 0 <= j < |s| ==> s[j].id != id
  {
    match FirstIndex(s, (c: Card) => c.id == id)
    case None => -1
    case Some(i) => i
  }

  /** `handleDragEnd`: the request sent for dropping card `activeId` on `over`
      (a column id or a card id), or none. `response` is the server's answer to
      that request (`None` when it fails); `updated` is what is handed to
      `onTaskUpdate`. */
  method HandleDragEnd(cards: seq<Card>, activeId: string, over: Option<string>, response: Option<Card>)
    returns (request: Option<MoveRequest>, updated: Option<Card>)
    ensures over.None? || FindCard(cards, activeId).None? ==> request.None?
    ensures over.Some? && FindCard(cards, activeId).Some? && over.value in ColumnIds ==>
      var active := FindCard(cards, activeId).value;
      request == if active.column == over.value then None
                 else Some(MoveRequest(active.id, over.value, |ColumnTasks(cards, over.value)|))
    ensures over.Some? && FindCard(cards, activeId).Some? && over.value !in ColumnIds ==>
      var active := FindCard(cards, activeId).value;
      && (FindCard(cards, over.value).None? ==> request.None?)
      && (FindCard(cards, over.value).Some? ==>
            var target := FindCard(cards, over.value).value;
            && (target.id == active.id ==> request.None?)
            && (target.id != active.id && target.column != active.column ==>
                  request == Some(MoveRequest(active.id, target.column, target.position)))
            && (target.id != active.id && target.column == active.column && active.column !in ColumnIds ==>
                  request.None?)
            && (target.id != active.id && target.column == active.column && active.column in ColumnIds ==>
                  request == Some(MoveRequest(active.id, target.column, SlotWithin(cards, active, target)))))
    ensures request.Some? ==> request.value.taskId == activeId
    ensures updated == if request.Some? then response else None
  {
    request, updated := None, None;
    if over.None? {
      return;
    }
    var overId := over.value;
    var found := FindCard(cards, activeId);
    if found.None? {
      return;
    }
    var active := found.value;
    if overId in ColumnIds {
      if active.column == overId {
        return;
      }
      var newPosition := |ColumnTasks(cards, overId)|;
      request := Some(MoveRequest(active.id, overId, newPosition));
      updated := response;
      return;
    }
    var overFound := FindCard(cards, overId);
    if overFound.None? {
      return;
    }
    var target := overFound.value;
    if active.id == target.id {
      return;
    }
    request := DropOnCard(cards, active, target);
    updated := if request.Some? then response else None;
  }

  /** The position asked for when `active` is dropped on `target` in their
      common column: the target's own when `active` comes before it in the
      column's list, one more when it comes after it. */
  function SlotWithin(cards: seq<Card>, active: Card, target: Card): (p: int)
    ensures p == target.position || p == target.position + 1
    ensures p == target.position <==>
      IndexOf(ColumnTasks(cards, active.column), active.id) < IndexOf(ColumnTasks(cards, active.column), target.id)
  {
    var col := ColumnTasks(cards, active.column);
    if IndexOf(col, active.id) < IndexOf(col, target.id) then target.position else target.position + 1
  }

  /** The request for dropping `active` on another card `target`: that card's
      slot in another column; within a column, the target's position or one
      more, by the order of the two cards in the column's list. The list exists
      only for the board's three columns: for any other the lookup throws and
      nothing is sent. */
  method DropOnCard(cards: seq<Card>, active: Card, target: Card) returns (request: Option<MoveRequest>)
    ensures target.column != active.column ==>
      request == Some(MoveRequest(active.id, target.column, target.position))
    ensures target.column == active.column && active.column !in ColumnIds ==> request.None?
    ensures target.column == active.column && active.column in ColumnIds ==>
      request == Some(MoveRequest(active.id, target.column, SlotWithin(cards, active, target)))
  {
    var sameColumn := active.column == target.column;
    var newPosition := target.position;
    if sameColumn {
      if active.column !in ColumnIds {
        return None;
      }
      var activeIndex := IndexOf(ColumnTasks(cards, active.column), active.id);
      var overIndex := IndexOf(ColumnTasks(cards, target.column), target.id);
      if activeIndex < overIndex {
        newPosition := target.position;
      } else {
        newPosition := target.position + 1;
      }
    }
    request := Some(MoveRequest(active.id, target.column, newPosition));
  }

  /** A drop on a column whose cards hold positions below their number asks for
      a position above all of them: the card goes to the end of that column. */
  lemma ColumnDropAppends(cards: seq<Card>, col: string)
    requires forall c :: c in cards && c.column == col ==> 0 <= c.position < |ColumnTasks(cards, col)|
    ensures forall c :: c in ColumnTasks(cards, col) ==> c.position < |ColumnTasks(cards, col)|
    ensures forall c :: c in cards && c.column == col ==> c in ColumnTasks(cards, col)
  {
    forall c | c in ColumnTasks(cards, col)
      ensures c in cards && c.column == col
    {
      ColumnContents(cards, col, c);
      assert multiset(ColumnTasks(cards, col))[c] > 0;
    }
    forall c | c in cards && c.column == col
      ensures c in ColumnTasks(cards, col)
    {
      ColumnContents(cards, col, c);
      assert multiset(ColumnTasks(cards, col))[c] == multiset(cards)[c];
    }
  }
}
