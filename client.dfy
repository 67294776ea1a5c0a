/** The task record as the browser client receives it from the server: ids are
    strings, the column and the priority are whatever string the server sent,
    and an assignee is either populated (`{_id, name, email}`) or a bare id. */
module Client {
  import opened Common

  /** A document id as serialised by the server (an ObjectId in hex), never empty. */
  type DocId = s: string | |s| > 0 witness "0"

  datatype Assignee = Populated(id: DocId, name: string) | Raw(ref: DocId)

  /** `assignee._id || assignee`: the id of a populated assignee, or the bare id.
      Ids are never empty, so the fallback is taken exactly for bare ids. */
  function IdOf(a: Assignee): (r: DocId)
    ensures a.Populated? ==> r == a.id
    ensures a.Raw? ==> r == a.ref
  {
    match a
    case Populated(id, _) => id
    case Raw(ref) => ref
  }

  /** `assignees.map(a => a._id || a)`. */
  function Ids(assignees: seq<Assignee>): (r: seq<DocId>)
    ensures |r| == |assignees|
    ensures forall i :: 0 <= i < |assignees| ==> r[i] == IdOf(assignees[i])
  {
    if assignees == [] then [] else [IdOf(assignees[0])] + Ids(assignees[1..])
  }

  /** A task card. `description`, `dueDate` and `assignedTo` are optional in
      the payload; `dueDate` is a time stamp. */
  datatype Card = Card(
    id: DocId,
    title: string,
    description: Option<string>,
    column: string,
    priority: string,
    dueDate: Option<int>,
    assignedTo: Option<seq<Assignee>>,
    position: int)

  /** `task.assignedTo?.some(a => (a._id || a) === user)`: false when the list is absent. */
  predicate AssignedTo(c: Card, user: string)
    ensures c.assignedTo.None? ==> !AssignedTo(c, user)
    ensures AssignedTo(c, user) <==> c.assignedTo.Some? && user in Ids(c.assignedTo.value)
  {
    c.assignedTo.Some? && exists i :: 0 <= i < |c.assignedTo.value| && IdOf(c.assignedTo.value[i]) == user
  }
}
