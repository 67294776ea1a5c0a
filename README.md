# Clone-Trello: a verified model of the board's core

Clone-Trello is a Kanban board. An Express/MongoDB server stores projects, tasks and users; a React client shows a project's tasks in three columns (`todo`, `doing`, `done`) and lets members drag them around, edit them, comment on them and receive notifications. This Dafny project models the logic of that system and proves what it promises.

**Server side** (`domain.dfy`, `ordering.dfy`, `tasks.dfy`, `projects.dfy`, `users.dfy`, `notifications.dfy`):

- The document store is the class `Domain.Db`. Its fields are the task, project and user collections, the id generator and the log of socket emissions.
- Every route handler is a method that changes `db` atomically. The handlers answer `Ok` with the document or `Fail` with the HTTP error they send (400, 403, 404 or 500).
- The store's invariant `Domain.ValidState` says ids are unique, every project has a name, and every notification's id is its index in its inbox. Every handler keeps it.
- The heart of the model is the **per-column task ordering** (module `Ordering`). Creating a task appends it at `max + 1`. Moving a task closes the gap in the old column, but only when the column changes. It then opens a slot at the target position in the new column. Deleting compacts the column.
- `Contiguous(ts, p, c)` states that the positions of project `p`'s tasks in column `c` are exactly 0..n-1. The lemmas prove which operations keep it and which do not.
- Notifications are delivered by appending to each recipient's inbox, one entry per occurrence in the recipient list. Each delivery emits one `notification-created` event.

**Client side** (`client.dfy`, `kanban.dfy`, `board.dfy`, `modal.dfy`, `bell.dfy`, `search.dfy`, `focus.dfy`, `analytics.dfy`):

- The client's task record is `Client.Card`. Its ids are strings and its column and priority are raw strings, because the client compares raw strings.
- The modelled client logic covers:
  - the drag-and-drop decision of the board;
  - the socket reducers of the project page;
  - the notification bell;
  - the task dialog (assignee toggling, submission, `@` mentions and suggestions);
  - the advanced search pipeline;
  - focus mode;
  - the analytics counts.
- The per-member tally in the analytics is an imperative loop over a dictionary, and is modelled as a method. It is proved equal to a recursive specification, and the sums and counts are proved about that specification.

**Behaviours modelled as the code has them:**

- A same-column move never closes the vacated slot, so a column can lose its 0..n-1 shape. See Findings.
- The write check of the project routes, `{'members.user': caller, 'members.role': 'admin'}`, matches the two conditions against the member array independently. Any member passes it as soon as some entry is an admin. See Findings.
- A project's creator is stored as its owner and also as an `admin` member (`ProjectRoutes.CreatorAdministers`).
- The update route loads the task's project with only `owner` and `members`. Its notifications therefore carry the project name `undefined` (`TaskRoutes.NotifyAndEmitUpdate`).
- Title, comment text and project name are trimmed before they are stored. On create and on comment the request validators trim them (`server/routes/tasks.js:46`, `server/routes/tasks.js:305`, `server/routes/projects.js:59`). The task and project updates have no validator; there the schemas' `trim: true` trims the title and the name on save (`server/models/Task.js:7`, `server/models/Project.js:7`). A task's column and priority that fail the schema's enum make the save throw, and the route answers 500.
- Move accepts any integer position, negative or beyond the column's length, and applies it verbatim. The contiguity lemmas therefore require `0 <= q <= n`.

## Model

| member | source | states |
|---|---|---|
| Domain.ParseColumn | server/models/Task.js:18-22 | only `todo`, `doing`, `done` are accepted, and an accepted column names back as the given string |
| Domain.ParsePriority | server/models/Task.js:23-27 | only `low`, `medium`, `high` are accepted, and an accepted priority names back as the given string |
| Domain.ParseRole | server/models/Project.js:23-27 | `admin` gives Admin, `member` gives Member, and anything else is refused |
| Domain.AccessibleProject | server/routes/tasks.js:19-29 | returns the project with that id when the caller is its owner or one of its members; None exactly when no project with that id is accessible |
| Domain.HasAccess | server/routes/tasks.js:122-123 | the caller owns the project or has a member entry, whatever its role |
| Domain.Db.constructor | server/models/Task.js:1-70 | the store starts with no tasks, projects or events and with the registered users, and satisfies ValidState; the empty start has no line of its own: the task documents follow this schema and the project documents that of server/models/Project.js:1-45 |
| Domain.AppendFreshTask | server/routes/tasks.js:75-79 | storing a task under the generator's next id and advancing the generator keeps the store invariant |
| Domain.AppendFreshProject | server/routes/projects.js:69-79 | storing a named project under the next id keeps the store invariant |
| Text.Trim | server/routes/tasks.js:46 | the result is empty exactly when every character is white space; otherwise it starts and ends with a non-space and is no longer than the input (TrimKeepsMiddle pins its value) |
| Text.LeadingSpaces | server/routes/tasks.js:46 | the length of the input's leading white space: every character before it is white space, the one at it is not |
| Text.TrimKeepsMiddle | server/routes/tasks.js:46 | the trimmed text is the piece of the input right after its leading white space, followed in the input by white space only |
| Text.TrimIdempotent | server/routes/tasks.js:46 | trimming twice gives the same as trimming once |
| Text.Lower | client/src/components/AdvancedSearch.tsx:26 | lower-casing keeps the length and maps every character |
| Text.BeforeFirst | client/src/components/TaskModal.tsx:310 | `split('@')[0]`: the longest prefix without the separator, followed in the input by the separator when shorter than the input |
| Text.SecondPiece | client/src/components/TaskModal.tsx:302 | `split('@')[1]`: absent exactly when there is no separator; otherwise the text after the first separator, up to the next one |
| Ordering.MaxPosition | server/routes/tasks.js:69-73 | None exactly when the project's column is empty; otherwise the largest position of that column, attained by one of its tasks |
| Ordering.NextPosition | server/routes/tasks.js:68-78 | 0 in an empty column; otherwise one more than a position held in the column, and above every position there (max + 1) |
| Ordering.NextPositionIsCount | server/routes/tasks.js:68-78 | on a contiguous column the created position `max + 1` (or 0) equals the column's size |
| Ordering.AppendAtCount | server/routes/tasks.js:75-79 | appending a task at position n to a contiguous column of size n keeps it contiguous with n + 1 tasks |
| Ordering.CreateAppendsAtEnd | server/routes/tasks.js:68-79 | a created task lands at the end of a contiguous column (position n), and the column stays contiguous with one more task |
| Ordering.CloseGapShape | server/routes/tasks.js:216-225 | closing the gap decrements exactly the tasks of the same project and old column above the vacated position; ids, projects and columns are unchanged |
| Ordering.OpenSlotShape | server/routes/tasks.js:228-236 | opening a slot increments exactly the other tasks of the same project and target column at or above the target; ids, projects and columns are unchanged |
| Ordering.CloseGap | server/routes/tasks.js:216-225 | the `$inc: -1` update: one less for the tasks of that project and column above the vacated position, the length kept (CloseGapShape states it) |
| Ordering.OpenSlot | server/routes/tasks.js:228-236 | the `$inc: 1` update: one more for the other tasks of that project and column at or above the target, the length kept (OpenSlotShape states it) |
| Ordering.MoveResult | server/routes/tasks.js:212-239 | close the gap only on a column change, open the slot, store the mover at (column, position); the length kept (MoveEffect states the result task by task) |
| Ordering.MoveEffect | server/routes/tasks.js:212-239 | after a move the mover is at (target column, target position); every other task is decremented when it sat above the mover's old slot in its old column on a column change, incremented when at or above the target in the target column, and unchanged otherwise |
| Ordering.MoveLeavesNoTie | server/routes/tasks.js:228-239 | after a move no other task of the target column shares the mover's position |
| Ordering.MoveKeepsTargetOrder | server/routes/tasks.js:228-239 | a move keeps the relative order of the other tasks of the target column |
| Ordering.CloseGapPacks | server/routes/tasks.js:216-225 | on a contiguous column, closing the mover's gap packs the other tasks into 0..n-2 with distinct positions and leaves the mover alone |
| Ordering.InsertShape | server/routes/tasks.js:228-239 | the slot opening plus the mover's assignment set the mover to (c, q) and shift exactly the others at or above q in (project, c) |
| Ordering.InsertCount | server/routes/tasks.js:228-239 | after the insertion the target column counts one task more, not counting the mover if it was already there |
| Ordering.InsertBelow | server/routes/tasks.js:228-239 | inserting at 0 <= q <= m into others packed below m leaves every position of the column below m + 1 |
| Ordering.InsertDistinct | server/routes/tasks.js:228-239 | inserting at 0 <= q <= m into others packed below m leaves the column's positions pairwise distinct |
| Ordering.OpenSlotInserts | server/routes/tasks.js:228-239 | when the other tasks of the target column are packed into 0..m-1 and 0 <= q <= m, the move leaves the target column contiguous with the mover counted |
| Ordering.ClosingElsewhereKeepsTarget | server/routes/tasks.js:216-225 | closing the gap of a cross-column move leaves the target column's count, its packing and the ids unchanged |
| Ordering.PackedWithoutMover | server/routes/tasks.js:216-225 | a column whose tasks other than an absent mover are packed into 0..m-1 and that counts m tasks is contiguous |
| Ordering.CrossColumnMoveKeepsTargetContiguous | server/routes/tasks.js:216-239 | a cross-column move to 0 <= q <= n keeps the target column contiguous, one task larger |
| Ordering.CrossColumnMoveKeepsSourceContiguous | server/routes/tasks.js:216-239 | a cross-column move keeps the source column contiguous, one task smaller |
| Ordering.CrossColumnMoveKeepsContiguous | server/routes/tasks.js:216-239 | a cross-column move to 0 <= q <= n keeps both columns contiguous, with counts n_source - 1 and n_target + 1 |
| Ordering.GapColumn | server/routes/tasks.js:216-239 | the three-task column `[X0, Y1, Z2]` of one project is contiguous |
| Ordering.ThirdAtThreeBreaks | server/routes/tasks.js:216-239 | a three-task column whose third task sits at position 3 is not contiguous |
| Ordering.MoveFirstToEnd | server/routes/tasks.js:216-239 | moving X of `[X0, Y1, Z2]` to position 2 in its own column gives `X2, Y1, Z3` |
| Ordering.MoveOntoOwnSlot | server/routes/tasks.js:216-239 | moving Y of `[X0, Y1, Z2]` onto its own position 1 gives `X0, Y1, Z3` |
| Ordering.PushedThirdBreaks | server/routes/tasks.js:216-239 | neither of those results is contiguous |
| Ordering.SameColumnMoveLeavesGap | server/routes/tasks.js:216-239 | on the contiguous column `[X0, Y1, Z2]` a same-column move as written breaks contiguity, both for X to 2 and for Y onto its own slot |
| Ordering.MoveClosingGap | server/routes/tasks.js:216-239 | the corrected move, closing the vacated slot on every move, keeps the list's length |
| Ordering.MoveClosingGapAgreesAcrossColumns | server/routes/tasks.js:216-239 | on a column change the corrected move is the move as written |
| Ordering.MoveClosingGapKeepsContiguous | server/routes/tasks.js:216-239 | the corrected same-column move to 0 <= q < n keeps the column contiguous with n tasks |
| Ordering.MoveClosingGapToOwnSlotIsNoOp | server/routes/tasks.js:216-239 | with the correction, moving a task onto its own slot changes nothing |
| Ordering.DeleteResultIds | server/routes/tasks.js:279-288 | deletion keeps ids unique, keeps the other tasks in order and removes the deleted id |
| Ordering.DeleteKeepsContiguous | server/routes/tasks.js:279-288 | deleting from a contiguous column leaves it contiguous with one task less; tasks outside that project and column are unchanged |
| Ordering.DeleteResult | server/routes/tasks.js:279-288 | the tasks above the removed one in its project and column move down one, then it is removed; one task fewer |
| Ordering.RemovePacked | server/routes/tasks.js:279-288 | removing a task whose column-mates are packed into 0..m-1 leaves that column's positions distinct and below m |
| TaskRoutes.NewColumn | server/models/Task.js:18-22 | an absent column defaults to `todo`; a given one must be in the enum |
| TaskRoutes.NewPriority | server/models/Task.js:23-27 | an absent priority defaults to `medium`; a given one must be in the enum |
| TaskRoutes.CreateFailure | server/routes/tasks.js:45-79 | a refused create is never answered 403; an accepted body has a non-blank title, names a project the caller owns or belongs to, and a column and priority that are absent or in the schema's enums |
| TaskRoutes.CreateFailureCases | server/routes/tasks.js:45-79 | create answers 400 exactly for a missing or blank title or a missing project; 404 exactly when the project is not accessible; 500 exactly for a column or priority outside the enum; never 403 |
| TaskRoutes.UpdateNotice | server/routes/tasks.js:129-171 | no notice without `assignedTo`; `task-assigned` to exactly the new ids not previously assigned when there are some, in the body's order and as often as the body repeats each; otherwise `task-updated` to the whole non-empty list; nothing for an empty list |
| TaskRoutes.CommentRecipients | server/routes/tasks.js:341-346 | the recipients are the assignees other than the commenter, in order, each as often as it is assigned |
| TaskRoutes.ListTasks | server/routes/tasks.js:16-37 | 404 exactly when the project is not accessible; otherwise exactly the project's tasks, in store order |
| TaskRoutes.CreateTask | server/routes/tasks.js:45-103 | on failure nothing changes and the error is the one CreateFailure names; on success a task is appended with a fresh id, a trimmed title, the caller as author and position `max + 1` in its column; every assignee is notified with `task-assigned`, then `task-created` is emitted |
| TaskRoutes.StoreNewTask | server/routes/tasks.js:75-101 | appends the task, notifies its assignees and emits `task-created`, in that order |
| TaskRoutes.LoadForWrite | server/routes/tasks.js:197-210 | 404 for an unknown task, 500 when its project is missing, 403 when the caller is neither owner nor member; otherwise the task's index and its project |
| TaskRoutes.MoveTask | server/routes/tasks.js:187-253 | 400 with no change for a column outside the enum or a missing position; 404/403 with no change; otherwise the store becomes MoveResult and `task-updated` is emitted with the moved task |
| TaskRoutes.DeleteTask | server/routes/tasks.js:261-296 | 404 for an unknown task, 500 when its project is missing, 403 without access, success otherwise; on success the column is compacted, the task is removed and `task-deleted` is emitted; on failure nothing changes |
| TaskRoutes.ApplyPatch | server/routes/tasks.js:129-141 | only the defined fields are overwritten (the title trimmed); the save fails exactly for a blank title or a column or priority outside the enum |
| TaskRoutes.PatchSaves | server/routes/tasks.js:141 | `task.save()` passes the schema exactly when a given title is not blank, a given column is todo, doing or done and a given priority is low, medium or high |
| TaskRoutes.UpdateTask | server/routes/tasks.js:111-179 | 404 for an unknown task, 500 when its project is missing, 403 without access; then success exactly when the save validates, 500 otherwise; on success the task is replaced by the merged one, UpdateNotice's recipients are notified and `task-updated` is emitted; on failure nothing changes |
| TaskRoutes.ReplaceTaskKeepsValid | server/routes/tasks.js:133-141 | saving a task under its own id keeps the store invariant |
| TaskRoutes.NotifyAndEmitUpdate | server/routes/tasks.js:148-177 | sends the notice UpdateNotice chooses, with `undefined` as the project name (the project is loaded without its name), then emits `task-updated` |
| TaskRoutes.AddComment | server/routes/tasks.js:304-363 | 400 exactly for a missing or blank text; then 404 for an unknown task, 500 when its project is missing, 403 without access, success otherwise; on success exactly one comment by the caller with the trimmed text is appended, and the other assignees are notified |
| TaskRoutes.CommentOn | server/routes/tasks.js:328-361 | the task gains exactly one comment by the caller with the given text and nothing else changes in it; every other task, the projects and the id counter are kept; the notifications and the emission are the ones CommentSent describes |
| TaskRoutes.NotifyAndEmitComment | server/routes/tasks.js:340-361 | notifies the assignees other than the commenter with `task-comment`, then emits `task-updated` |
| ProjectRoutes.UntiedCheckIsReadCheck | server/routes/projects.js:95-101 | once any member entry is an admin, the write check admits exactly the owner and the members |
| ProjectRoutes.UntiedCheckAdmitsPlainMember | server/routes/projects.js:95-101 | a plain member of a project that has an admin passes the write check as written, but not the tied one |
| ProjectRoutes.TiedCheckRefusesPlainMembers | server/routes/projects.js:95-101 | the tied check refuses a non-owner whose own entries are all plain members, and implies both the check as written and read access |
| ProjectRoutes.CanAdminister | server/routes/projects.js:95-101 | the write filter as written: the owner, or a caller with a member entry while some entry, possibly another, is `admin` |
| ProjectRoutes.CanAdministerTied | client/src/pages/ProjectBoard.tsx:185-188 | the intended write test: the owner, or a caller whose own member entry is `admin` |
| ProjectRoutes.AdminIndex | server/routes/projects.js:161-166 | finds the project with that id that passes the write check; None exactly when no such project passes it |
| ProjectRoutes.OwnedIndex | server/routes/projects.js:130-133 | finds the project with that id owned by the caller; None exactly when there is none |
| ProjectRoutes.ReplaceProjectKeepsValid | server/routes/projects.js:109-114 | saving a named project under its own id keeps the store invariant |
| ProjectRoutes.ListProjects | server/routes/projects.js:16-21 | exactly the projects the caller owns or belongs to, in store order |
| ProjectRoutes.GetProject | server/routes/projects.js:36-48 | 404 exactly when no project with that id is accessible; otherwise that project |
| ProjectRoutes.NewProjectDoc | server/routes/projects.js:58-79 | 400 exactly for a missing or blank name; otherwise the trimmed name, the caller as owner and sole admin member, colour `#6366f1` unless a truthy one is given, and `''` for a missing description or background |
| ProjectRoutes.CreateProject | server/routes/projects.js:58-85 | the reply is NewProjectDoc under the next id; on success that project is appended and the generator advances; nothing else changes |
| ProjectRoutes.CreatorAdministers | server/routes/projects.js:75-78 | the creator passes both write checks and the project has an admin entry |
| ProjectRoutes.Patched | server/routes/projects.js:109-112 | id, owner and members are kept; a truthy name becomes the trimmed name and a truthy colour the given colour, a present description or background the given one; every other field is kept |
| ProjectRoutes.PatchedIdempotent | server/routes/projects.js:109-112 | applying the same update twice equals applying it once, and an empty update changes nothing |
| ProjectRoutes.UpdateProject | server/routes/projects.js:93-120 | 404 when the write check fails; 500 exactly for a truthy name that trims to nothing; otherwise the project is replaced by Patched |
| ProjectRoutes.WithoutProjectTasks | server/routes/projects.js:139-140 | exactly the tasks of other projects remain, in order |
| ProjectRoutes.ProjectDeletionKeepsOtherColumns | server/routes/projects.js:139-140 | deleting a project's tasks leaves every other project's column counts and contiguity unchanged |
| ProjectRoutes.DeleteProject | server/routes/projects.js:128-144 | 404 with no change exactly when the caller owns no project with that id; otherwise every task of the project and then the project are removed |
| ProjectRoutes.DeletionKeepsValid | server/routes/projects.js:139-142 | the cascade keeps the store invariant and leaves no project with that id |
| ProjectRoutes.NewRole | server/routes/projects.js:191 | the role defaults to `member` when not truthy, and is Admin exactly for `admin` |
| ProjectRoutes.EmailIndex | server/routes/projects.js:173-174 | finds a user with that e-mail; None exactly when there is none |
| ProjectRoutes.AddMember | server/routes/projects.js:152-200 | 400 for an invalid e-mail; 404 when the write check fails or the e-mail is unknown; 400 with no change for an existing member; 500 for a role outside the enum; otherwise one entry is appended |
| ProjectRoutes.AddedMemberJoins | server/routes/projects.js:189-192 | the added user gains access, earlier entries are kept, and members stay unique |
| ProjectRoutes.WithoutMember | server/routes/projects.js:222-224 | exactly the entries of other users remain, in order |
| ProjectRoutes.RemovedMemberLeaves | server/routes/projects.js:222-224 | the removed user is no member any more and loses access unless it is the owner; removing a non-member changes nothing |
| ProjectRoutes.RemoveMember | server/routes/projects.js:208-232 | 404 with no change when the write check fails; otherwise the project's members become WithoutMember |
| UserRoutes.SearchUsers | server/routes/users.js:14-30 | empty for a missing query or one shorter than 2; at most 10 users, never the caller, each matching by name or e-mail, in store order; below the limit every candidate is returned |
| UserRoutes.AllRead | server/routes/users.js:42-44 | every notification is kept with `read` set |
| UserRoutes.AllReadProperties | server/routes/users.js:42-46 | after mark-all every entry is read, ids, messages and kinds are kept, and doing it again changes nothing |
| UserRoutes.MarkedRead | server/routes/users.js:59-65 | only the entries with that id become read; the others are kept |
| UserRoutes.MarkedReadIdempotent | server/routes/users.js:65-66 | marking the same id twice equals marking it once, and that entry is read |
| UserRoutes.MarkAllRead | server/routes/users.js:38-48 | 500 with no change for an unknown caller; otherwise only the caller's inbox changes, to AllRead |
| UserRoutes.MarkOneRead | server/routes/users.js:56-68 | 404 with no change exactly when the caller's inbox has no entry with that id; otherwise only the caller's inbox changes, to MarkedRead |
| Notifications.Deliver | server/utils/notifications.js:6-18 | delivery keeps the user list's length and ids |
| Notifications.Render | server/utils/notifications.js:34-80 | the task-assigned text opens with its wording and the quoted task title and ends with the quoted project name, the task-updated text likewise with its own wording; the comment text opens with the commenter's name and ends with the quoted task title |
| Notifications.DeliverInbox | server/utils/notifications.js:6-20 | a registered recipient's inbox gains exactly one unread entry at its end; every other inbox, and any inbox for an unknown user, is unchanged |
| Notifications.DeliverKeepsInvariant | server/utils/notifications.js:17-20 | one delivery keeps user ids unique and inbox ids equal to indices |
| Notifications.DeliverAll | server/utils/notifications.js:37-47 | a fan-out keeps the user list's length and ids |
| Notifications.DeliverAllKeepsInvariant | server/utils/notifications.js:37-47 | a fan-out keeps user ids unique and inbox ids equal to indices |
| Notifications.DeliverAllInbox | server/utils/notifications.js:37-47 | each registered user's inbox grows by one entry per occurrence in the recipient list, each with the payload and unread; unknown users gain nothing |
| Notifications.FanOutEventsShape | server/utils/notifications.js:23-26 | at most one `notification-created` event per recipient, exactly one when all are registered, each for a recipient and carrying the payload unread |
| Notifications.CreateNotification | server/utils/notifications.js:4-31 | an unknown user changes nothing and returns nothing; otherwise one entry is appended to the user's inbox, one event is emitted, and the new last entry is returned |
| Notifications.FanOut | server/utils/notifications.js:37-47 | the users become DeliverAll and the events gain FanOutEvents; tasks and projects are untouched |
| Notifications.NotifyTaskAssigned | server/utils/notifications.js:34-48 | every listed user gets a `task-assigned` entry; an empty list changes nothing |
| Notifications.NotifyTaskComment | server/utils/notifications.js:50-64 | every listed user gets a `task-comment` entry; an empty list changes nothing |
| Notifications.NotifyTaskUpdated | server/utils/notifications.js:66-80 | every listed user gets a `task-updated` entry; an empty list changes nothing |
| Kanban.Insert | client/src/components/KanbanBoard.tsx:116 | inserting a card adds exactly that card to the list's multiset |
| Kanban.InsertSorted | client/src/components/KanbanBoard.tsx:116 | inserting into a list sorted by position keeps it sorted |
| Kanban.SortByPosition | client/src/components/KanbanBoard.tsx:116 | the result is sorted by position and is a permutation of the input |
| Kanban.ColumnContents | client/src/components/KanbanBoard.tsx:115-119 | a column's list is sorted by position and holds each card of that column as often as the board does, and no other card |
| Kanban.ColumnsCoverBoard | client/src/components/KanbanBoard.tsx:115-119 | when every card's column is one of the three, the three lists together hold every card |
| Kanban.ColumnTasks | client/src/components/KanbanBoard.tsx:115-119 | the column's cards sorted by position (ColumnContents states its content) |
| Kanban.IndexOf | client/src/components/KanbanBoard.tsx:173-178 | `findIndex`: the first index with that id, or -1 exactly when there is none |
| Kanban.FindCard | client/src/components/KanbanBoard.tsx:134 | the first card with that id, or none |
| Kanban.HandleDragEnd | client/src/components/KanbanBoard.tsx:125-201 | no request without a target, for an unknown card, for an unknown target or on itself; a drop on a column requests (column, its length) unless it is the card's own; a drop on a card of another column requests that card's slot; within a column, the target's position or one more, by index order, and nothing when the column is not one of the board's three (the lookup throws); the board is updated only with the server's reply |
| Kanban.DropOnCard | client/src/components/KanbanBoard.tsx:166-199 | a drop on a card of another column asks for that card's column and position; within one of the board's three columns, for the slot SlotWithin gives; within any other column nothing is sent, because the column's list is missing and the lookup throws |
| Kanban.SlotWithin | client/src/components/KanbanBoard.tsx:169-184 | the position asked for within a column is the target's own or one more, the target's own exactly when the dragged card comes before it in the column's list |
| Kanban.ColumnDropAppends | client/src/components/KanbanBoard.tsx:138-149 | when a column's positions are within 0..n-1, the requested position n lies after every card of that column |
| Client.IdOf | client/src/components/TaskModal.tsx:47 | the assignee's `_id` when the server populated it, the bare reference itself otherwise; the same user either way |
| Client.AssignedTo | client/src/components/AdvancedSearch.tsx:43-49 | a card is assigned to a user exactly when its assignee list is present and the user's id is among the ids of that list; never when the list is absent |
| Board.ReplaceById | client/src/pages/ProjectBoard.tsx:81-85 | `task-updated` replaces each card with that id and keeps length, order and all other cards |
| Board.Appended | client/src/pages/ProjectBoard.tsx:87-89 | `task-created` appends the card at the end |
| Board.RemoveById | client/src/pages/ProjectBoard.tsx:91-93 | `task-deleted` removes exactly the cards with that id and keeps the rest in order |
| Board.ReplaceByIdIdempotent | client/src/pages/ProjectBoard.tsx:173-176 | replaying an update changes nothing more, and an update for an unknown id changes nothing |
| Board.CreateThenDelete | client/src/pages/ProjectBoard.tsx:87-93 | creating a card with a fresh id and then deleting it restores the list |
| Board.RemoveByIdIdempotent | client/src/pages/ProjectBoard.tsx:91-93 | replaying a deletion changes nothing more |
| Board.PlainMemberIsNotAdmin | client/src/pages/ProjectBoard.tsx:185-188 | a user who is not the owner and whose member entries are not `admin` is not an admin and sees no create button |
| Board.IsAdmin | client/src/pages/ProjectBoard.tsx:185-188 | the owner, or a user whose own member entry is `admin`; with neither project nor user loaded `undefined === undefined` makes it hold |
| Board.ShowCreateButton | client/src/pages/ProjectBoard.tsx:308 | the create button shows exactly for an admin on the board view |
| Board.Fetched | client/src/pages/ProjectBoard.tsx:108-112 | a fetch sets both the tasks and the filtered tasks and leaves the filter flag |
| Board.SearchResults | client/src/pages/ProjectBoard.tsx:120-123 | search results always set the filter flag |
| Board.FocusFilter | client/src/pages/ProjectBoard.tsx:125-128 | focus results set the filter flag exactly when their length differs from the task count |
| Board.FocusShowsSelection | client/src/pages/ProjectBoard.tsx:125-128 | the board shows exactly the focus results whenever they are a subsequence of the tasks |
| Board.Displayed | client/src/pages/ProjectBoard.tsx:331 | the filtered tasks when the filter flag is set, all tasks otherwise |
| Modal.ToggleAssignee | client/src/components/TaskModal.tsx:117-123 | a present id is removed (every occurrence); an absent id is appended at the end |
| Modal.ToggleTwice | client/src/components/TaskModal.tsx:117-123 | toggling an absent id twice restores the list; toggling a present id twice moves it to the end, once |
| Modal.LoadTask | client/src/components/TaskModal.tsx:40-48 | the form takes the task's fields, `''` for an absent description, and the assignees' ids |
| Modal.Submit | client/src/components/TaskModal.tsx:51-75 | nothing is sent for a title that trims to nothing; otherwise PUT to the open task's id when a task is open and POST when creating, carrying the whole form (untrimmed title, description, column, priority, due date, assignees) and the project |
| Modal.PostedTaskPassesValidation | client/src/components/TaskModal.tsx:60-74 | a task the dialog posts passes the server's title check and enums, so the only refusal left is 404 |
| Modal.UnchangedEditResends | client/src/components/TaskModal.tsx:40-75 | opening a task and submitting unchanged sends a PUT for that task with its own title, column, priority, due date and assignee ids |
| Modal.WordRun | client/src/components/TaskModal.tsx:90 | the longest prefix of word characters |
| Modal.Mentions | client/src/components/TaskModal.tsx:90-91 | every mention token is a non-empty run of word characters; text starting with `@` and a word character yields that word run first |
| Modal.MentionsAppend | client/src/components/TaskModal.tsx:90-91 | the scan goes on after every match: the tokens of a text cut after a character that is neither `@` nor a word character are the tokens of the first part followed by those of the second |
| Modal.MentionsComplete | client/src/components/TaskModal.tsx:90-91 | some mention is found exactly when an `@` is directly followed by a word character somewhere in the text |
| Modal.MentionsSound | client/src/components/TaskModal.tsx:90-91 | every mention token occurs in the text right after an `@` |
| Modal.MentionsSkip | client/src/components/TaskModal.tsx:90-91 | text without `@` contributes no mention |
| Modal.SendsComment | client/src/components/TaskModal.tsx:86-87 | a comment is sent exactly for a text that trims to something, on an open task |
| Modal.MemberNamed | client/src/components/TaskModal.tsx:96-98 | the first member whose lower-cased name equals the lower-cased token |
| Modal.MentionedNames | client/src/components/TaskModal.tsx:93-102 | the names of the members the tokens match, in token order, none for a token matching nobody |
| Modal.MentionedNamesSound | client/src/components/TaskModal.tsx:93-102 | at most one toast per token; each names a member whose lower-cased name equals a token's; none when no member matches |
| Modal.MentionToasts | client/src/components/TaskModal.tsx:93-102 | the mention loop toasts exactly MentionedNames of the text's tokens |
| Modal.Suggestions | client/src/components/TaskModal.tsx:297-304 | no list without `@`; otherwise exactly the members whose lower-cased name contains the lower-cased piece after the first `@` |
| Modal.BareAtOffersEveryone | client/src/components/TaskModal.tsx:297-304 | right after typing `@` every member is offered |
| Modal.Complete | client/src/components/TaskModal.tsx:309-311 | the text before the first `@`, then `@`, the name and a space |
| Modal.CompletionMentionsMember | client/src/components/TaskModal.tsx:309-311 | picking a one-word name yields text whose only mention is that name |
| Bell.BadgeFor | client/src/components/NotificationBell.tsx:128-131 | no badge at 0, `9+` above 9, the single digit otherwise |
| Bell.UnreadCount | client/src/components/NotificationBell.tsx:88 | the number of unread entries |
| Bell.MarkAsRead | client/src/components/NotificationBell.tsx:46-48 | only entries with that id become read; length and order are kept |
| Bell.MarkAllAsRead | client/src/components/NotificationBell.tsx:79 | every entry becomes read; length and order are kept |
| Bell.MarkAllClearsBadge | client/src/components/NotificationBell.tsx:79-88 | after mark-all the unread count is 0 and no badge shows |
| Bell.MarkAsReadLowersCount | client/src/components/NotificationBell.tsx:46-48 | marking never raises the unread count, and lowers it when an unread entry has that id |
| Bell.Reverse | client/src/components/NotificationBell.tsx:36 | the fetched list is shown in reverse order |
| Bell.ReverseReverse | client/src/components/NotificationBell.tsx:36 | reversing loses no entry: reversing back restores the inbox |
| Bell.ReverseKeepsUnread | client/src/components/NotificationBell.tsx:36 | the reversed list has the inbox's unread count |
| Bell.Fetched | client/src/components/NotificationBell.tsx:32-37 | a reply with notifications replaces the list, newest first; otherwise the list is kept |
| Bell.ClickTarget | client/src/components/NotificationBell.tsx:173 | a click asks to mark an entry exactly when it is unread, and then the entry's own id |
| Bell.Clicked | client/src/components/NotificationBell.tsx:173 | a click on an unread entry marks it read; a click on a read entry does nothing |
| Bell.ClickReads | client/src/components/NotificationBell.tsx:173 | clicking a read entry changes nothing; after a click the entry is read and an unread click lowers the count |
| Bell.RefetchOnlyOwn | client/src/components/NotificationBell.tsx:60-62 | an event refetches only for the signed-in user it names |
| Bell.Refetches | client/src/components/NotificationBell.tsx:60-62 | a `notification-created` event triggers a refetch exactly when it names the signed-in user |
| Bell.IconsDistinguishKinds | client/src/components/NotificationBell.tsx:90-103 | the four kinds get four different icons, none of them the fallback bell |
| Bell.Icon | client/src/components/NotificationBell.tsx:90-103 | one icon per known kind, a bell otherwise |
| Search.PassesAllSteps | client/src/components/AdvancedSearch.tsx:25-59 | a task passes all six steps exactly when it is Wanted |
| Search.Wanted | client/src/components/AdvancedSearch.tsx:22-61 | a task passes every active test: query in title or description, priority, column, assignee, a due date, overdue |
| Search.Matching | client/src/components/AdvancedSearch.tsx:21-62 | the wanted tasks, in the list's order |
| Search.QueryStage | client/src/components/AdvancedSearch.tsx:25-32 | the query step keeps exactly the tasks passing the first test |
| Search.PriorityStage | client/src/components/AdvancedSearch.tsx:35-37 | after the priority step exactly the tasks passing the first two tests remain |
| Search.ColumnStage | client/src/components/AdvancedSearch.tsx:39-41 | after the column step exactly the tasks passing the first three tests remain |
| Search.AssigneeStage | client/src/components/AdvancedSearch.tsx:43-49 | after the assignee step exactly the tasks passing the first four tests remain |
| Search.DueDateStage | client/src/components/AdvancedSearch.tsx:51-53 | after the due-date step exactly the tasks passing the first five tests remain |
| Search.OverdueStage | client/src/components/AdvancedSearch.tsx:55-59 | after the overdue step exactly the tasks passing all six tests remain |
| Search.PipelineIsMatching | client/src/components/AdvancedSearch.tsx:21-62 | the six successive filters equal one filter by Wanted |
| Search.HandleSearch | client/src/components/AdvancedSearch.tsx:21-62 | the search reports exactly Matching |
| Search.MatchingMeans | client/src/components/AdvancedSearch.tsx:22-61 | a task is in the result exactly when it is in the list and wanted; the result keeps the list's order |
| Search.NothingSetKeepsAll | client/src/components/AdvancedSearch.tsx:22-61 | a blank query with no filter returns the whole list |
| Search.MoreFiltersNarrow | client/src/components/AdvancedSearch.tsx:35-59 | a stricter set of filters gives the looser result filtered further |
| Search.ClearFilters | client/src/components/AdvancedSearch.tsx:64-74 | clearing reports the whole list |
| Search.SearchAfterClear | client/src/components/AdvancedSearch.tsx:64-74 | searching with the cleared panel gives what clearing reported |
| Focus.ToggleFocusMode | client/src/components/FocusMode.tsx:15-31 | each toggle flips the mode; activating passes exactly the user's tasks, deactivating passes every task |
| Focus.MyTasksCount | client/src/components/FocusMode.tsx:46-49 | the badge count never exceeds the number of tasks |
| Focus.ActivationSelects | client/src/components/FocusMode.tsx:16-49 | activation passes a subsequence of the tasks whose length is the displayed count |
| Focus.UnassignedNeverShown | client/src/components/FocusMode.tsx:19 | a task without assignees is never among the user's tasks |
| Focus.NoUserNoTasks | client/src/components/FocusMode.tsx:18-23 | without a signed-in user focus mode shows nothing |
| Focus.Mine | client/src/components/FocusMode.tsx:19-22 | a task with a non-empty assignee list one of whose ids is the user's |
| Focus.MyTasks | client/src/components/FocusMode.tsx:18-23 | the user's tasks, in the board's order |
| Focus.ToggleTwice | client/src/components/FocusMode.tsx:15-31 | activating and deactivating returns to inactive with every task passed |
| Focus.MineIsWanted | client/src/components/FocusMode.tsx:18-23 | the focus test is the search's assignee filter for the user's id |
| Focus.FocusIsAssigneeSearch | client/src/components/FocusMode.tsx:18-23 | focus mode selects exactly what a search on the user as assignee selects |
| Focus.BoardShowsToggle | client/src/components/FocusMode.tsx:24-28 | whatever focus mode passes is exactly what the board shows |
| Analytics.ThreePrioritiesSplit | client/src/components/AnalyticsDashboard.tsx:52-56 | when every priority is one of three distinct values, their counts sum to the list length |
| Analytics.OverdueAreNotDone | client/src/components/AnalyticsDashboard.tsx:45-50 | overdue tasks are never done, so overdue and done counts sum to at most the total |
| Analytics.NameOf | client/src/components/AnalyticsDashboard.tsx:64 | a populated assignee's non-empty name, and the fallback `Non assigné` otherwise; never empty |
| Analytics.TallyLast | client/src/components/AnalyticsDashboard.tsx:59-71 | counting one more assignment bumps that id's count by one and no other |
| Analytics.BumpShape | client/src/components/AnalyticsDashboard.tsx:62-68 | an unseen id gets a new last row with count 1 and its name; a seen id gets one more on its row, every other row and every name unchanged |
| Analytics.Bump | client/src/components/AnalyticsDashboard.tsx:62-68 | one assignment counted: a new last row with count 1 for an unseen id, one more on its row otherwise (BumpShape states it) |
| Analytics.TallyOf | client/src/components/AnalyticsDashboard.tsx:59-77 | the rows after counting every assignment, in order of first appearance (TallyCounts, TallyDistinct, TallyTotal state them) |
| Analytics.TallyTotal | client/src/components/AnalyticsDashboard.tsx:59-71 | the member counts sum to the number of assignments |
| Analytics.BumpTotal | client/src/components/AnalyticsDashboard.tsx:68 | each counted assignment adds exactly one to the sum |
| Analytics.TallyDistinct | client/src/components/AnalyticsDashboard.tsx:59-77 | no member appears in two rows |
| Analytics.TallyCoversAssigned | client/src/components/AnalyticsDashboard.tsx:59-71 | a member has a row exactly when it is assigned at least once |
| Analytics.TallyCounts | client/src/components/AnalyticsDashboard.tsx:59-71 | each row's count is the number of assignments to its member |
| Analytics.RowNamedByFirst | client/src/components/AnalyticsDashboard.tsx:64-66 | a row's name is that of the first assignment to its member |
| Analytics.TallyOfAppend | client/src/components/AnalyticsDashboard.tsx:60-71 | counting a further batch continues from the tally so far |
| Analytics.CreateThenIncrement | client/src/components/AnalyticsDashboard.tsx:65-68 | creating a zero row when missing and then incrementing it is one Bump |
| Analytics.MemberTally | client/src/components/AnalyticsDashboard.tsx:59-77 | the nested loop over the tasks' assignees builds exactly TallyOf of all assignments |
| Analytics.FetchAnalytics | client/src/components/AnalyticsDashboard.tsx:38-91 | the stored figures are exactly Summarize of the fetched tasks |
| Analytics.Summarize | client/src/components/AnalyticsDashboard.tsx:38-91 | the dashboard's figures: total, per column, overdue, per priority and per member |
| Analytics.ColumnCountsAddUp | client/src/components/AnalyticsDashboard.tsx:44-47 | when every column is in the enum, the todo, doing and done counts sum to the total |
| Analytics.PriorityCountsAddUp | client/src/components/AnalyticsDashboard.tsx:52-56 | when every priority is in the enum, the high, medium and low counts sum to the total |
| Analytics.OverdueWithinOpen | client/src/components/AnalyticsDashboard.tsx:44-50 | overdue plus completed never exceeds the total |
| Analytics.MemberCountsAddUp | client/src/components/AnalyticsDashboard.tsx:59-77 | the member rows are distinct, each counts its member's assignments, and together they count every assignment |

## Left out

- Concurrency: each route handler is one atomic step. The window between the two `updateMany` calls of a move and the save, and interleaved requests, are not modelled.
- MongoDB querying: `populate` is not modelled. The order of `find` results is store order, so the `sort` by `position`/`createdAt` and by `updatedAt` is not modelled. ObjectId cast errors are not modelled either.
- UserRoutes.SearchUsers: the case-insensitive `$regex` match is a parameter `matches`, so regular expressions are not modelled.
- ProjectRoutes.AddMember: express-validator's `isEmail` is a parameter `isEmail`.
- Socket.io transport is not modelled: rooms, `join-project`, the client connections. Emissions are a log of events in the store.
- HTTP and UI are not modelled: the axios calls themselves, toasts, console logging, React rendering, colour classes and the focus badge's plural label. The client functions take the server's reply as a parameter.
- Time: the wall clock is a parameter `now` (an integer time stamp). The deadline toasts and the hourly interval of the project page are not modelled.
- Floating point: `completionRate`, `averageCompletionTime` and the bar widths of the analytics are not modelled.
- Text: lower-casing is modelled on ASCII letters only; Unicode case mapping is not modelled. Trimming removes the characters JavaScript's `trim` removes (`Text.IsSpace`).
- UserRoutes.SearchUsers: the source's `q.length < 2` counts UTF-16 code units, the model counts characters. A one-character query outside the Basic Multilingual Plane is searched by the source and answered `[]` by the model.
- Notifications: a message is kept as its template and arguments (`Notifications.Render` gives the text), and time stamps are not stored.
- Notifications.CreateNotification: the error branch that catches a failed save and logs it is not modelled, because saves do not fail in the model.
- Analytics.MemberTally: `Object.entries` order is modelled as insertion order. This differs for integer-like keys, which ObjectId strings never are.
- TaskRoutes.CreateTask: the request carries only the task's own fields (title, description, project, column, priority, due date, assignees). Other fields of the body that `...req.body` would copy into the new document, such as `comments`, `_id` or `createdAt`, are not modelled, and neither is the server error a client-chosen duplicate `_id` causes.
- Kanban.SortByPosition: sort stability is not stated. The tie order of equal positions is not part of the contract.
- Not part of this model: authentication (`protect` and the client's authentication context), the server start-up, and the UI-only components (activity feed, project cards, task cards, creation and member dialogs, templates).

## Findings

| source | as written | input that shows it | evidently intended | confidence | as-written member | corrected member |
|---|---|---|---|---|---|---|
| server/routes/tasks.js:216-239 | the old column's gap is closed only when the column changes, so a same-column move shifts tasks up without closing the vacated slot | column `[X0, Y1, Z2]`: moving X to 2 gives `Y1, X2, Z3`; moving Y onto its own slot 1 gives `X0, Y1, Z3` | every move keeps the column's positions 0..n-1 | not executed | Ordering.SameColumnMoveLeavesGap | Ordering.MoveClosingGapKeepsContiguous |
| server/routes/projects.js:95-101 | `{'members.user': caller, 'members.role': 'admin'}` matches the user and the role against different member entries | owner 7, members `[7 admin, 8 member]`: user 8 may update the project, delete members and add members | only the owner or a member whose own entry is `admin` may write, as the client's `isAdmin` has it | not executed | ProjectRoutes.UntiedCheckAdmitsPlainMember | ProjectRoutes.TiedCheckRefusesPlainMembers |
