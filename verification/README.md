# Task manager: optimistic task updates, conflict resolution and live board sync

A Dafny model of the synchronisation core of a collaborative Kanban task
manager (an Express/Mongoose server and a React board). The model covers:

- the task controller: create, update with an optimistic version check, delete,
  conflict resolution with the `merge` and `overwrite` policies, least-loaded
  "smart assign", and listing;
- the Task schema: title validator, enums, defaults, unique title, and the
  pre-save hook that bumps `version`;
- the audit-log entry schema and the "latest twenty, newest first" query;
- the board's reducer for broadcast `taskUpdate` events, the body a move sends,
  the body a conflict resolution sends, and the per-column status filter.

Each controller call is one atomic step over a `State`. The state holds the task
collection (`Store`, a map from id to task), the user list, the audit log and
the sequence of broadcast events. An accepted mutation saves the task, appends
one audit entry and emits one event. Every error answer leaves the state as it was.

Modules, one per source file or concern:

| file | module | models |
|---|---|---|
| js.dfy | `Js` | JS values: missing/null/value fields, `||` truthiness, object spread |
| task_model.dfy | `TaskModel` | server/models/Task.js |
| action_model.dfy | `ActionModel` | server/models/Action.js |
| wire.dfy | `Wire` | request bodies, users, `taskUpdate` events |
| task_controller.dfy | `TaskController` | server/controllers/taskController.js |
| action_controller.dfy | `ActionController` | server/controllers/actionController.js |
| seqs.dfy | `Seqs` | `Array.prototype.filter` |
| kanban_board.dfy | `KanbanBoard` | client/src/components/KanbanBoard.jsx |
| replica.dfy | `Replica` | server and boards together |

Behaviours of the code worth knowing:

- An accepted update, resolution or assignment raises the stored version by 2.
  The controller does `version += 1` and the pre-save hook does it again.
  A new task is stored at version 1, or at the body's version plus one if the
  body carries a version.
- `resolveConflict` checks no version at all.
- An action other than `merge`/`overwrite` still bumps the version, logs and broadcasts.
- Smart-assign ties go to the earliest user in list order.
- A failed save (duplicate or status-like title, bad enum value) is answered
  500: 'Server error', or 'Server error: <message>' from smart assign.

## Model

| member | source | states |
|---|---|---|
| TaskModel.ParseStatus | server/models/Task.js:15-19 | the status enum accepts a string iff it is the label of one of Todo, In Progress, Done, and yields that status |
| TaskModel.ParsePriority | server/models/Task.js:20 | the priority enum accepts a string iff it is the label of one of Low, Medium, High |
| TaskModel.TitleValidatorRejectsLabels | server/models/Task.js:8-11 | a title is allowed iff it differs from every status label |
| TaskModel.Save | server/models/Task.js:3-30 | a save succeeds iff the title is a non-empty allowed string, unused by any other task, status/priority are enum labels, and an insert's id is new; the saved task takes the draft's fields, applies the defaults ('' description, Todo, Medium), has version draft+1 and updatedAt = now, and keeps titles valid and unique |
| ActionModel.ParseKind | server/models/Action.js:6-10 | the action enum accepts exactly create, update, delete, assign, move |
| ActionModel.NewEntry | server/models/Action.js:3-13 | an entry is created iff taskId, userId, a valid action and a non-empty details are given; a missing timestamp becomes the creation time |
| ActionModel.RecordPassesSchema | server/controllers/taskController.js:58-63 | every entry a controller writes passes the entry schema unchanged, stamped with the creation time |
| ActionController.SortNewestFirst | server/controllers/actionController.js:9 | the sort yields a permutation of the log with non-increasing timestamps |
| ActionController.GetActionLogs | server/controllers/actionController.js:4-15 | the result has min(20, log length) entries, newest first, drawn from the log (as a multiset), and no omitted entry is newer than the oldest returned |
| TaskController.MergeOfFullPayloadIsOverwrite | server/controllers/taskController.js:102-114 | a merge whose title, description, status and priority are non-empty and whose assignee is given has exactly the outcome of an overwrite with the same payload |
| TaskController.MergeOfEmptyPayloadKeepsTask | server/controllers/taskController.js:102-115 | a merge of an empty payload has exactly the outcome of an unknown action: every field stays, only version and update time move |
| TaskController.OverwriteWithOwnFieldsKeepsTask | server/controllers/taskController.js:108-115 | an overwrite with the stored task's own fields has exactly the outcome of an unknown action |
| TaskController.CreateTask | server/controllers/taskController.js:15-33 | a create is accepted iff the draft built from the body (falsy assignee as null, body version or 0, created now) passes every save check: non-empty allowed title, enum labels, new id, unused title; the task takes the body's fields with schema defaults and a null-for-falsy assignee, is stored at body version (or 0) plus 1, and exactly one create entry and one create event are added; a refused save changes nothing |
| TaskController.UpdateTask | server/controllers/taskController.js:35-71 | a missing id gives NotFound and a version mismatch gives Conflict carrying the stored task and the body, both with nothing changed; on a match the task takes the body's fields, its version rises by 2, only that task changes, and one update entry and one update event are added |
| TaskController.DeleteTask | server/controllers/taskController.js:73-92 | a missing id gives NotFound with no entry and no event; otherwise exactly that id disappears, the other tasks are untouched, and one delete entry and one delete event are added |
| TaskController.ResolveConflict | server/controllers/taskController.js:94-131 | success does not depend on any version; merge takes truthy payload fields else stored ones, overwrite takes payload fields with null assignee by default, any other action keeps the fields; the version rises by 2 and one update entry and one event are added |
| TaskController.LeastLoaded | server/controllers/taskController.js:147-159 | the scan with a strict `<` returns a position of least load, and every earlier position has a strictly larger load |
| TaskController.FairChoiceUnique | server/controllers/taskController.js:155-158 | the tie-break is deterministic: at most one position is the fair choice |
| TaskController.SelectAssignee | server/controllers/taskController.js:147-163 | the source loop selects nobody iff the user list is empty, and otherwise the fair choice, so 'No suitable user found' only follows an empty list |
| TaskController.SmartAssign | server/controllers/taskController.js:133-186 | a missing task gives NotFound and an empty user list gives NoUsers, with nothing changed; otherwise the task gets the least-loaded (earliest on ties) user and version +2, nothing else about it changes, one assign entry naming that user and one update event are added |
| TaskController.GetTasks | server/controllers/taskController.js:6-13 | the result lists every stored task exactly once, as stored |
| TaskController.Handle | server/routes/tasksRouter.js:9-14 | every accepted request appends exactly one well-formed audit entry by its actor at its time and one event; every refused request changes nothing; title validity and uniqueness are kept |
| KanbanBoard.HandleTaskUpdate | client/src/components/KanbanBoard.jsx:51-62 | create appends the task after an unchanged list; update replaces every element with the event's id in place, keeping length and order; delete keeps exactly the elements with other ids; any other action changes nothing |
| KanbanBoard.UpdateOfUnknownIdIsIdentity | client/src/components/KanbanBoard.jsx:55-58 | an update for an id not in the list leaves the list identical |
| KanbanBoard.DeleteKeepsOrder | client/src/components/KanbanBoard.jsx:59-60 | deleting distributes over concatenation, so survivors keep their relative order |
| KanbanBoard.DeleteOfUnknownIdIsIdentity | client/src/components/KanbanBoard.jsx:59-60 | a delete for an id not in the list leaves the list identical |
| KanbanBoard.Column | client/src/components/KanbanBoard.jsx:129-130 | a column holds exactly the tasks whose status is its label |
| KanbanBoard.ColumnKeepsOrder | client/src/components/KanbanBoard.jsx:129-130 | a column keeps list order: the column of a concatenation is the concatenation of columns |
| KanbanBoard.ColumnsPartition | client/src/components/KanbanBoard.jsx:115-130 | the three columns together show every task exactly once |
| KanbanBoard.FindById | client/src/components/KanbanBoard.jsx:79 | `find` returns the first position holding the id, or nothing when no task has it |
| KanbanBoard.MovePayload | client/src/components/KanbanBoard.jsx:77-82 | a move body exists iff the list holds the id, and it is the first task with that id with only the status replaced and the version kept |
| KanbanBoard.ConflictRequest | client/src/components/KanbanBoard.jsx:95-109 | a falsy choice sends nothing; merge sends the stored task overlaid key by key by the client body; any other choice sends the client body as is |
| Replica.Run | server/routes/tasksRouter.js:9-14 | a run of requests only appends to the log and the events, one entry per event, and never changes the users |
| Replica.BoardFollowsServer | client/src/components/KanbanBoard.jsx:51-62 | a board listing the collection still lists it exactly after applying the events one request broadcast |
| Replica.BoardFollowsRun | client/src/components/KanbanBoard.jsx:15-21 | a board that applies every broadcast in order lists the final collection exactly, over any run of requests |
| Replica.RunKeepsConsistent | server/models/Task.js:4-11 | over any run, every title stays non-empty, unlike a status label, and unique |
| Replica.SecondWriterConflicts | server/controllers/taskController.js:42-57 | two updates against the same observed version: the first is accepted and the second gets a Conflict carrying the task the first wrote |
| Replica.MoveIsAccepted | client/src/components/KanbanBoard.jsx:77-84 | a move from a board in step with the server is accepted and changes only the status, version (+2) and update time |
| Replica.StatusUpdateAccepted | server/controllers/taskController.js:42-57 | an update whose body is the stored task with only the status replaced, at the stored version, is accepted and yields that task with the new status, version +2 and the new update time |
| Replica.ResolutionClobbersInterleavedUpdate | server/controllers/taskController.js:94-117 | after an interleaved accepted update, an update with the stale version is refused, but an overwrite resolution with that version is accepted and replaces the interleaved writer's fields |
| Replica.ResolutionIgnoresVersion | server/controllers/taskController.js:94-115 | the version carried by a resolution makes no difference to its outcome |
| Replica.MergeFromBoard | client/src/components/KanbanBoard.jsx:106 | end to end, a title or status the client left out comes from the conflict-time snapshot, a null or empty one from the task stored at resolution time |
| Replica.CreateDefaults | server/models/Task.js:13-30 | a body giving only a title yields description '', status Todo, priority Medium, no assignee, version 1 |
| Replica.CreateAcceptedIff | server/models/Task.js:4-11 | a title-only create is accepted iff the id is new and the title is non-empty, not a status label and not used by another task |

## Left out

- Express routing, the auth middleware, JWT and bcrypt: the acting user is a
  parameter of each request. User.js is not part of this model; the user list
  is a read-only part of the state.
- socket.io transport: emitting is appending to the event sequence. Each board
  is assumed to receive every event, in emission order. Ping intervals, the
  connection handshake, and the server's relay of client-sent `taskUpdate`
  messages (server/server.js:58-67) are left out. That relay would let any
  client inject events that no mutation produced.
- `populate`: events and responses carry the assignee's id rather than `{_id, username}`,
  and audit entries carry the task and user ids rather than the populated documents
  `getActionLogs` returns (server/controllers/actionController.js:7-8).
- Interleavings between `await`s, including the read-then-write race inside
  update and resolve: each handler is one atomic step.
- `Date.now`: times are natural numbers supplied by the caller (`now`).
- Mongoose casting beyond what the source states: a non-numeric body version is
  treated like a missing one; either never equals the stored number. Body keys
  other than the six task fields (`_id`, `createdAt`, ...) are ignored.
- TaskModel.Save: stores the schema default ('' description, Todo, Medium) for a
  null description, status or priority, and for one an update or overwrite leaves
  out. Mongoose applies a default only to an undefined value, and only when it builds
  a new document or reads one back. So a null is stored and read back as null, and the
  board then shows a null-status task in no column. A field an update writes as
  `undefined` is unset in the database and reads back as the default. No client in the
  repository sends null for these fields or leaves them out of an update.
  `TaskController.CreateTask`, `TaskController.UpdateTask` and
  `TaskController.ResolveConflict` inherit this.
- Failures other than a refused save (database errors, a missing `mergeData`,
  a log write failing after the task was saved) are left out. The last cannot
  arise: every entry the controllers write passes the schema (`ActionModel.RecordPassesSchema`).
- TaskController.SmartAssign: counts a task as Todo, adding to its assignee's load,
  when an update or overwrite left its status out or sent it as null. The source's
  `countDocuments` query (server/controllers/taskController.js:151-154) matches the
  stored field, which is then unset or null, so it does not count that task. The choice can then differ from the
  source's. No client in the repository sends an update without a status.
- ActionModel.NewEntry: treats a null timestamp like a missing one (stamped with
  the creation time), where the schema default applies only to a missing value and
  a null is stored as null. No controller passes a timestamp, so no stored entry is affected.
- TaskModel.Save: reports only the first violation found, where Mongoose may
  collect several. The controller answers 500 'Server error' either way.
- Replica.BoardFollowsRun: holds from the moment the board holds a full listing.
  The board subscribes to `taskUpdate` (client/src/components/KanbanBoard.jsx:19)
  while the initial fetch is still in flight, and `setTasks(response.data)` (:29)
  then replaces the list. Any event applied before that response arrives is dropped,
  and the same goes for events that race the refetch after a create. Whether the
  response reflects those events depends on timing the model does not represent.
- ActionController.GetActionLogs: promises no order among entries with equal timestamps;
  the source leaves that order to the database.
- TaskController.GetTasks: promises no order; `Task.find()` gives none.
- TaskController.Handle: states the entry and event counts, the actor and the time;
  the action kind of each entry and the event's shape are stated per handler.
- KanbanBoard.HandleTaskUpdate: for delete, the contract states membership and a length bound;
  order preservation is `KanbanBoard.DeleteKeepsOrder`.
- React rendering, drag and drop, `prompt`/`alert`, the refetch after a create,
  and date formatting. TaskCard.jsx builds the same merge body as `KanbanBoard.ConflictRequest`.
- The `move` action kind is in the enum but no controller writes it.
