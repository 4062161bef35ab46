/**
 The task controller (server/controllers/taskController.js). Each handler is
 one atomic step from a `State` (the task collection, the user list, the
 audit log and the events broadcast so far) to a response and a new state.
 An accepted mutation saves the task, appends one audit entry and emits one
 `taskUpdate` event; every error answer leaves the state as it was.
 */
module TaskController {
  import opened Js
  import opened TaskModel
  import opened ActionModel
  import opened Wire

  datatype State = State(tasks: Store, users: seq<User>, log: seq<LogEntry>, events: seq<Event>)

  datatype ApiError =
    | NotFound                                   // 404 'Task not found'
    | Conflict(current: Task, submitted: Body)   // 409 with currentTask and clientTask
    | NoUsers                                    // 400 'No users available for assignment'
    | ServerError(why: Violation)                // 500: the save was refused

  datatype Response = Ok(task: Task) | Gone | Failed(error: ApiError)

  datatype Outcome = Outcome(resp: Response, st: State)

  /** What an audit entry says happened; it fixes both the action kind and the details text. */
  datatype Note = WasCreated | WasUpdated | WasDeleted | WasResolved | WasAssigned(username: string)

  function KindOf(n: Note): ActionKind {
    match n
    case WasCreated => Create
    case WasUpdated => Update
    case WasDeleted => Delete
    case WasResolved => Update
    case WasAssigned(_) => Assign
  }

  function Details(n: Note, title: string): (s: string)
    ensures s != ""
  {
    match n
    case WasCreated => "Task \"" + title + "\" created"
    case WasUpdated => "Task \"" + title + "\" updated"
    case WasDeleted => "Task \"" + title + "\" deleted"
    case WasResolved => "Conflict resolved for task \"" + title + "\""
    case WasAssigned(name) => "Task \"" + title + "\" smart-assigned to " + name
  }

  /** `st'` is `st` plus exactly one audit entry about task `id` by `actor` at `now`,
      of the given kind and accepted by the entry schema, and exactly the event `ev`. */
  ghost predicate Recorded(st: State, st': State, id: TaskId, actor: User, kind: ActionKind, now: nat, ev: Event) {
    && st'.users == st.users
    && |st'.log| == |st.log| + 1
    && st'.log[..|st.log|] == st.log
    && st'.log[|st.log|].taskId == id
    && st'.log[|st.log|].userId == actor.id
    && st'.log[|st.log|].action == kind
    && st'.log[|st.log|].timestamp == now
    && WellFormed(st'.log[|st.log|])
    && st'.events == st.events + [ev]
  }

  /** An error answer that changed nothing. */
  predicate Refused(o: Outcome, st: State, e: ApiError) {
    o.resp == Failed(e) && o.st == st
  }

  /** The fields a body writes over a stored task in `updateTask` and in an overwrite
      resolution: every field from the body, a falsy assignee as null. */
  function Overwritten(cur: Task, b: Body): (d: Draft)
    ensures d.id == cur.id && d.version == cur.version && d.createdAt == cur.createdAt
    ensures d.title == b.title && d.description == b.description
    ensures d.status == b.status && d.priority == b.priority
    ensures d.assignedUser == (if b.assignedUser.Val? then Some(b.assignedUser.v) else None)
  {
    Draft(cur.id, b.title, b.description, RefOr(b.assignedUser, None),
          b.status, b.priority, cur.version, cur.createdAt)
  }

  /** A merge resolution: each field is the payload's when truthy, else the stored one. */
  function Merged(cur: Task, m: Body): (d: Draft)
    ensures d.id == cur.id && d.version == cur.version && d.createdAt == cur.createdAt
    ensures d.title == (if Truthy(m.title) then m.title else Val(cur.title))
    ensures d.description == (if Truthy(m.description) then m.description else Val(cur.description))
    ensures d.status == (if Truthy(m.status) then m.status else Val(StatusLabel(cur.status)))
    ensures d.priority == (if Truthy(m.priority) then m.priority else Val(PriorityLabel(cur.priority)))
    ensures d.assignedUser == (if m.assignedUser.Val? then Some(m.assignedUser.v) else cur.assignedUser)
  {
    var base := ToDraft(cur);
    Draft(cur.id, StrOr(m.title, base.title), StrOr(m.description, base.description),
          RefOr(m.assignedUser, cur.assignedUser), StrOr(m.status, base.status),
          StrOr(m.priority, base.priority), cur.version, cur.createdAt)
  }

  /** Saves an existing task and, if the save goes through, logs it and broadcasts an update. */
  function CommitUpdate(st: State, r: SaveResult, actor: User, note: Note, now: nat): (o: Outcome)
    ensures r.Rejected? ==> Refused(o, st, ServerError(r.why))
    ensures r.Saved? ==>
      && o.resp == Ok(r.task)
      && o.st.tasks == Put(st.tasks, r.task)
      && Recorded(st, o.st, r.task.id, actor, KindOf(note), now, Updated(r.task))
      && o.st.log[|st.log|].details == Details(note, r.task.title)
  {
    match r
    case Rejected(v) => Outcome(Failed(ServerError(v)), st)
    case Saved(t) =>
      var e := Record(t.id, actor.id, KindOf(note), Details(note, t.title), now);
      assert st.log + [e] == (st.log + [e])[..|st.log|] + [e];
      Outcome(Ok(t), State(Put(st.tasks, t), st.users, st.log + [e], st.events + [Updated(t)]))
  }

  /** `new Task({...req.body, assignedUser: req.body.assignedUser || null})`, created at `now`. */
  function NewDraft(id: TaskId, body: Body, now: nat): (d: Draft)
    ensures d.id == id && d.createdAt == now
    ensures d.title == body.title && d.description == body.description
    ensures d.status == body.status && d.priority == body.priority
  {
    Draft(id, body.title, body.description, RefOr(body.assignedUser, None),
          body.status, body.priority, if body.version.Val? then body.version.v else 0, now)
  }

  /** `createTask`: a new document from the body with a falsy assignee as null, saved once. */
  function CreateTask(st: State, id: TaskId, body: Body, actor: User, now: nat): (o: Outcome)
    ensures o.resp.Ok? || (o.resp.Failed? && o.resp.error.ServerError?)
    ensures o.resp.Failed? ==> o.st == st
    ensures o.resp.Ok? <==> Admissible(NewDraft(id, body, now), st.tasks, true)
    ensures o.resp.Ok? ==> id !in st.tasks
    ensures o.resp.Ok? ==>
      var t := o.resp.task;
      && t.id == id
      && body.title == Val(t.title) && ValidTitle(t.title)
      && StoredAs(body.description, t.description, "")
      && StatusStoredAs(body.status, t.status)
      && PriorityStoredAs(body.priority, t.priority)
      && t.assignedUser == (if body.assignedUser.Val? then Some(body.assignedUser.v) else None)
      && t.version == (if body.version.Val? then body.version.v else 0) + 1
      && t.createdAt == now && t.updatedAt == now
      && o.st.tasks == Put(st.tasks, t)
      && Recorded(st, o.st, id, actor, Create, now, Created(t))
      && o.st.log[|st.log|].details == Details(WasCreated, t.title)
    ensures Consistent(st.tasks) ==> Consistent(o.st.tasks)
  {
    match Save(NewDraft(id, body, now), st.tasks, true, now)
    case Rejected(v) => Outcome(Failed(ServerError(v)), st)
    case Saved(t) =>
      var e := Record(t.id, actor.id, Create, Details(WasCreated, t.title), now);
      assert st.log + [e] == (st.log + [e])[..|st.log|] + [e];
      Outcome(Ok(t), State(Put(st.tasks, t), st.users, st.log + [e], st.events + [Created(t)]))
  }

  /** `updateTask`: the optimistic version check, then the body written over the task. */
  function UpdateTask(st: State, id: TaskId, body: Body, actor: User, now: nat): (o: Outcome)
    ensures id !in st.tasks ==> Refused(o, st, NotFound)
    ensures id in st.tasks && body.version != Val(st.tasks[id].version) ==>
      Refused(o, st, Conflict(st.tasks[id], body))
    ensures o.resp.Ok? || o.resp.Failed?
    ensures o.resp.Failed? ==> o.st == st
    ensures o.resp.Ok? <==>
      id in st.tasks && body.version == Val(st.tasks[id].version)
      && Admissible(Overwritten(st.tasks[id], body), st.tasks, false)
    ensures o.resp.Ok? ==>
      var cur := st.tasks[id];
      var t := o.resp.task;
      && t.id == id
      && body.title == Val(t.title)
      && StoredAs(body.description, t.description, "")
      && StatusStoredAs(body.status, t.status)
      && PriorityStoredAs(body.priority, t.priority)
      && t.assignedUser == (if body.assignedUser.Val? then Some(body.assignedUser.v) else None)
      && t.version == cur.version + 2
      && t.createdAt == cur.createdAt && t.updatedAt == now
      && o.st.tasks == Put(st.tasks, t)
      && Recorded(st, o.st, id, actor, Update, now, Updated(t))
      && o.st.log[|st.log|].details == Details(WasUpdated, t.title)
    ensures Consistent(st.tasks) ==> Consistent(o.st.tasks)
  {
    if id !in st.tasks then Outcome(Failed(NotFound), st)
    else
      var cur := st.tasks[id];
      if body.version != Val(cur.version) then Outcome(Failed(Conflict(cur, body)), st)
      else
        var d := Overwritten(cur, body).(version := cur.version + 1);
        CommitUpdate(st, Save(d, st.tasks, false, now), actor, WasUpdated, now)
  }

  /** `deleteTask`: no version check; the entry keeps the deleted task's title. */
  function DeleteTask(st: State, id: TaskId, actor: User, now: nat): (o: Outcome)
    ensures id !in st.tasks ==> Refused(o, st, NotFound)
    ensures id in st.tasks ==>
      && o.resp == Gone
      && o.st.tasks.Keys == st.tasks.Keys - {id}
      && (forall k :: k in o.st.tasks ==> o.st.tasks[k] == st.tasks[k])
      && Recorded(st, o.st, id, actor, Delete, now, Removed(id))
      && o.st.log[|st.log|].details == Details(WasDeleted, st.tasks[id].title)
    ensures Consistent(st.tasks) ==> Consistent(o.st.tasks)
  {
    if id !in st.tasks then Outcome(Failed(NotFound), st)
    else
      var t := st.tasks[id];
      var e := Record(id, actor.id, Delete, Details(WasDeleted, t.title), now);
      assert st.log + [e] == (st.log + [e])[..|st.log|] + [e];
      RemoveKeepsConsistentIf(st.tasks, id);
      Outcome(Gone, State(st.tasks - {id}, st.users, st.log + [e], st.events + [Removed(id)]))
  }

  lemma RemoveKeepsConsistentIf(store: Store, id: TaskId)
    ensures Consistent(store) ==> Consistent(store - {id})
  {
    if Consistent(store) {
      RemoveKeepsConsistent(store, id);
    }
  }

  /** The draft a resolution saves: merge, overwrite, or (any other action) the task as stored. */
  function Resolved(cur: Task, action: string, m: Body): Draft {
    if action == "merge" then Merged(cur, m)
    else if action == "overwrite" then Overwritten(cur, m)
    else ToDraft(cur)
  }

  /** `resolveConflict`: applies the chosen policy to whatever is stored now, with no version check. */
  function ResolveConflict(st: State, id: TaskId, action: string, m: Body, actor: User, now: nat): (o: Outcome)
    ensures id !in st.tasks ==> Refused(o, st, NotFound)
    ensures o.resp.Ok? || o.resp.Failed?
    ensures o.resp.Failed? ==> o.st == st
    ensures o.resp.Ok? <==> id in st.tasks && Admissible(Resolved(st.tasks[id], action, m), st.tasks, false)
    ensures o.resp.Ok? ==>
      var cur := st.tasks[id];
      var t := o.resp.task;
      && t.id == id
      && t.version == cur.version + 2
      && t.createdAt == cur.createdAt && t.updatedAt == now
      && o.st.tasks == Put(st.tasks, t)
      && Recorded(st, o.st, id, actor, Update, now, Updated(t))
      && o.st.log[|st.log|].details == Details(WasResolved, t.title)
    ensures o.resp.Ok? && action == "merge" ==>
      var cur := st.tasks[id];
      var t := o.resp.task;
      && t.title == (if Truthy(m.title) then m.title.v else cur.title)
      && t.description == (if Truthy(m.description) then m.description.v else cur.description)
      && (if Truthy(m.status) then m.status.v == StatusLabel(t.status) else t.status == cur.status)
      && (if Truthy(m.priority) then m.priority.v == PriorityLabel(t.priority) else t.priority == cur.priority)
      && t.assignedUser == (if m.assignedUser.Val? then Some(m.assignedUser.v) else cur.assignedUser)
    ensures o.resp.Ok? && action == "overwrite" ==>
      var t := o.resp.task;
      && m.title == Val(t.title)
      && StoredAs(m.description, t.description, "")
      && StatusStoredAs(m.status, t.status)
      && PriorityStoredAs(m.priority, t.priority)
      && t.assignedUser == (if m.assignedUser.Val? then Some(m.assignedUser.v) else None)
    ensures o.resp.Ok? && action != "merge" && action != "overwrite" ==>
      o.resp.task == st.tasks[id].(version := st.tasks[id].version + 2, updatedAt := now)
    ensures Consistent(st.tasks) ==> Consistent(o.st.tasks)
  {
    if id !in st.tasks then Outcome(Failed(NotFound), st)
    else
      var cur := st.tasks[id];
      var d := Resolved(cur, action, m).(version := cur.version + 1);
      LabelsInjective();
      CommitUpdate(st, Save(d, st.tasks, false, now), actor, WasResolved, now)
  }

  /** A merge whose every field is truthy does exactly what an overwrite with the same payload does. */
  lemma MergeOfFullPayloadIsOverwrite(st: State, id: TaskId, m: Body, actor: User, now: nat)
    requires Truthy(m.title) && Truthy(m.description) && Truthy(m.status) && Truthy(m.priority)
    requires m.assignedUser.Val?
    ensures ResolveConflict(st, id, "merge", m, actor, now) == ResolveConflict(st, id, "overwrite", m, actor, now)
  {
    if id in st.tasks {
      var cur := st.tasks[id];
      assert Merged(cur, m) == Overwritten(cur, m);
    }
  }

  /** A merge of an empty payload does what an unknown action does: it keeps every field. */
  lemma MergeOfEmptyPayloadKeepsTask(st: State, id: TaskId, other: string, m: Body, actor: User, now: nat)
    requires other != "merge" && other != "overwrite"
    ensures ResolveConflict(st, id, "merge", Body(Absent, Absent, Absent, Absent, Absent, Absent), actor, now)
         == ResolveConflict(st, id, other, m, actor, now)
  {
    if id in st.tasks {
      var cur := st.tasks[id];
      assert Merged(cur, Body(Absent, Absent, Absent, Absent, Absent, Absent)) == ToDraft(cur);
    }
  }

  /** An overwrite with the stored task's own fields does what an unknown action does: it keeps every field. */
  lemma OverwriteWithOwnFieldsKeepsTask(st: State, id: TaskId, other: string, m: Body, actor: User, now: nat)
    requires id in st.tasks
    requires other != "merge" && other != "overwrite"
    ensures ResolveConflict(st, id, "overwrite", TaskBody(st.tasks[id]), actor, now)
         == ResolveConflict(st, id, other, m, actor, now)
  {
    var cur := st.tasks[id];
    assert Overwritten(cur, TaskBody(cur)) == ToDraft(cur);
  }

  lemma LabelsInjective()
    ensures forall a: Status, b: Status :: StatusLabel(a) == StatusLabel(b) ==> a == b
    ensures forall a: Priority, b: Priority :: PriorityLabel(a) == PriorityLabel(b) ==> a == b
  {
  }

  /** A task counts against its assignee while it is in Todo or In Progress. */
  predicate Active(s: Status) {
    s == Todo || s == InProgress
  }

  /** `Task.countDocuments({assignedUser: u, status: {$in: ['Todo', 'In Progress']}})`. */
  function Load(store: Store, u: UserId): nat {
    |set k | k in store && store[k].assignedUser == Some(u) && Active(store[k].status)|
  }

  /** The load of each user, in the order `User.find` returns them. */
  function Loads(store: Store, users: seq<User>): (ls: seq<nat>)
    ensures |ls| == |users|
    ensures forall i :: 0 <= i < |users| ==> ls[i] == Load(store, users[i].id)
  {
    seq(|users|, i requires 0 <= i < |users| => Load(store, users[i].id))
  }

  /** The position a left-to-right scan with a strict `<` keeps: a least value, the first of them. */
  function LeastLoaded(ls: seq<nat>): (k: nat)
    requires |ls| > 0
    ensures k < |ls|
    ensures forall j :: 0 <= j < |ls| ==> ls[k] <= ls[j]
    ensures forall j :: 0 <= j < k ==> ls[k] < ls[j]
  {
    if |ls| == 1 then 0
    else
      var k := LeastLoaded(ls[..|ls| - 1]);
      if ls[|ls| - 1] < ls[k] then |ls| - 1 else k
  }

  /** User `users[k]` is the fair choice: no one carries less, and everyone before it carries more. */
  ghost predicate FairChoice(store: Store, users: seq<User>, k: int) {
    && 0 <= k < |users|
    && (forall j :: 0 <= j < |users| ==> Load(store, users[k].id) <= Load(store, users[j].id))
    && (forall j :: 0 <= j < k ==> Load(store, users[k].id) < Load(store, users[j].id))
  }

  /** The tie-break is deterministic: at most one position is the fair choice. */
  lemma FairChoiceUnique(store: Store, users: seq<User>, k1: int, k2: int)
    requires FairChoice(store, users, k1) && FairChoice(store, users, k2)
    ensures k1 == k2
  {
    var l1, l2 := Load(store, users[k1].id), Load(store, users[k2].id);
    assert l1 <= l2 && l2 <= l1;
    assert k1 < k2 ==> l2 < l1;
    assert k2 < k1 ==> l1 < l2;
  }

  /**
   The selection loop of `smartAssign`, as written: `minTasks` starts at
   Infinity (None here) and a user replaces the current choice only with a
   strictly smaller count. It returns the chosen position, or None for an
   empty list (so 'No suitable user found' only follows an empty list).
   */
  method SelectAssignee(store: Store, users: seq<User>) returns (selected: Option<nat>)
    ensures selected.None? <==> |users| == 0
    ensures selected.Some? ==> FairChoice(store, users, selected.value)
    ensures selected.Some? ==> selected.value == LeastLoaded(Loads(store, users))
  {
    var minTasks: Option<nat> := None;
    selected := None;
    ghost var ls := Loads(store, users);
    var i := 0;
    while i < |users|
      invariant 0 <= i <= |users|
      invariant i == 0 <==> selected.None?
      invariant minTasks.None? <==> selected.None?
      invariant selected.Some? ==>
        selected.value == LeastLoaded(ls[..i]) && minTasks == Some(ls[selected.value])
    {
      var taskCount := Load(store, users[i].id);
      assert ls[..i + 1][..i] == ls[..i];
      if minTasks.None? || taskCount < minTasks.value {
        minTasks := Some(taskCount);
        selected := Some(i);
      }
      i := i + 1;
    }
    assert ls[..|users|] == ls;
  }

  /** Re-saving a stored task with only its assignee and version replaced changes nothing else. */
  lemma ResaveKeepsFields(store: Store, cur: Task, a: Option<UserId>, now: nat)
    requires Save(ToDraft(cur).(assignedUser := a, version := cur.version + 1), store, false, now).Saved?
    ensures Save(ToDraft(cur).(assignedUser := a, version := cur.version + 1), store, false, now).task
            == cur.(assignedUser := a, version := cur.version + 2, updatedAt := now)
  {
    var t := Save(ToDraft(cur).(assignedUser := a, version := cur.version + 1), store, false, now).task;
    LabelsInjective();
    assert t.status == cur.status;
    assert t.priority == cur.priority;
  }

  /** Changing only the assignee of a task of a consistent store passes every check of the save. */
  lemma ReassignAdmissible(store: Store, cur: Task, u: UserId)
    requires cur.id in store && store[cur.id] == cur
    ensures Consistent(store) ==>
      Admissible(ToDraft(cur).(assignedUser := Some(u), version := cur.version + 1), store, false)
  {
    if Consistent(store) {
      StoredTaskAdmissible(store, cur);
    }
  }

  /** `smartAssign`: the fair choice among all users, written over the task's assignee. */
  function SmartAssign(st: State, id: TaskId, actor: User, now: nat): (o: Outcome)
    ensures id !in st.tasks ==> Refused(o, st, NotFound)
    ensures id in st.tasks && |st.users| == 0 ==> Refused(o, st, NoUsers)
    ensures o.resp.Ok? || o.resp.Failed?
    ensures o.resp.Failed? ==> o.st == st
    ensures Consistent(st.tasks) && id in st.tasks && |st.users| > 0 ==> o.resp.Ok?
    ensures o.resp.Ok? ==>
      && id in st.tasks
      && Recorded(st, o.st, id, actor, Assign, now, Updated(o.resp.task))
      && (exists k :: FairChoice(st.tasks, st.users, k)
            && o.resp.task == st.tasks[id].(assignedUser := Some(st.users[k].id),
                                             version := st.tasks[id].version + 2,
                                             updatedAt := now)
            && o.st.log[|st.log|].details == Details(WasAssigned(st.users[k].username), st.tasks[id].title))
      && o.st.tasks == Put(st.tasks, o.resp.task)
    ensures Consistent(st.tasks) ==> Consistent(o.st.tasks)
  {
    if id !in st.tasks then Outcome(Failed(NotFound), st)
    else if |st.users| == 0 then Outcome(Failed(NoUsers), st)
    else
      var cur := st.tasks[id];
      var k := LeastLoaded(Loads(st.tasks, st.users));
      var u := st.users[k];
      assert FairChoice(st.tasks, st.users, k);
      var d := ToDraft(cur).(assignedUser := Some(u.id), version := cur.version + 1);
      ReassignAdmissible(st.tasks, cur, u.id);
      var r := Save(d, st.tasks, false, now);
      if r.Saved? then
        ResaveKeepsFields(st.tasks, cur, Some(u.id), now);
        CommitUpdate(st, r, actor, WasAssigned(u.username), now)
      else
        CommitUpdate(st, r, actor, WasAssigned(u.username), now)
  }

  /** `getTasks`: every stored task exactly once, in no particular order. */
  method GetTasks(st: State) returns (list: seq<Task>)
    ensures Enumerates(list, st.tasks)
  {
    list := [];
    var rest := st.tasks.Keys;
    while rest != {}
      invariant rest <= st.tasks.Keys
      invariant forall i :: 0 <= i < |list| ==>
        list[i].id in st.tasks && st.tasks[list[i].id] == list[i] && list[i].id !in rest
      invariant forall i, j :: 0 <= i < |list| && 0 <= j < |list| && list[i].id == list[j].id ==> i == j
      invariant forall k :: k in st.tasks && k !in rest ==> exists i :: 0 <= i < |list| && list[i].id == k
      decreases rest
    {
      var k :| k in rest;
      ghost var before := list;
      list := list + [st.tasks[k]];
      rest := rest - {k};
      forall k' | k' in st.tasks && k' !in rest
        ensures exists i :: 0 <= i < |list| && list[i].id == k'
      {
        if k' == k {
          assert list[|before|].id == k';
        } else {
          var i :| 0 <= i < |before| && before[i].id == k';
          assert list[i].id == k';
        }
      }
    }
  }

  datatype Op =
    | CreateOp(id: TaskId, body: Body)
    | UpdateOp(id: TaskId, body: Body)
    | DeleteOp(id: TaskId)
    | ResolveOp(id: TaskId, action: string, mergeData: Body)
    | AssignOp(id: TaskId)

  /** A request: who sends it, when it arrives, and which handler it reaches. */
  datatype Request = Request(actor: User, now: nat, op: Op)

  /** The router: one request, one handler. */
  function Handle(st: State, req: Request): (o: Outcome)
    ensures o.resp.Failed? ==> o.st == st
    ensures !o.resp.Failed? ==>
      && o.st.users == st.users
      && |o.st.log| == |st.log| + 1 && o.st.log[..|st.log|] == st.log
      && WellFormed(o.st.log[|st.log|])
      && o.st.log[|st.log|].userId == req.actor.id
      && o.st.log[|st.log|].timestamp == req.now
      && |o.st.events| == |st.events| + 1 && o.st.events[..|st.events|] == st.events
    ensures Consistent(st.tasks) ==> Consistent(o.st.tasks)
  {
    match req.op
    case CreateOp(id, body) => CreateTask(st, id, body, req.actor, req.now)
    case UpdateOp(id, body) => UpdateTask(st, id, body, req.actor, req.now)
    case DeleteOp(id) => DeleteTask(st, id, req.actor, req.now)
    case ResolveOp(id, action, m) => ResolveConflict(st, id, action, m, req.actor, req.now)
    case AssignOp(id) => SmartAssign(st, id, req.actor, req.now)
  }
}
