/**
 The Task document (server/models/Task.js): its fields, the status and
 priority enums, the title validator, the field defaults, the unique title
 index, and the pre-save hook that bumps `version` on every save.

 A controller builds a `Draft` (the document with the request's raw
 values written into it) and calls `Save`, which validates, casts, applies
 defaults and runs the hook, or rejects the draft with the first violation.
 */
module TaskModel {
  import opened Js

  type TaskId = nat
  type UserId = nat

  datatype Status = Todo | InProgress | Done
  datatype Priority = Low | Medium | High

  /** The strings the schema accepts for each status. */
  function StatusLabel(s: Status): string {
    match s
    case Todo => "Todo"
    case InProgress => "In Progress"
    case Done => "Done"
  }

  function PriorityLabel(p: Priority): string {
    match p
    case Low => "Low"
    case Medium => "Medium"
    case High => "High"
  }

  /** The status enum validator: a string is accepted iff it is one of the labels. */
  function ParseStatus(x: string): (r: Option<Status>)
    ensures r.Some? ==> StatusLabel(r.value) == x
    ensures r.None? ==> forall s: Status :: StatusLabel(s) != x
  {
    if x == "Todo" then Some(Todo)
    else if x == "In Progress" then Some(InProgress)
    else if x == "Done" then Some(Done)
    else None
  }

  function ParsePriority(x: string): (r: Option<Priority>)
    ensures r.Some? ==> PriorityLabel(r.value) == x
    ensures r.None? ==> forall p: Priority :: PriorityLabel(p) != x
  {
    if x == "Low" then Some(Low)
    else if x == "Medium" then Some(Medium)
    else if x == "High" then Some(High)
    else None
  }

  lemma StatusLabelRoundTrip(s: Status)
    ensures ParseStatus(StatusLabel(s)) == Some(s)
  {
  }

  lemma PriorityLabelRoundTrip(p: Priority)
    ensures ParsePriority(PriorityLabel(p)) == Some(p)
  {
  }

  /** A stored task. `assignedUser` is a user id or null. */
  datatype Task = Task(
    id: TaskId,
    title: string,
    description: string,
    assignedUser: Option<UserId>,
    status: Status,
    priority: Priority,
    version: int,
    createdAt: nat,
    updatedAt: nat)

  /** The collection: every task is filed under its own id. */
  type Store = m: map<TaskId, Task> | forall k :: k in m ==> m[k].id == k
    witness map[]

  /** The title validator: a title may not read like a column of the board. */
  predicate TitleAllowed(title: string) {
    title !in ["Todo", "In Progress", "Done"]
  }

  /** The validator rejects exactly the three status labels. */
  lemma TitleValidatorRejectsLabels(title: string)
    ensures TitleAllowed(title) <==> forall s: Status :: StatusLabel(s) != title
  {
    if !TitleAllowed(title) {
      assert title == StatusLabel(Todo) || title == StatusLabel(InProgress) || title == StatusLabel(Done);
    }
  }

  /** A task whose title passes `required` (a non-empty string) and the validator. */
  predicate ValidTitle(title: string) {
    title != "" && TitleAllowed(title)
  }

  /** Some task other than `self` already holds `title`. */
  predicate TitleTaken(store: Store, title: string, self: TaskId) {
    exists k :: k in store && k != self && store[k].title == title
  }

  /** The invariant every save keeps: valid titles, unique across the collection. */
  ghost predicate Consistent(store: Store) {
    && (forall k :: k in store ==> ValidTitle(store[k].title))
    && (forall a, b :: a in store && b in store && store[a].title == store[b].title ==> a == b)
  }

  /** `list` lists the collection: each stored task exactly once, as stored. */
  ghost predicate Enumerates(list: seq<Task>, store: Store) {
    && (forall i, j :: 0 <= i < |list| && 0 <= j < |list| && list[i].id == list[j].id ==> i == j)
    && (forall i :: 0 <= i < |list| ==> list[i].id in store && store[list[i].id] == list[i])
    && (forall k :: k in store ==> exists i :: 0 <= i < |list| && list[i].id == k)
  }

  /** A document about to be saved: the raw values the controller wrote into it. */
  datatype Draft = Draft(
    id: TaskId,
    title: Field<string>,
    description: Field<string>,
    assignedUser: Option<UserId>,
    status: Field<string>,
    priority: Field<string>,
    version: int,
    createdAt: nat)

  /** The document a stored task is loaded as. */
  function ToDraft(t: Task): (d: Draft)
    ensures d.id == t.id && d.version == t.version && d.createdAt == t.createdAt
    ensures d.title == Val(t.title) && d.description == Val(t.description)
    ensures d.status == Val(StatusLabel(t.status)) && d.priority == Val(PriorityLabel(t.priority))
    ensures d.assignedUser == t.assignedUser
  {
    Draft(t.id, Val(t.title), Val(t.description), t.assignedUser,
          Val(StatusLabel(t.status)), Val(PriorityLabel(t.priority)), t.version, t.createdAt)
  }

  /** Casting with defaults: a missing description is '', a missing status is Todo, a missing priority is Medium. */
  function CastDescription(f: Field<string>): string {
    if f.Val? then f.v else ""
  }

  function CastStatus(f: Field<string>): Option<Status> {
    if f.Val? then ParseStatus(f.v) else Some(Todo)
  }

  function CastPriority(f: Field<string>): Option<Priority> {
    if f.Val? then ParsePriority(f.v) else Some(Medium)
  }

  /** `v` is what the schema stores for field `f` whose default is `dflt`. */
  predicate StoredAs<T(==)>(f: Field<T>, v: T, dflt: T) {
    if f.Val? then v == f.v else v == dflt
  }

  predicate StatusStoredAs(f: Field<string>, s: Status) {
    if f.Val? then f.v == StatusLabel(s) else s == Todo
  }

  predicate PriorityStoredAs(f: Field<string>, p: Priority) {
    if f.Val? then f.v == PriorityLabel(p) else p == Medium
  }

  datatype Violation =
    | TitleRequired       // `required: true` on title
    | TitleIsStatusLabel  // the custom title validator
    | BadStatus           // status enum
    | BadPriority         // priority enum
    | DuplicateId         // an insert reusing an existing _id
    | DuplicateTitle      // the unique index on title

  datatype SaveResult = Saved(task: Task) | Rejected(why: Violation)

  /** Everything the schema and the unique indexes demand of a draft. */
  ghost predicate Admissible(d: Draft, store: Store, isNew: bool) {
    && d.title.Val? && ValidTitle(d.title.v)
    && (d.status.Val? ==> exists s: Status :: StatusLabel(s) == d.status.v)
    && (d.priority.Val? ==> exists p: Priority :: PriorityLabel(p) == d.priority.v)
    && !(isNew && d.id in store)
    && forall k :: k in store && k != d.id ==> store[k].title != d.title.v
  }

  /**
   `document.save()`: validation, the unique indexes, then the pre-save hook
   (`updatedAt = now`, `version += 1`). `isNew` tells an insert from an update.
   */
  function Save(d: Draft, store: Store, isNew: bool, now: nat): (r: SaveResult)
    ensures r.Saved? <==> Admissible(d, store, isNew)
    ensures r.Saved? ==>
      && r.task.id == d.id
      && d.title == Val(r.task.title)
      && StoredAs(d.description, r.task.description, "")
      && StatusStoredAs(d.status, r.task.status)
      && PriorityStoredAs(d.priority, r.task.priority)
      && r.task.assignedUser == d.assignedUser
      && r.task.version == d.version + 1
      && r.task.createdAt == d.createdAt
      && r.task.updatedAt == now
    ensures r.Saved? && Consistent(store) ==> Consistent(Put(store, r.task))
  {
    if !d.title.Val? || d.title.v == "" then Rejected(TitleRequired)
    else if !TitleAllowed(d.title.v) then Rejected(TitleIsStatusLabel)
    else if CastStatus(d.status).None? then Rejected(BadStatus)
    else if CastPriority(d.priority).None? then Rejected(BadPriority)
    else if isNew && d.id in store then Rejected(DuplicateId)
    else if TitleTaken(store, d.title.v, d.id) then Rejected(DuplicateTitle)
    else
      var t := Task(d.id, d.title.v, CastDescription(d.description), d.assignedUser,
                    CastStatus(d.status).value, CastPriority(d.priority).value,
                    d.version + 1, d.createdAt, now);
      PutKeepsConsistent(store, t);
      Saved(t)
  }

  /** Writes a task under its id. */
  function Put(store: Store, t: Task): (s: Store)
    ensures s.Keys == store.Keys + {t.id}
    ensures s[t.id] == t
    ensures forall k :: k in store && k != t.id ==> s[k] == store[k]
  {
    store[t.id := t]
  }

  lemma PutKeepsConsistent(store: Store, t: Task)
    requires ValidTitle(t.title)
    requires forall k :: k in store && k != t.id ==> store[k].title != t.title
    ensures Consistent(store) ==> Consistent(Put(store, t))
  {
  }

  /** Removing a task never breaks the invariant. */
  lemma RemoveKeepsConsistent(store: Store, id: TaskId)
    requires Consistent(store)
    ensures Consistent(store - {id})
  {
  }

  /** A task already in a consistent store re-saves: its own title does not collide with itself. */
  lemma StoredTaskAdmissible(store: Store, t: Task)
    requires Consistent(store) && t.id in store && store[t.id].title == t.title
    ensures Admissible(ToDraft(t), store, false)
  {
  }
}
