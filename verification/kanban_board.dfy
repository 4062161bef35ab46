/**
 The board's client-side logic (client/src/components/KanbanBoard.jsx): the
 reducer that applies broadcast `taskUpdate` events to the local task list,
 the body `moveTask` sends, the body `handleConflict` sends to resolve a
 conflict, and the status filter of each column.
 */
module KanbanBoard {
  import opened Js
  import opened TaskModel
  import opened Wire
  import opened Seqs

  /** `prev.map(task => task._id === t._id ? t : task)` */
  function ReplaceById(list: seq<Task>, t: Task): (r: seq<Task>)
    ensures |r| == |list|
    ensures forall i :: 0 <= i < |list| ==> r[i] == (if list[i].id == t.id then t else list[i])
  {
    seq(|list|, i requires 0 <= i < |list| => if list[i].id == t.id then t else list[i])
  }

  /** `prev.filter(task => task._id !== id)` */
  function WithoutId(list: seq<Task>, id: TaskId): (r: seq<Task>)
    ensures forall i :: 0 <= i < |r| ==> r[i] in list && r[i].id != id
    ensures forall i :: 0 <= i < |list| && list[i].id != id ==> list[i] in r
  {
    Filter(list, OtherId(id))
  }

  function OtherId(id: TaskId): Task -> bool {
    (t: Task) => t.id != id
  }

  /** `handleTaskUpdate`: applies one broadcast event to the local list. */
  function HandleTaskUpdate(list: seq<Task>, e: Event): (r: seq<Task>)
    ensures e.Created? ==> |r| == |list| + 1 && r[..|list|] == list && r[|list|] == e.task
    ensures e.Updated? ==>
      && |r| == |list|
      && forall i :: 0 <= i < |list| ==> r[i] == (if list[i].id == e.task.id then e.task else list[i])
    ensures e.Removed? ==>
      && |r| <= |list|
      && (forall i :: 0 <= i < |r| ==> r[i] in list && r[i].id != e.taskId)
      && (forall i :: 0 <= i < |list| && list[i].id != e.taskId ==> list[i] in r)
    ensures e.OtherAction? ==> r == list
  {
    match e
    case Created(t) => list + [t]
    case Updated(t) => ReplaceById(list, t)
    case Removed(id) => WithoutId(list, id)
    case OtherAction => list
  }

  /** An update for a task the list does not hold leaves the list as it was. */
  lemma UpdateOfUnknownIdIsIdentity(list: seq<Task>, t: Task)
    requires forall i :: 0 <= i < |list| ==> list[i].id != t.id
    ensures HandleTaskUpdate(list, Updated(t)) == list
  {
  }

  /** A delete works piecewise: it removes matching tasks and keeps the others in their order. */
  lemma DeleteKeepsOrder(a: seq<Task>, b: seq<Task>, id: TaskId)
    ensures HandleTaskUpdate(a + b, Removed(id))
         == HandleTaskUpdate(a, Removed(id)) + HandleTaskUpdate(b, Removed(id))
  {
    FilterAppend(a, b, OtherId(id));
  }

  /** A delete removes one task when it matches and nothing otherwise. */
  lemma DeleteSingle(t: Task, id: TaskId)
    ensures HandleTaskUpdate([t], Removed(id)) == if t.id == id then [] else [t]
  {
    assert [t][1..] == [];
  }

  /** A delete of an id the list does not hold leaves the list as it was. */
  lemma DeleteOfUnknownIdIsIdentity(list: seq<Task>, id: TaskId)
    requires forall i :: 0 <= i < |list| ==> list[i].id != id
    ensures HandleTaskUpdate(list, Removed(id)) == list
  {
    FilterKeepsAll(list, OtherId(id));
  }

  /** The list a sequence of events leaves behind, applied in broadcast order. */
  function ApplyAll(list: seq<Task>, events: seq<Event>): seq<Task>
    decreases |events|
  {
    if |events| == 0 then list
    else ApplyAll(HandleTaskUpdate(list, events[0]), events[1..])
  }

  /** `Column`: `tasks.filter(task => task.status === status)` */
  function Column(list: seq<Task>, s: Status): (r: seq<Task>)
    ensures forall i :: 0 <= i < |r| ==> r[i] in list && r[i].status == s
    ensures forall i :: 0 <= i < |list| && list[i].status == s ==> list[i] in r
  {
    Filter(list, HasStatus(s))
  }

  function HasStatus(s: Status): Task -> bool {
    (t: Task) => t.status == s
  }

  /** A column shows its tasks in list order: the column of a concatenation is the concatenation of columns. */
  lemma ColumnKeepsOrder(a: seq<Task>, b: seq<Task>, s: Status)
    ensures Column(a + b, s) == Column(a, s) + Column(b, s)
  {
    FilterAppend(a, b, HasStatus(s));
  }

  /** Every task is shown in exactly one column: the column sizes add up to the list's. */
  lemma ColumnsPartition(list: seq<Task>)
    ensures |Column(list, Todo)| + |Column(list, InProgress)| + |Column(list, Done)| == |list|
  {
    var notTodo := (t: Task) => t.status != Todo;
    FilterSplit(list, HasStatus(Todo), notTodo);
    var rest := Filter(list, notTodo);
    FilterSplit(rest, HasStatus(InProgress), HasStatus(Done));
    FilterOfFilter(list, notTodo, InProgress);
    FilterOfFilter(list, notTodo, Done);
  }

  /** Within the non-Todo tasks, the In Progress (or Done) ones are those of the whole list. */
  lemma {:induction false} FilterOfFilter(list: seq<Task>, notTodo: Task -> bool, s: Status)
    requires forall t: Task :: notTodo(t) == (t.status != Todo)
    requires s != Todo
    ensures Filter(Filter(list, notTodo), HasStatus(s)) == Column(list, s)
  {
    if |list| > 0 {
      var head := if notTodo(list[0]) then [list[0]] else [];
      var inner := Filter(list[1..], notTodo);
      assert Filter(list, notTodo) == head + inner;
      FilterAppend(head, inner, HasStatus(s));
      FilterOfFilter(list[1..], notTodo, s);
      if notTodo(list[0]) {
        assert head[1..] == [];
      }
    }
  }

  /** `tasks.find(t => t._id === id)`: the first position holding the id. */
  function FindById(list: seq<Task>, id: TaskId): (r: Option<nat>)
    ensures r.Some? ==> r.value < |list| && list[r.value].id == id
    ensures r.Some? ==> forall j :: 0 <= j < r.value ==> list[j].id != id
    ensures r.None? ==> forall j :: 0 <= j < |list| ==> list[j].id != id
  {
    if |list| == 0 then None
    else if list[0].id == id then Some(0)
    else match FindById(list[1..], id)
      case None => None
      case Some(k) => Some(k + 1)
  }

  /**
   `moveTask`: `{...task, status: newStatus, version: task.version}` for the
   task with that id; None when the list has no such task (the source then
   fails reading `task.version` and alerts).
   */
  function MovePayload(list: seq<Task>, id: TaskId, s: Status): (r: Option<Body>)
    ensures r.None? <==> forall j :: 0 <= j < |list| ==> list[j].id != id
    ensures r.Some? ==> exists j :: (0 <= j < |list| && list[j].id == id
      && (forall i :: 0 <= i < j ==> list[i].id != id)
      && r.value == TaskBody(list[j]).(status := Val(StatusLabel(s)))
      && r.value.version == Val(list[j].version))
  {
    match FindById(list, id)
    case None => None
    case Some(k) => Some(TaskBody(list[k]).(status := Val(StatusLabel(s))))
  }

  /** `{...under, ...over}` on two task bodies. */
  function SpreadBody(under: Body, over: Body): (r: Body)
    ensures r.title == Spread(under.title, over.title)
    ensures r.description == Spread(under.description, over.description)
    ensures r.status == Spread(under.status, over.status)
    ensures r.priority == Spread(under.priority, over.priority)
    ensures r.assignedUser == Spread(under.assignedUser, over.assignedUser)
    ensures r.version == Spread(under.version, over.version)
  {
    Body(Spread(under.title, over.title), Spread(under.description, over.description),
         Spread(under.status, over.status), Spread(under.priority, over.priority),
         Spread(under.assignedUser, over.assignedUser), Spread(under.version, over.version))
  }

  /** The body of `POST /tasks/:id/resolve`. */
  datatype ResolveBody = ResolveBody(action: string, mergeData: Body)

  /**
   `handleConflict`: a falsy prompt answer sends nothing; otherwise the answer
   is sent as the action, with the stored task overlaid by the client's body
   for "merge" and the client's body alone for anything else.
   */
  function ConflictRequest(choice: Field<string>, current: Task, client: Body): (r: Option<ResolveBody>)
    ensures r.None? <==> !Truthy(choice)
    ensures r.Some? ==> r.value.action == choice.v
    ensures r.Some? && choice.v == "merge" ==>
      && (client.title.Absent? ==> r.value.mergeData.title == Val(current.title))
      && (client.description.Absent? ==> r.value.mergeData.description == Val(current.description))
      && (client.status.Absent? ==> r.value.mergeData.status == Val(StatusLabel(current.status)))
      && (client.priority.Absent? ==> r.value.mergeData.priority == Val(PriorityLabel(current.priority)))
      && (client.assignedUser.Absent? ==> r.value.mergeData.assignedUser == FromOption(current.assignedUser))
      && (client.version.Absent? ==> r.value.mergeData.version == Val(current.version))
      && (!client.title.Absent? ==> r.value.mergeData.title == client.title)
      && (!client.description.Absent? ==> r.value.mergeData.description == client.description)
      && (!client.status.Absent? ==> r.value.mergeData.status == client.status)
      && (!client.priority.Absent? ==> r.value.mergeData.priority == client.priority)
      && (!client.assignedUser.Absent? ==> r.value.mergeData.assignedUser == client.assignedUser)
      && (!client.version.Absent? ==> r.value.mergeData.version == client.version)
    ensures r.Some? && choice.v != "merge" ==> r.value.mergeData == client
  {
    if !Truthy(choice) then None
    else if choice.v == "merge" then Some(ResolveBody(choice.v, SpreadBody(TaskBody(current), client)))
    else Some(ResolveBody(choice.v, client))
  }
}
