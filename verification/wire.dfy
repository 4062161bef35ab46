/**
 What travels between the board and the server: the JSON task body a client
 sends, and the `taskUpdate` event the server broadcasts after every
 accepted mutation.
 */
module Wire {
  import opened Js
  import opened TaskModel

  /** A task body as sent in a request; any key may be missing or null. */
  datatype Body = Body(
    title: Field<string>,
    description: Field<string>,
    status: Field<string>,
    priority: Field<string>,
    assignedUser: Field<UserId>,
    version: Field<int>)

  /** A user as the server knows it: an id and a name. */
  datatype User = User(id: UserId, username: string)

  /** A `taskUpdate` payload: `{action: 'create', task}`, `{action: 'update', task}`,
      `{action: 'delete', taskId}`, or one carrying any other action. */
  datatype Event = Created(task: Task) | Updated(task: Task) | Removed(taskId: TaskId) | OtherAction

  /** A stored task as it appears in JSON: every key present, an unassigned user as null. */
  function TaskBody(t: Task): (b: Body)
    ensures b.title == Val(t.title) && b.description == Val(t.description)
    ensures b.status == Val(StatusLabel(t.status)) && b.priority == Val(PriorityLabel(t.priority))
    ensures b.assignedUser == FromOption(t.assignedUser) && b.version == Val(t.version)
  {
    Body(Val(t.title), Val(t.description), Val(StatusLabel(t.status)),
         Val(PriorityLabel(t.priority)), FromOption(t.assignedUser), Val(t.version))
  }
}
