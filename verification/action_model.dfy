/**
 The audit-log entry (server/models/Action.js): the action-kind enum, the
 required fields, and the timestamp that defaults to the creation time.
 */
module ActionModel {
  import opened Js
  import opened TaskModel

  datatype ActionKind = Create | Update | Delete | Assign | Move

  function KindName(k: ActionKind): string {
    match k
    case Create => "create"
    case Update => "update"
    case Delete => "delete"
    case Assign => "assign"
    case Move => "move"
  }

  /** The `action` enum validator. */
  function ParseKind(x: string): (r: Option<ActionKind>)
    ensures r.Some? ==> KindName(r.value) == x
    ensures r.None? ==> forall k: ActionKind :: KindName(k) != x
  {
    if x == "create" then Some(Create)
    else if x == "update" then Some(Update)
    else if x == "delete" then Some(Delete)
    else if x == "assign" then Some(Assign)
    else if x == "move" then Some(Move)
    else None
  }

  datatype LogEntry = LogEntry(
    taskId: TaskId,
    userId: UserId,
    action: ActionKind,
    details: string,
    timestamp: nat)

  /**
   `ActionLog.create(fields)` at time `now`: taskId, userId, action and details
   are required (a required string must be non-empty), action must be one of
   the kinds, and a missing timestamp becomes `now`. None is a validation error.
   */
  function NewEntry(taskId: Field<TaskId>, userId: Field<UserId>, action: Field<string>,
                    details: Field<string>, timestamp: Field<nat>, now: nat): (r: Option<LogEntry>)
    ensures r.Some? <==>
      && taskId.Val? && userId.Val?
      && action.Val? && (exists k: ActionKind :: KindName(k) == action.v)
      && Truthy(details)
    ensures r.Some? ==>
      && r.value.taskId == taskId.v
      && r.value.userId == userId.v
      && KindName(r.value.action) == action.v
      && r.value.details == details.v
      && r.value.timestamp == (if timestamp.Val? then timestamp.v else now)
  {
    if !taskId.Val? || !userId.Val? || !action.Val? || !Truthy(details) then None
    else match ParseKind(action.v)
      case None => None
      case Some(k) =>
        Some(LogEntry(taskId.v, userId.v, k, details.v,
                      if timestamp.Val? then timestamp.v else now))
  }

  /** An entry that `ActionLog.create` would accept as it stands. */
  predicate WellFormed(e: LogEntry) {
    e.details != ""
  }

  /** The entry the controllers write: every field given except the timestamp. */
  function Record(taskId: TaskId, actor: UserId, kind: ActionKind, details: string, now: nat): LogEntry {
    LogEntry(taskId, actor, kind, details, now)
  }

  /** Every entry the controllers write passes the schema, stamped with the creation time. */
  lemma RecordPassesSchema(taskId: TaskId, actor: UserId, kind: ActionKind, details: string, now: nat)
    requires details != ""
    ensures NewEntry(Val(taskId), Val(actor), Val(KindName(kind)), Val(details), Absent, now)
            == Some(Record(taskId, actor, kind, details, now))
    ensures WellFormed(Record(taskId, actor, kind, details, now))
  {
    assert ParseKind(KindName(kind)) == Some(kind) by {
      match kind
      case Create =>
      case Update =>
      case Delete =>
      case Assign =>
      case Move =>
    }
  }

  /** The enum names are distinct: parsing a name gives back its kind. */
  lemma KindRoundTrip(k: ActionKind)
    ensures ParseKind(KindName(k)) == Some(k)
  {
  }
}
