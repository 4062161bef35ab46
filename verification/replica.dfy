/**
 How the server and the boards fit together. A board that starts from a
 listing of the collection and applies every broadcast `taskUpdate` event
 in order keeps listing the collection exactly. The remaining lemmas cover
 the optimistic version check across two writers, the unchecked conflict
 resolution, the client's merge payload, and the defaults of a new task.
 */
module Replica {
  import opened Js
  import opened TaskModel
  import opened ActionModel
  import opened Wire
  import opened Seqs
  import opened TaskController
  import opened KanbanBoard

  /** The server after handling `reqs` one at a time. */
  function Run(st: State, reqs: seq<Request>): (st': State)
    ensures |st'.events| >= |st.events| && st'.events[..|st.events|] == st.events
    ensures |st'.log| >= |st.log| && st'.log[..|st.log|] == st.log
    ensures |st'.log| - |st.log| == |st'.events| - |st.events|
    ensures st'.users == st.users
    decreases |reqs|
  {
    if |reqs| == 0 then st
    else
      var mid := Handle(st, reqs[0]).st;
      var end := Run(mid, reqs[1..]);
      assert end.events[..|st.events|] == end.events[..|mid.events|][..|st.events|];
      assert end.log[..|st.log|] == end.log[..|mid.log|][..|st.log|];
      end
  }

  /** Applying two batches of events is applying their concatenation. */
  lemma {:induction false} ApplyAllAppend(list: seq<Task>, a: seq<Event>, b: seq<Event>)
    ensures ApplyAll(list, a + b) == ApplyAll(ApplyAll(list, a), b)
    decreases |a|
  {
    if |a| == 0 {
      assert a + b == b;
    } else {
      assert (a + b)[0] == a[0];
      assert (a + b)[1..] == a[1..] + b;
      ApplyAllAppend(HandleTaskUpdate(list, a[0]), a[1..], b);
    }
  }

  lemma ApplyOne(list: seq<Task>, e: Event)
    ensures ApplyAll(list, [e]) == HandleTaskUpdate(list, e)
  {
    assert [e][1..] == [];
  }

  /** A create event for a fresh id keeps the listing exact. */
  lemma ListingAfterCreate(list: seq<Task>, store: Store, t: Task)
    requires Enumerates(list, store) && t.id !in store
    ensures Enumerates(HandleTaskUpdate(list, Created(t)), Put(store, t))
  {
    var r := HandleTaskUpdate(list, Created(t));
    var s := Put(store, t);
    forall k | k in s
      ensures exists i :: 0 <= i < |r| && r[i].id == k
    {
      if k == t.id {
        assert r[|list|].id == k;
      } else {
        var i :| 0 <= i < |list| && list[i].id == k;
        assert r[i].id == k;
      }
    }
  }

  /** An update event for a stored id keeps the listing exact. */
  lemma ListingAfterUpdate(list: seq<Task>, store: Store, t: Task)
    requires Enumerates(list, store) && t.id in store
    ensures Enumerates(HandleTaskUpdate(list, Updated(t)), Put(store, t))
  {
    var r := HandleTaskUpdate(list, Updated(t));
    var s := Put(store, t);
    assert forall i :: 0 <= i < |r| ==> r[i].id == list[i].id;
    forall i | 0 <= i < |r|
      ensures r[i].id in s && s[r[i].id] == r[i]
    {
      if list[i].id != t.id {
        assert r[i] == list[i];
      }
    }
    forall k | k in s
      ensures exists i :: 0 <= i < |r| && r[i].id == k
    {
      var i :| 0 <= i < |list| && list[i].id == k;
      assert r[i].id == k;
    }
  }

  /** A delete event for a stored id keeps the listing exact. */
  lemma ListingAfterDelete(list: seq<Task>, store: Store, id: TaskId)
    requires Enumerates(list, store)
    ensures Enumerates(HandleTaskUpdate(list, Removed(id)), store - {id})
  {
    var r := HandleTaskUpdate(list, Removed(id));
    var key := (t: Task) => t.id;
    assert DistinctKeys(list, key);
    FilterDistinct(list, OtherId(id), key);
    assert DistinctKeys(r, key);
    forall i | 0 <= i < |r|
      ensures r[i].id in store - {id} && (store - {id})[r[i].id] == r[i]
    {
      assert r[i] in list;
    }
    forall k | k in store - {id}
      ensures exists i :: 0 <= i < |r| && r[i].id == k
    {
      var j :| 0 <= j < |list| && list[j].id == k;
      assert list[j] in r;
      var i :| 0 <= i < |r| && r[i] == list[j];
      assert r[i].id == k;
    }
  }

  /**
   One request keeps a board in step: if the board listed the collection
   before, then after it applies the events this request broadcast, it lists
   the collection as the request left it.
   */
  lemma BoardFollowsServer(list: seq<Task>, st: State, req: Request)
    requires Enumerates(list, st.tasks)
    ensures var o := Handle(st, req);
      Enumerates(ApplyAll(list, o.st.events[|st.events|..]), o.st.tasks)
  {
    var o := Handle(st, req);
    if o.resp.Failed? {
      assert o.st.events[|st.events|..] == [];
    } else {
      var ev := o.st.events[|st.events|];
      assert o.st.events[|st.events|..] == [ev];
      ApplyOne(list, ev);
      match req.op
      case CreateOp(id, body) =>
        ListingAfterCreate(list, st.tasks, o.resp.task);
      case UpdateOp(id, body) =>
        ListingAfterUpdate(list, st.tasks, o.resp.task);
      case DeleteOp(id) =>
        ListingAfterDelete(list, st.tasks, id);
        assert o.st.tasks == st.tasks - {id};
      case ResolveOp(id, action, m) =>
        ListingAfterUpdate(list, st.tasks, o.resp.task);
      case AssignOp(id) =>
        ListingAfterUpdate(list, st.tasks, o.resp.task);
    }
  }

  /** Over any run of requests, a board that applies every broadcast in order lists the final collection. */
  lemma {:induction false} BoardFollowsRun(list: seq<Task>, st: State, reqs: seq<Request>)
    requires Enumerates(list, st.tasks)
    ensures var end := Run(st, reqs);
      Enumerates(ApplyAll(list, end.events[|st.events|..]), end.tasks)
    decreases |reqs|
  {
    if |reqs| == 0 {
      assert st.events[|st.events|..] == [];
    } else {
      var mid := Handle(st, reqs[0]).st;
      BoardFollowsServer(list, st, reqs[0]);
      var list' := ApplyAll(list, mid.events[|st.events|..]);
      BoardFollowsRun(list', mid, reqs[1..]);
      var end := Run(st, reqs);
      assert end == Run(mid, reqs[1..]);
      SuffixSplit(st.events, mid.events, end.events);
      ApplyAllAppend(list, mid.events[|st.events|..], end.events[|mid.events|..]);
    }
  }

  /** A suffix of an extension of an extension is the middle part followed by the last part. */
  lemma SuffixSplit<T>(a: seq<T>, m: seq<T>, e: seq<T>)
    requires |a| <= |m| <= |e| && e[..|m|] == m
    ensures e[|a|..] == m[|a|..] + e[|m|..]
  {
    assert e == m + e[|m|..];
  }

  /** Every run keeps the titles valid and unique. */
  lemma {:induction false} RunKeepsConsistent(st: State, reqs: seq<Request>)
    requires Consistent(st.tasks)
    ensures Consistent(Run(st, reqs).tasks)
    decreases |reqs|
  {
    if |reqs| > 0 {
      RunKeepsConsistent(Handle(st, reqs[0]).st, reqs[1..]);
    }
  }

  /**
   Two writers submit against the same observed version: the first is
   accepted, and the second gets a conflict carrying the task the first wrote.
   */
  lemma SecondWriterConflicts(st: State, id: TaskId, a: Body, b: Body, actorA: User, actorB: User, t1: nat, t2: nat)
    requires id in st.tasks
    requires a.version == Val(st.tasks[id].version) && b.version == a.version
    requires UpdateTask(st, id, a, actorA, t1).resp.Ok?
    ensures var first := UpdateTask(st, id, a, actorA, t1);
      Refused(UpdateTask(first.st, id, b, actorB, t2), first.st, Conflict(first.resp.task, b))
  {
  }

  /**
   A move sent from a board in step with the server is accepted: the task
   comes back with the new status, version raised by two, and nothing else changed.
   */
  lemma MoveIsAccepted(list: seq<Task>, st: State, id: TaskId, s: Status, actor: User, now: nat)
    requires Enumerates(list, st.tasks) && Consistent(st.tasks)
    requires MovePayload(list, id, s).Some?
    ensures id in st.tasks
    ensures UpdateTask(st, id, MovePayload(list, id, s).value, actor, now).resp
         == Ok(st.tasks[id].(status := s, version := st.tasks[id].version + 2, updatedAt := now))
  {
    var p := MovePayload(list, id, s).value;
    var j :| 0 <= j < |list| && list[j].id == id && p == TaskBody(list[j]).(status := Val(StatusLabel(s)));
    assert st.tasks[id] == list[j];
    StatusUpdateAccepted(st, id, s, actor, now);
  }

  /** An update whose body is a stored task with only the status replaced is accepted and changes just that. */
  lemma StatusUpdateAccepted(st: State, id: TaskId, s: Status, actor: User, now: nat)
    requires Consistent(st.tasks) && id in st.tasks
    ensures var cur := st.tasks[id];
      UpdateTask(st, id, TaskBody(cur).(status := Val(StatusLabel(s))), actor, now).resp
        == Ok(cur.(status := s, version := cur.version + 2, updatedAt := now))
  {
    var cur := st.tasks[id];
    var p := TaskBody(cur).(status := Val(StatusLabel(s)));
    assert Overwritten(cur, p) == ToDraft(cur).(status := Val(StatusLabel(s)));
    StatusChangeAdmissible(st.tasks, cur, s);
    var t := UpdateTask(st, id, p, actor, now).resp.task;
    LabelsInjective();
    assert t.priority == cur.priority;
    assert t.status == s;
  }

  /** Changing only the status of a stored task of a consistent store passes every check of the save. */
  lemma StatusChangeAdmissible(store: Store, cur: Task, s: Status)
    requires Consistent(store) && cur.id in store && store[cur.id] == cur
    ensures Admissible(ToDraft(cur).(status := Val(StatusLabel(s))), store, false)
  {
    StoredTaskAdmissible(store, cur);
  }

  /**
   Resolution checks no version: a resolution submitted with the version the
   client saw before an interleaved update is still accepted, where an update
   with that same version is refused, and the client's overwrite replaces
   what the interleaved writer stored.
   */
  lemma ResolutionClobbersInterleavedUpdate(st: State, id: TaskId, a: Body, m: Body,
                                             actorA: User, actorB: User, t1: nat, t2: nat)
    requires id in st.tasks
    requires UpdateTask(st, id, a, actorA, t1).resp.Ok?
    requires m.version == Val(st.tasks[id].version)
    requires var mid := UpdateTask(st, id, a, actorA, t1).st;
      Admissible(Overwritten(mid.tasks[id], m), mid.tasks, false)
    ensures var mid := UpdateTask(st, id, a, actorA, t1).st;
      && UpdateTask(mid, id, m, actorB, t2).resp.Failed?
      && UpdateTask(mid, id, m, actorB, t2).resp.error.Conflict?
    ensures var mid := UpdateTask(st, id, a, actorA, t1).st;
      var o := ResolveConflict(mid, id, "overwrite", m, actorB, t2);
      && o.resp.Ok?
      && m.title == Val(o.resp.task.title)
      && StatusStoredAs(m.status, o.resp.task.status)
      && o.resp.task.version == st.tasks[id].version + 4
  {
  }

  /** Whether the version a resolution carries is anything at all makes no difference. */
  lemma ResolutionIgnoresVersion(st: State, id: TaskId, action: string, m: Body, v1: Field<int>, v2: Field<int>,
                                 actor: User, now: nat)
    ensures ResolveConflict(st, id, action, m.(version := v1), actor, now)
         == ResolveConflict(st, id, action, m.(version := v2), actor, now)
  {
  }

  /**
   The end-to-end merge of a board: the client overlays the stored snapshot it
   received with its own body, and the server merges that over whatever is
   stored now. A title the client left out comes from the snapshot, not from
   the task as stored at resolution time; only a null or empty title falls back
   to the stored one.
   */
  lemma MergeFromBoard(st: State, id: TaskId, snapshot: Task, client: Body, actor: User, now: nat)
    requires id in st.tasks && ValidTitle(snapshot.title)
    requires var rb := ConflictRequest(Val("merge"), snapshot, client).value;
      ResolveConflict(st, id, rb.action, rb.mergeData, actor, now).resp.Ok?
    ensures var rb := ConflictRequest(Val("merge"), snapshot, client).value;
      var t := ResolveConflict(st, id, rb.action, rb.mergeData, actor, now).resp.task;
      && t.title == (if client.title.Absent? then snapshot.title
                     else if Truthy(client.title) then client.title.v
                     else st.tasks[id].title)
      && (if client.status.Absent? then t.status == snapshot.status
          else if !Truthy(client.status) then t.status == st.tasks[id].status
          else client.status.v == StatusLabel(t.status))
  {
    var rb := ConflictRequest(Val("merge"), snapshot, client).value;
    LabelsInjective();
    assert StatusLabel(snapshot.status) != "";
  }

  /** A body that gives only a title yields the schema defaults, stored at version 1. */
  lemma CreateDefaults(st: State, id: TaskId, title: string, actor: User, now: nat)
    requires CreateTask(st, id, Body(Val(title), Absent, Absent, Absent, Absent, Absent), actor, now).resp.Ok?
    ensures var t := CreateTask(st, id, Body(Val(title), Absent, Absent, Absent, Absent, Absent), actor, now).resp.task;
      && t.title == title && t.description == "" && t.status == Todo && t.priority == Medium
      && t.assignedUser == None && t.version == 1
  {
  }

  /** A create is accepted exactly when the id is new and the title is valid and not taken. */
  lemma CreateAcceptedIff(st: State, id: TaskId, title: string, actor: User, now: nat)
    ensures CreateTask(st, id, Body(Val(title), Absent, Absent, Absent, Absent, Absent), actor, now).resp.Ok?
        <==> id !in st.tasks && ValidTitle(title) && forall k :: k in st.tasks ==> st.tasks[k].title != title
  {
  }
}
