/**
 * The data-access layer: every read and write of the `tasks` table. It
 * checks neither the caller nor the inputs; the endpoints do that.
 */
module TasksDb {
  import opened Wrappers
  import opened Schema

  /** The table: documents by id, and the counter that supplies the next fresh id. */
  datatype Store = Store(tasks: map<TaskId, Task>, nextId: TaskId)

  const EmptyStore := Store(map[], 0)

  /** Each row is filed under its own id. */
  predicate IdsConsistent(tasks: map<TaskId, Task>) {
    forall id :: id in tasks ==> tasks[id].id == id
  }

  /** Every document is filed under its own id, and every id was handed out by the counter. */
  predicate Valid(st: Store) {
    IdsConsistent(st.tasks) && forall id :: id in st.tasks ==> id < st.nextId
  }

  /** `CreateTaskArgs`: every field of a new row except the id and the timestamps. */
  datatype NewTask = NewTask(
    userId: UserId,
    title: string,
    description: string,
    dueDate: Option<int>,
    priority: Priority,
    status: Status)

  /** `UpdateTaskArgs`: the fields to overwrite; `None` means the key is absent from the patch. */
  datatype TaskPatch = TaskPatch(
    title: Option<string>,
    description: Option<string>,
    dueDate: Option<int>,
    priority: Option<Priority>,
    status: Option<Status>)

  const NoChanges := TaskPatch(None, None, None, None, None)

  /** The store refuses to patch or delete a document that does not exist. */
  datatype DbError = NonexistentDocument(id: TaskId)

  /** `t` holds exactly the fields of `args`, stamped with `now` as both timestamps. */
  predicate CopiesArgs(t: Task, args: NewTask, now: int) {
    && t.userId == args.userId && t.title == args.title && t.description == args.description
    && t.dueDate == args.dueDate && t.priority == args.priority && t.status == args.status
    && t.createdAt == now && t.updatedAt == now
  }

  /** `t'` is `t` with the supplied fields of `p` overwritten and `updatedAt` refreshed, and nothing else changed. */
  predicate PatchedFrom(t: Task, t': Task, p: TaskPatch, now: int) {
    && t'.id == t.id && t'.userId == t.userId && t'.createdAt == t.createdAt && t'.updatedAt == now
    && (if p.title.Some? then t'.title == p.title.value else t'.title == t.title)
    && (if p.description.Some? then t'.description == p.description.value else t'.description == t.description)
    && (if p.dueDate.Some? then t'.dueDate == p.dueDate else t'.dueDate == t.dueDate)
    && (if p.priority.Some? then t'.priority == p.priority.value else t'.priority == t.priority)
    && (if p.status.Some? then t'.status == p.status.value else t'.status == t.status)
  }

  /** Every document other than `id` is the same in both maps. */
  predicate OthersUnchanged(m: map<TaskId, Task>, m': map<TaskId, Task>, id: TaskId) {
    && (forall k :: k in m && k != id ==> k in m' && m'[k] == m[k])
    && (forall k :: k in m' && k != id ==> k in m)
  }

  /** `createTask`: inserts a new row under a fresh id, with `createdAt == updatedAt == now`. */
  function CreateTask(st: Store, args: NewTask, now: int): (r: (Store, TaskId))
    ensures Valid(st) ==> r.1 !in st.tasks && Valid(r.0)
    ensures r.0.tasks.Keys == st.tasks.Keys + {r.1}
    ensures CopiesArgs(r.0.tasks[r.1], args, now)
    ensures OthersUnchanged(st.tasks, r.0.tasks, r.1)
  {
    var id := st.nextId;
    var t := Task(id, args.userId, args.title, args.description, args.dueDate,
                  args.priority, args.status, now, now);
    (Store(st.tasks[id := t], st.nextId + 1), id)
  }

  /** `getTaskById`: the stored document, or nothing when the id is absent. */
  function GetTaskById(st: Store, id: TaskId): (r: Option<Task>)
    ensures r.Some? <==> id in st.tasks
    ensures r.Some? ==> r.value == st.tasks[id]
  {
    if id in st.tasks then Some(st.tasks[id]) else None
  }

  /**
   * An equality lookup on `index` collected in descending order: the rows
   * among ids `n - 1` down to `0` whose key starts with `prefix`. Each lookup
   * fixes the whole key, so descending index order is descending insertion
   * order.
   */
  function Scan(tasks: map<TaskId, Task>, n: nat, index: Index, prefix: seq<KeyPart>): (r: seq<Task>)
    ensures forall t :: t in r ==> InRange(index, prefix, t)
    decreases n
  {
    if n == 0 then []
    else
      var id := n - 1;
      var hit := if id in tasks && InRange(index, prefix, tasks[id]) then [tasks[id]] else [];
      hit + Scan(tasks, id, index, prefix)
  }

  /** `getTasksByUserId`: the `by_userId` lookup, newest first. */
  function GetTasksByUserId(st: Store, u: UserId): seq<Task> {
    Scan(st.tasks, st.nextId, ByUserId, UserKey(u))
  }

  /** `getTasksByStatus`: the `by_userId_status` lookup, newest first. */
  function GetTasksByStatus(st: Store, u: UserId, s: Status): seq<Task> {
    Scan(st.tasks, st.nextId, ByUserIdStatus, UserStatusKey(u, s))
  }

  /** `getTasksByPriority`: the `by_userId_priority` lookup, newest first. */
  function GetTasksByPriority(st: Store, u: UserId, p: Priority): seq<Task> {
    Scan(st.tasks, st.nextId, ByUserIdPriority, UserPriorityKey(u, p))
  }

  /** The overwrite a patch performs on one document. */
  function ApplyPatch(t: Task, p: TaskPatch, now: int): Task {
    t.(title := p.title.GetOr(t.title),
       description := p.description.GetOr(t.description),
       dueDate := if p.dueDate.Some? then p.dueDate else t.dueDate,
       priority := p.priority.GetOr(t.priority),
       status := p.status.GetOr(t.status),
       updatedAt := now)
  }

  /** `updateTask`: overwrites the supplied fields and refreshes `updatedAt`, even for an empty patch. */
  function UpdateTask(st: Store, id: TaskId, p: TaskPatch, now: int): (r: Result<Store, DbError>)
    ensures r.Success? <==> id in st.tasks
    ensures r.Failure? ==> r.error == NonexistentDocument(id)
    ensures r.Success? ==>
      && r.value.nextId == st.nextId
      && r.value.tasks.Keys == st.tasks.Keys
      && PatchedFrom(st.tasks[id], r.value.tasks[id], p, now)
      && OthersUnchanged(st.tasks, r.value.tasks, id)
      && (Valid(st) ==> Valid(r.value))
  {
    if id !in st.tasks then Failure(NonexistentDocument(id))
    else Success(st.(tasks := st.tasks[id := ApplyPatch(st.tasks[id], p, now)]))
  }

  /** `deleteTask`: removes exactly that document. */
  function DeleteTask(st: Store, id: TaskId): (r: Result<Store, DbError>)
    ensures r.Success? <==> id in st.tasks
    ensures r.Failure? ==> r.error == NonexistentDocument(id)
    ensures r.Success? ==>
      && r.value.nextId == st.nextId
      && r.value.tasks.Keys == st.tasks.Keys - {id}
      && OthersUnchanged(st.tasks, r.value.tasks, id)
      && (Valid(st) ==> Valid(r.value))
  {
    if id !in st.tasks then Failure(NonexistentDocument(id))
    else Success(st.(tasks := st.tasks - {id}))
  }

  /** `markTaskComplete`: sets the status to done and refreshes `updatedAt`. */
  function MarkTaskComplete(st: Store, id: TaskId, now: int): (r: Result<Store, DbError>)
    ensures r.Success? <==> id in st.tasks
    ensures r.Failure? ==> r.error == NonexistentDocument(id)
    ensures r.Success? ==>
      && r.value.nextId == st.nextId
      && r.value.tasks.Keys == st.tasks.Keys
      && r.value.tasks[id] == st.tasks[id].(status := Done, updatedAt := now)
      && OthersUnchanged(st.tasks, r.value.tasks, id)
      && (Valid(st) ==> Valid(r.value))
  {
    if id !in st.tasks then Failure(NonexistentDocument(id))
    else Success(st.(tasks := st.tasks[id := st.tasks[id].(status := Done, updatedAt := now)]))
  }

  // ---------------------------------------------------------------------------
  // Properties of the queries

  /** Ids strictly decrease along `ts`: newest first, and no document twice. */
  predicate NewestFirst(ts: seq<Task>) {
    forall i, j :: 0 <= i < j < |ts| ==> ts[i].id > ts[j].id
  }

  /** A scan returns exactly the matching documents below `n`, each once, newest first. */
  lemma {:induction false} ScanContents(tasks: map<TaskId, Task>, n: nat, index: Index, prefix: seq<KeyPart>)
    requires IdsConsistent(tasks)
    ensures forall t :: t in Scan(tasks, n, index, prefix) <==>
      t.id < n && t.id in tasks && tasks[t.id] == t && InRange(index, prefix, t)
    ensures NewestFirst(Scan(tasks, n, index, prefix))
  {
    ScanMembers(tasks, n, index, prefix);
    ScanNewestFirst(tasks, n, index, prefix);
  }

  lemma {:induction false} ScanMembers(tasks: map<TaskId, Task>, n: nat, index: Index, prefix: seq<KeyPart>)
    requires IdsConsistent(tasks)
    ensures forall t :: t in Scan(tasks, n, index, prefix) <==>
      t.id < n && t.id in tasks && tasks[t.id] == t && InRange(index, prefix, t)
    decreases n
  {
    if n > 0 {
      ScanMembers(tasks, n - 1, index, prefix);
      var rest := Scan(tasks, n - 1, index, prefix);
      if n - 1 in tasks && InRange(index, prefix, tasks[n - 1]) {
        assert Scan(tasks, n, index, prefix) == [tasks[n - 1]] + rest;
      } else {
        assert Scan(tasks, n, index, prefix) == rest;
      }
    }
  }

  /** Every row a scan below `n` returns has an id below `n`. */
  lemma {:induction false} ScanBelow(tasks: map<TaskId, Task>, n: nat, index: Index, prefix: seq<KeyPart>)
    requires IdsConsistent(tasks)
    ensures forall i :: 0 <= i < |Scan(tasks, n, index, prefix)| ==> Scan(tasks, n, index, prefix)[i].id < n
    decreases n
  {
    if n > 0 {
      ScanBelow(tasks, n - 1, index, prefix);
    }
  }

  lemma {:induction false} ScanNewestFirst(tasks: map<TaskId, Task>, n: nat, index: Index, prefix: seq<KeyPart>)
    requires IdsConsistent(tasks)
    ensures NewestFirst(Scan(tasks, n, index, prefix))
    decreases n
  {
    if n > 0 {
      ScanNewestFirst(tasks, n - 1, index, prefix);
      ScanBelow(tasks, n - 1, index, prefix);
      var r := Scan(tasks, n, index, prefix);
      var rest := Scan(tasks, n - 1, index, prefix);
      if n - 1 in tasks && InRange(index, prefix, tasks[n - 1]) {
        assert r == [tasks[n - 1]] + rest;
        forall i, j | 0 <= i < j < |r| ensures r[i].id > r[j].id {
          assert r[j] == rest[j - 1];
          if i > 0 {
            assert r[i] == rest[i - 1];
          }
        }
      } else {
        assert r == rest;
      }
    }
  }

  /** `getTasksByUserId` returns exactly the user's documents, each once, newest first. */
  lemma {:induction false} ListByUserExact(st: Store, u: UserId)
    requires Valid(st)
    ensures forall t :: t in GetTasksByUserId(st, u) <==> t.id in st.tasks && st.tasks[t.id] == t && t.userId == u
    ensures NewestFirst(GetTasksByUserId(st, u))
  {
    ScanContents(st.tasks, st.nextId, ByUserId, UserKey(u));
    forall t ensures InRange(ByUserId, UserKey(u), t) <==> t.userId == u {
      InRangeMeansFieldsMatch(t, u, Todo, Low);
    }
  }

  /** The user's list filtered to one status, order kept. */
  function WithStatus(ts: seq<Task>, s: Status): (r: seq<Task>)
    ensures forall t :: t in r <==> t in ts && t.status == s
  {
    if |ts| == 0 then []
    else (if ts[0].status == s then [ts[0]] else []) + WithStatus(ts[1..], s)
  }

  /** The user's list filtered to one priority, order kept. */
  function WithPriority(ts: seq<Task>, p: Priority): (r: seq<Task>)
    ensures forall t :: t in r <==> t in ts && t.priority == p
  {
    if |ts| == 0 then []
    else (if ts[0].priority == p then [ts[0]] else []) + WithPriority(ts[1..], p)
  }

  lemma {:induction false} ScanStatusIsFilter(tasks: map<TaskId, Task>, n: nat, u: UserId, s: Status)
    ensures Scan(tasks, n, ByUserIdStatus, UserStatusKey(u, s)) == WithStatus(Scan(tasks, n, ByUserId, UserKey(u)), s)
    decreases n
  {
    if n > 0 {
      ScanStatusIsFilter(tasks, n - 1, u, s);
      var all := Scan(tasks, n, ByUserId, UserKey(u));
      var rest := Scan(tasks, n - 1, ByUserId, UserKey(u));
      if n - 1 in tasks && InRange(ByUserId, UserKey(u), tasks[n - 1]) {
        InRangeMeansFieldsMatch(tasks[n - 1], u, s, Low);
        assert all == [tasks[n - 1]] + rest;
        assert all[0] == tasks[n - 1] && all[1..] == rest;
      } else {
        if n - 1 in tasks {
          InRangeMeansFieldsMatch(tasks[n - 1], u, s, Low);
        }
        assert all == [] + rest == rest;
      }
    }
  }

  lemma {:induction false} ScanPriorityIsFilter(tasks: map<TaskId, Task>, n: nat, u: UserId, p: Priority)
    ensures Scan(tasks, n, ByUserIdPriority, UserPriorityKey(u, p)) == WithPriority(Scan(tasks, n, ByUserId, UserKey(u)), p)
    decreases n
  {
    if n > 0 {
      ScanPriorityIsFilter(tasks, n - 1, u, p);
      var all := Scan(tasks, n, ByUserId, UserKey(u));
      var rest := Scan(tasks, n - 1, ByUserId, UserKey(u));
      if n - 1 in tasks && InRange(ByUserId, UserKey(u), tasks[n - 1]) {
        InRangeMeansFieldsMatch(tasks[n - 1], u, Todo, p);
        assert all == [tasks[n - 1]] + rest;
        assert all[0] == tasks[n - 1] && all[1..] == rest;
      } else {
        if n - 1 in tasks {
          InRangeMeansFieldsMatch(tasks[n - 1], u, Todo, p);
        }
        assert all == [] + rest == rest;
      }
    }
  }

  /**
   * `getTasksByStatus` is the user's list, newest first, keeping only one
   * status; so it returns exactly the user's documents with that status.
   */
  lemma {:induction false} ListByStatusExact(st: Store, u: UserId, s: Status)
    requires Valid(st)
    ensures GetTasksByStatus(st, u, s) == WithStatus(GetTasksByUserId(st, u), s)
    ensures forall t :: t in GetTasksByStatus(st, u, s) <==>
      t.id in st.tasks && st.tasks[t.id] == t && t.userId == u && t.status == s
    ensures NewestFirst(GetTasksByStatus(st, u, s))
  {
    ScanStatusIsFilter(st.tasks, st.nextId, u, s);
    ListByUserExact(st, u);
    ScanContents(st.tasks, st.nextId, ByUserIdStatus, UserStatusKey(u, s));
  }

  /** `getTasksByPriority` is the user's list, newest first, keeping only one priority. */
  lemma {:induction false} ListByPriorityExact(st: Store, u: UserId, p: Priority)
    requires Valid(st)
    ensures GetTasksByPriority(st, u, p) == WithPriority(GetTasksByUserId(st, u), p)
    ensures forall t :: t in GetTasksByPriority(st, u, p) <==>
      t.id in st.tasks && st.tasks[t.id] == t && t.userId == u && t.priority == p
    ensures NewestFirst(GetTasksByPriority(st, u, p))
  {
    ScanPriorityIsFilter(st.tasks, st.nextId, u, p);
    ListByUserExact(st, u);
    ScanContents(st.tasks, st.nextId, ByUserIdPriority, UserPriorityKey(u, p));
  }

  // ---------------------------------------------------------------------------
  // Properties of the writes

  /** A created task can be read back with every argument field, and no other read changes. */
  lemma {:induction false} CreateThenGet(st: Store, args: NewTask, now: int, other: TaskId)
    requires Valid(st)
    ensures var (st', id) := CreateTask(st, args, now);
      && GetTaskById(st, id).None?
      && GetTaskById(st', id).Some? && CopiesArgs(GetTaskById(st', id).value, args, now)
      && GetTaskById(st', id).value.id == id
      && (other != id ==> GetTaskById(st', other) == GetTaskById(st, other))
  {
  }

  /** After a delete the id reads as absent, and every other read is unchanged. */
  lemma {:induction false} DeleteThenGet(st: Store, id: TaskId, other: TaskId)
    requires id in st.tasks
    ensures DeleteTask(st, id).Success?
    ensures GetTaskById(DeleteTask(st, id).value, id).None?
    ensures other != id ==> GetTaskById(DeleteTask(st, id).value, other) == GetTaskById(st, other)
  {
  }

  /** A patch with no fields still refreshes `updatedAt` and changes nothing else. */
  lemma {:induction false} EmptyPatchRefreshes(st: Store, id: TaskId, now: int)
    requires id in st.tasks
    ensures UpdateTask(st, id, NoChanges, now) == Success(st.(tasks := st.tasks[id := st.tasks[id].(updatedAt := now)]))
  {
  }

  /** Marking complete is the patch `{ status: "done" }`. */
  lemma {:induction false} MarkCompleteIsStatusPatch(st: Store, id: TaskId, now: int)
    ensures MarkTaskComplete(st, id, now) == UpdateTask(st, id, NoChanges.(status := Some(Done)), now)
  {
  }

  /** Marking complete twice leaves the task done, with the later timestamp, and otherwise as after the first call. */
  lemma {:induction false} MarkCompleteTwice(st: Store, id: TaskId, now1: int, now2: int)
    requires id in st.tasks
    ensures var r1 := MarkTaskComplete(st, id, now1);
      && r1.Success? && r1.value.tasks[id].status == Done
      && var r2 := MarkTaskComplete(r1.value, id, now2);
      && r2.Success? && r2.value.tasks[id].status == Done
      && r2.value.tasks[id] == r1.value.tasks[id].(updatedAt := now2)
  {
  }
}
