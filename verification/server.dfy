/**
 * The eight exported task functions behind one dispatcher, and the
 * properties that hold of every call: a failed call changes nothing, a
 * caller only ever sees or changes their own tasks, and the stored fields
 * stay within their limits.
 */
module Server {
  import opened Wrappers
  import opened JsStrings
  import opened Schema
  import opened Validation
  import opened TasksDb
  import opened Endpoints

  /** One call of an exported query or mutation, with its arguments. */
  datatype Request =
    | ListAll
    | ListWithStatus(status: Status)
    | ListWithPriority(priority: Priority)
    | GetOne(taskId: TaskId)
    | CreateOne(args: CreateArgs)
    | UpdateOne(taskId: TaskId, changes: UpdateArgs)
    | RemoveOne(taskId: TaskId)
    | CompleteOne(taskId: TaskId)
  {
    predicate IsQuery() {
      ListAll? || ListWithStatus? || ListWithPriority? || GetOne?
    }
  }

  /** What the caller receives: a list, one task, a new id, an acknowledgement, or the thrown error. */
  datatype Response =
    | Tasks(tasks: seq<Task>)
    | OneTask(task: Task)
    | Created(id: TaskId)
    | Completed
    | Failed(error: Error)

  /** The tasks a response discloses. */
  function Disclosed(resp: Response): seq<Task> {
    match resp
    case Tasks(ts) => ts
    case OneTask(t) => [t]
    case _ => []
  }

  /** Runs one call against the table; `now` is the clock reading a mutation would use. */
  function Handle(st: Store, caller: Option<UserId>, req: Request, now: int): (r: (Store, Response))
    ensures r.1.Failed? ==> r.0 == st
    ensures caller.None? ==> r == (st, Failed(NotAuthenticated))
  {
    match req
    case ListAll =>
      (match List(st, caller)
       case Success(ts) => (st, Tasks(ts))
       case Failure(e) => (st, Failed(e)))
    case ListWithStatus(s) =>
      (match ListByStatus(st, caller, s)
       case Success(ts) => (st, Tasks(ts))
       case Failure(e) => (st, Failed(e)))
    case ListWithPriority(p) =>
      (match ListByPriority(st, caller, p)
       case Success(ts) => (st, Tasks(ts))
       case Failure(e) => (st, Failed(e)))
    case GetOne(id) =>
      (match Get(st, caller, id)
       case Success(t) => (st, OneTask(t))
       case Failure(e) => (st, Failed(e)))
    case CreateOne(args) =>
      (match Create(st, caller, args, now)
       case Success((st', id)) => (st', Created(id))
       case Failure(e) => (st, Failed(e)))
    case UpdateOne(id, changes) =>
      (match Update(st, caller, id, changes, now)
       case Success(st') => (st', Completed)
       case Failure(e) => (st, Failed(e)))
    case RemoveOne(id) =>
      (match Remove(st, caller, id)
       case Success(st') => (st', Completed)
       case Failure(e) => (st, Failed(e)))
    case CompleteOne(id) =>
      (match MarkComplete(st, caller, id, now)
       case Success(st') => (st', Completed)
       case Failure(e) => (st, Failed(e)))
  }

  /** Queries never write: the table after a query is the table before it. */
  lemma {:induction false} QueriesLeaveStore(st: Store, caller: Option<UserId>, req: Request, now: int)
    requires req.IsQuery()
    ensures Handle(st, caller, req, now).0 == st
  {
    match req
    case ListAll =>
    case ListWithStatus(_) =>
    case ListWithPriority(_) =>
    case GetOne(_) =>
  }

  /** Every task of a user other than `u` is present and unchanged in `st'`, and no such task is new. */
  predicate OthersTasksUnchanged(st: Store, st': Store, u: UserId) {
    && (forall id :: id in st.tasks && st.tasks[id].userId != u ==> id in st'.tasks && st'.tasks[id] == st.tasks[id])
    && (forall id :: id in st'.tasks && st'.tasks[id].userId != u ==> id in st.tasks && st.tasks[id] == st'.tasks[id])
  }

  /** The invariant of the stored fields: every task is well-formed. */
  predicate AllWellFormed(st: Store) {
    forall id :: id in st.tasks ==> WellFormed(st.tasks[id])
  }

  /** Every task's timestamps are in order and no later than `now`. */
  predicate ClockOrdered(st: Store, now: int) {
    forall id :: id in st.tasks ==> st.tasks[id].createdAt <= st.tasks[id].updatedAt <= now
  }

  /** The invariants one successful write keeps, going from `st` to `st'` on behalf of `u`. */
  predicate KeepsInvariants(st: Store, st': Store, u: UserId, now: int) {
    && Valid(st')
    && OthersTasksUnchanged(st, st', u)
    && (AllWellFormed(st) ==> AllWellFormed(st'))
    && (ClockOrdered(st, now) ==> ClockOrdered(st', now))
  }

  /** A write confined to task `id` of user `u`, leaving it well-formed and stamped `now`, keeps the invariants. */
  lemma {:induction false} ConfinedWrite(st: Store, st': Store, u: UserId, id: TaskId, now: int)
    requires Valid(st)
    requires st'.nextId == st.nextId
    requires OthersUnchanged(st.tasks, st'.tasks, id)
    requires id in st.tasks && st.tasks[id].userId == u
    requires id in st'.tasks ==> st'.tasks[id].id == st.tasks[id].id && st'.tasks[id].userId == u
    requires id in st'.tasks ==> st'.tasks[id].createdAt == st.tasks[id].createdAt && st'.tasks[id].updatedAt == now
    requires id in st'.tasks && WellFormed(st.tasks[id]) ==> WellFormed(st'.tasks[id])
    ensures KeepsInvariants(st, st', u, now)
  {
  }

  /** Inserting one new, well-formed task of user `u` stamped `now` keeps the invariants. */
  lemma {:induction false} InsertKeeps(st: Store, st': Store, u: UserId, id: TaskId, now: int)
    requires Valid(st) && Valid(st') && id !in st.tasks
    requires st'.tasks.Keys == st.tasks.Keys + {id}
    requires OthersUnchanged(st.tasks, st'.tasks, id)
    requires st'.tasks[id].userId == u && WellFormed(st'.tasks[id])
    requires st'.tasks[id].createdAt == now && st'.tasks[id].updatedAt == now
    ensures KeepsInvariants(st, st', u, now)
  {
    forall k | k in st.tasks ensures k in st'.tasks && st'.tasks[k] == st.tasks[k] {
      assert k != id;
    }
  }

  lemma {:induction false} CreateKeeps(st: Store, caller: UserId, args: CreateArgs, now: int)
    requires Valid(st)
    requires Create(st, Some(caller), args, now).Success?
    ensures KeepsInvariants(st, Create(st, Some(caller), args, now).value.0, caller, now)
  {
    var (st', id) := Create(st, Some(caller), args, now).value;
    InsertKeeps(st, st', caller, id, now);
  }

  lemma {:induction false} UpdateKeeps(st: Store, caller: UserId, id: TaskId, args: UpdateArgs, now: int)
    requires Valid(st)
    requires Update(st, Some(caller), id, args, now).Success?
    ensures KeepsInvariants(st, Update(st, Some(caller), id, args, now).value, caller, now)
  {
    var st' := Update(st, Some(caller), id, args, now).value;
    ConfinedWrite(st, st', caller, id, now);
  }

  lemma {:induction false} RemoveKeeps(st: Store, caller: UserId, id: TaskId, now: int)
    requires Valid(st)
    requires Remove(st, Some(caller), id).Success?
    ensures KeepsInvariants(st, Remove(st, Some(caller), id).value, caller, now)
  {
    ConfinedWrite(st, Remove(st, Some(caller), id).value, caller, id, now);
  }

  lemma {:induction false} MarkCompleteKeeps(st: Store, caller: UserId, id: TaskId, now: int)
    requires Valid(st)
    requires MarkComplete(st, Some(caller), id, now).Success?
    ensures KeepsInvariants(st, MarkComplete(st, Some(caller), id, now).value, caller, now)
  {
    ConfinedWrite(st, MarkComplete(st, Some(caller), id, now).value, caller, id, now);
  }

  /**
   * Every call keeps the invariants: the id bookkeeping stays consistent, no
   * task of another user is created, changed or deleted, stored fields stay
   * within their limits, and, with a clock that never runs backwards (no
   * stored timestamp later than `now`), `createdAt <= updatedAt` holds for
   * every task.
   */
  lemma {:induction false} HandleKeepsInvariants(st: Store, caller: UserId, req: Request, now: int)
    requires Valid(st)
    ensures KeepsInvariants(st, Handle(st, Some(caller), req, now).0, caller, now)
  {
    var st' := Handle(st, Some(caller), req, now).0;
    if st' != st {
      match req
      case CreateOne(args) => CreateKeeps(st, caller, args, now);
      case UpdateOne(id, changes) => UpdateKeeps(st, caller, id, changes, now);
      case RemoveOne(id) => RemoveKeeps(st, caller, id, now);
      case CompleteOne(id) => MarkCompleteKeeps(st, caller, id, now);
      case _ => QueriesLeaveStore(st, Some(caller), req, now);
    }
  }

  /** A caller is only ever shown their own tasks. */
  lemma {:induction false} HandleDisclosesOnlyOwnTasks(st: Store, caller: UserId, req: Request, now: int)
    ensures forall t :: t in Disclosed(Handle(st, Some(caller), req, now).1) ==> t.userId == caller
  {
    match req
    case ListAll =>
    case ListWithStatus(_) =>
    case ListWithPriority(_) =>
    case GetOne(_) =>
    case _ =>
  }

  /** `list` returns exactly the caller's tasks, each once, newest first. */
  lemma {:induction false} ListReturnsExactlyCallersTasks(st: Store, caller: UserId)
    requires Valid(st)
    ensures var resp := Handle(st, Some(caller), ListAll, 0).1;
      && resp.Tasks?
      && (forall t :: t in resp.tasks <==> t.id in st.tasks && st.tasks[t.id] == t && t.userId == caller)
      && NewestFirst(resp.tasks)
  {
    ListByUserExact(st, caller);
  }

  /** The same holds of `listByStatus` and `listByPriority`, which are the caller's list filtered. */
  lemma {:induction false} FilteredListsAreFilters(st: Store, caller: UserId, s: Status, p: Priority)
    requires Valid(st)
    ensures var all := Handle(st, Some(caller), ListAll, 0).1;
      && Handle(st, Some(caller), ListWithStatus(s), 0).1 == Tasks(WithStatus(all.tasks, s))
      && Handle(st, Some(caller), ListWithPriority(p), 0).1 == Tasks(WithPriority(all.tasks, p))
  {
    ListByStatusExact(st, caller, s);
    ListByPriorityExact(st, caller, p);
  }

  /** A task owned by someone else is refused to every targeted call, with the table left as it was. */
  lemma {:induction false} ForeignTaskRefused(st: Store, caller: UserId, id: TaskId, changes: UpdateArgs, now: int)
    requires id in st.tasks && st.tasks[id].userId != caller
    ensures Handle(st, Some(caller), GetOne(id), now) == (st, Failed(Unauthorized))
    ensures Handle(st, Some(caller), UpdateOne(id, changes), now) == (st, Failed(Unauthorized))
    ensures Handle(st, Some(caller), RemoveOne(id), now) == (st, Failed(Unauthorized))
    ensures Handle(st, Some(caller), CompleteOne(id), now) == (st, Failed(Unauthorized))
  {
  }
}
