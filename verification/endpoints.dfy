/**
 * The endpoint layer: every handler resolves the caller, then (for a task
 * id) existence, then ownership, then validates its inputs, and only then
 * delegates to the data-access layer. A thrown error is a `Failure`; a
 * failed call returns no store, so the table is left as it was.
 */
module Endpoints {
  import opened Wrappers
  import opened JsStrings
  import opened Schema
  import opened Validation
  import opened TasksDb

  /**
   * What a handler throws: an `Error` with a message, or the store's own
   * failure when asked to write a document that does not exist.
   */
  datatype Error = Thrown(message: string) | StoreFailure(cause: DbError)

  const NotAuthenticated := Thrown("Not authenticated")
  const TaskNotFound := Thrown("Task not found")
  const Unauthorized := Thrown("Unauthorized")

  /** The messages the validators report. */
  predicate IsValidationError(e: Error) {
    e.Thrown? && e.message in {EmptyTitle, TitleTooLong, DescriptionTooLong, BadDueDate}
  }

  /** Arguments of `create`; `status` may be omitted. */
  datatype CreateArgs = CreateArgs(
    title: string,
    description: string,
    dueDate: Option<int>,
    priority: Priority,
    status: Option<Status>)

  /** Arguments of `update` besides the id: any subset of the editable fields. */
  type UpdateArgs = TaskPatch

  // ---------------------------------------------------------------------------
  // Reference definitions the handlers are stated against

  /** The caller owns the task `id`. */
  predicate Owns(st: Store, caller: Option<UserId>, id: TaskId) {
    caller.Some? && id in st.tasks && st.tasks[id].userId == caller.value
  }

  /** The first failing access check for a handler that targets `id`: caller, then existence, then ownership. */
  function AccessError(st: Store, caller: Option<UserId>, id: TaskId): (r: Option<Error>)
    ensures r.None? <==> Owns(st, caller, id)
    ensures caller.None? ==> r == Some(NotAuthenticated)
    ensures caller.Some? && id !in st.tasks ==> r == Some(TaskNotFound)
    ensures caller.Some? && id in st.tasks && st.tasks[id].userId != caller.value ==> r == Some(Unauthorized)
  {
    if caller.None? then Some(NotAuthenticated)
    else if id !in st.tasks then Some(TaskNotFound)
    else if st.tasks[id].userId != caller.value then Some(Unauthorized)
    else None
  }

  /** Position `i` holds the first invalid verdict. */
  predicate FirstInvalidAt(verdicts: seq<Verdict>, i: int) {
    0 <= i < |verdicts| && !verdicts[i].valid && forall j :: 0 <= j < i ==> verdicts[j].valid
  }

  /** The message of the first invalid verdict, checked in order; `None` when all pass. */
  function FirstError(verdicts: seq<Verdict>): (r: Option<string>)
    requires forall i :: 0 <= i < |verdicts| ==> (verdicts[i].error.Some? <==> !verdicts[i].valid)
    ensures r.None? <==> forall i :: 0 <= i < |verdicts| ==> verdicts[i].valid
    ensures r.Some? ==> exists i :: FirstInvalidAt(verdicts, i) && verdicts[i].error == r
  {
    if |verdicts| == 0 then None
    else if !verdicts[0].valid then
      assert FirstInvalidAt(verdicts, 0);
      verdicts[0].error
    else
      var r := FirstError(verdicts[1..]);
      assert r.Some? ==> exists i :: FirstInvalidAt(verdicts, i) && verdicts[i].error == r by {
        if r.Some? {
          var i :| FirstInvalidAt(verdicts[1..], i) && verdicts[1..][i].error == r;
          assert FirstInvalidAt(verdicts, i + 1);
        }
      }
      r
  }

  /** The checks `create` runs, in order. */
  function CreateVerdicts(args: CreateArgs): (r: seq<Verdict>)
    ensures forall i :: 0 <= i < |r| ==> (r[i].error.Some? <==> !r[i].valid)
  {
    [ValidateTitle(args.title), ValidateDescription(args.description), ValidateDueDate(args.dueDate)]
  }

  /** The checks `update` runs, in order: one per supplied title, description and due date. */
  function UpdateVerdicts(args: UpdateArgs): (r: seq<Verdict>)
    ensures forall i :: 0 <= i < |r| ==> (r[i].error.Some? <==> !r[i].valid)
  {
    (if args.title.Some? then [ValidateTitle(args.title.value)] else [])
    + (if args.description.Some? then [ValidateDescription(args.description.value)] else [])
    + (if args.dueDate.Some? then [ValidateDueDate(args.dueDate)] else [])
  }

  /** A stored title is non-empty, trimmed and within 200 code units. */
  predicate StoredTitleOk(title: string) {
    |title| > 0 && IsTrimmed(title) && Utf16Length(title) <= MaxTitleLength
  }

  /** A stored description is trimmed and within 2000 code units. */
  predicate StoredDescriptionOk(description: string) {
    IsTrimmed(description) && Utf16Length(description) <= MaxDescriptionLength
  }

  /** The invariant every task written through the endpoints satisfies. */
  predicate WellFormed(t: Task) {
    && StoredTitleOk(t.title)
    && StoredDescriptionOk(t.description)
    && (t.dueDate.Some? ==> t.dueDate.value >= 0)
  }

  /** Trimming a title that passed validation yields a storable title. */
  lemma {:induction false} TrimmedTitleOk(title: string)
    requires ValidateTitle(title).valid
    ensures StoredTitleOk(Trim(title))
  {
    TrimEmptyIff(title);
    TrimShortens(title);
  }

  /** Trimming a description that passed validation yields a storable description. */
  lemma {:induction false} TrimmedDescriptionOk(description: string)
    requires ValidateDescription(description).valid
    ensures StoredDescriptionOk(Trim(description))
  {
    TrimShortens(description);
  }

  // ---------------------------------------------------------------------------
  // Queries

  /** `list`: the caller's tasks, newest first. */
  function List(st: Store, caller: Option<UserId>): (r: Result<seq<Task>, Error>)
    ensures r.Failure? <==> caller.None?
    ensures r.Failure? ==> r.error == NotAuthenticated
    ensures r.Success? ==> forall t :: t in r.value ==> t.userId == caller.value
  {
    if caller.None? then Failure(NotAuthenticated)
    else
      var ts := GetTasksByUserId(st, caller.value);
      assert forall t :: t in ts ==> InRange(ByUserId, UserKey(caller.value), t);
      Success(ts)
  }

  /** `listByStatus`: the caller's tasks with that status, newest first. */
  function ListByStatus(st: Store, caller: Option<UserId>, s: Status): (r: Result<seq<Task>, Error>)
    ensures r.Failure? <==> caller.None?
    ensures r.Failure? ==> r.error == NotAuthenticated
    ensures r.Success? ==> forall t :: t in r.value ==> t.userId == caller.value && t.status == s
  {
    if caller.None? then Failure(NotAuthenticated)
    else
      var ts := GetTasksByStatus(st, caller.value, s);
      assert forall t :: t in ts ==> t.userId == caller.value && t.status == s by {
        forall t | t in ts ensures t.userId == caller.value && t.status == s {
          InRangeMeansFieldsMatch(t, caller.value, s, Low);
        }
      }
      Success(ts)
  }

  /** `listByPriority`: the caller's tasks with that priority, newest first. */
  function ListByPriority(st: Store, caller: Option<UserId>, p: Priority): (r: Result<seq<Task>, Error>)
    ensures r.Failure? <==> caller.None?
    ensures r.Failure? ==> r.error == NotAuthenticated
    ensures r.Success? ==> forall t :: t in r.value ==> t.userId == caller.value && t.priority == p
  {
    if caller.None? then Failure(NotAuthenticated)
    else
      var ts := GetTasksByPriority(st, caller.value, p);
      assert forall t :: t in ts ==> t.userId == caller.value && t.priority == p by {
        forall t | t in ts ensures t.userId == caller.value && t.priority == p {
          InRangeMeansFieldsMatch(t, caller.value, Todo, p);
        }
      }
      Success(ts)
  }

  /** `get`: the task, to its owner only. */
  function Get(st: Store, caller: Option<UserId>, id: TaskId): (r: Result<Task, Error>)
    ensures r.Success? <==> Owns(st, caller, id)
    ensures r.Failure? ==> Some(r.error) == AccessError(st, caller, id)
    ensures r.Success? ==> r.value == st.tasks[id] && r.value.userId == caller.value
  {
    if caller.None? then Failure(NotAuthenticated)
    else
      match GetTaskById(st, id)
      case None => Failure(TaskNotFound)
      case Some(task) =>
        if task.userId != caller.value then Failure(Unauthorized)
        else Success(task)
  }

  // ---------------------------------------------------------------------------
  // Mutations

  /** The row `create` asks the data-access layer to insert. */
  function NewRow(caller: UserId, args: CreateArgs): NewTask {
    NewTask(caller, Trim(args.title), Trim(args.description), args.dueDate, args.priority, args.status.GetOr(Todo))
  }

  /**
   * `create`: once authenticated, the first failing check among title,
   * description and due date is reported; otherwise one new task owned by
   * the caller is inserted, with trimmed strings and status `todo` when
   * omitted.
   */
  function Create(st: Store, caller: Option<UserId>, args: CreateArgs, now: int): (r: Result<(Store, TaskId), Error>)
    ensures caller.None? ==> r == Failure(NotAuthenticated)
    ensures caller.Some? ==> (r.Success? <==>
      && HasNonWhitespace(args.title) && Utf16Length(args.title) <= MaxTitleLength
      && Utf16Length(args.description) <= MaxDescriptionLength
      && (args.dueDate.None? || args.dueDate.value >= 0))
    ensures caller.Some? && r.Failure? ==> IsValidationError(r.error)
    ensures r.Success? ==>
      var (st', id) := r.value;
      && (Valid(st) ==> id !in st.tasks && Valid(st'))
      && st'.tasks.Keys == st.tasks.Keys + {id}
      && OthersUnchanged(st.tasks, st'.tasks, id)
      && st'.tasks[id].userId == caller.value
      && st'.tasks[id].title == Trim(args.title)
      && st'.tasks[id].description == Trim(args.description)
      && st'.tasks[id].dueDate == args.dueDate
      && st'.tasks[id].priority == args.priority
      && (args.status.None? ==> st'.tasks[id].status == Todo)
      && (args.status.Some? ==> st'.tasks[id].status == args.status.value)
      && st'.tasks[id].createdAt == now && st'.tasks[id].updatedAt == now
      && WellFormed(st'.tasks[id])
  {
    if caller.None? then Failure(NotAuthenticated)
    else
      var titleCheck := ValidateTitle(args.title);
      if !titleCheck.valid then Failure(Thrown(titleCheck.error.value))
      else
        var descriptionCheck := ValidateDescription(args.description);
        if !descriptionCheck.valid then Failure(Thrown(descriptionCheck.error.value))
        else
          var dueDateCheck := ValidateDueDate(args.dueDate);
          if !dueDateCheck.valid then Failure(Thrown(dueDateCheck.error.value))
          else
            TrimmedTitleOk(args.title);
            TrimmedDescriptionOk(args.description);
            Success(CreateTask(st, NewRow(caller.value, args), now))
  }

  /** The patch `update` forwards: only the supplied fields, with strings trimmed. */
  function Forwarded(args: UpdateArgs): TaskPatch {
    TaskPatch(
      if args.title.Some? then Some(Trim(args.title.value)) else None,
      if args.description.Some? then Some(Trim(args.description.value)) else None,
      args.dueDate,
      args.priority,
      args.status)
  }

  /** When every supplied field passed validation, the forwarded strings are storable. */
  lemma {:induction false} ForwardedOk(args: UpdateArgs)
    requires args.title.Some? ==> ValidateTitle(args.title.value).valid
    requires args.description.Some? ==> ValidateDescription(args.description.value).valid
    ensures Forwarded(args).title.Some? ==> StoredTitleOk(Forwarded(args).title.value)
    ensures Forwarded(args).description.Some? ==> StoredDescriptionOk(Forwarded(args).description.value)
  {
    if args.title.Some? {
      TrimmedTitleOk(args.title.value);
    }
    if args.description.Some? {
      TrimmedDescriptionOk(args.description.value);
    }
  }

  /**
   * `update`: the access checks run before any field is validated; then the
   * first invalid supplied field is reported; otherwise only the supplied
   * fields are overwritten (strings trimmed) and `updatedAt` is refreshed.
   */
  function Update(st: Store, caller: Option<UserId>, id: TaskId, args: UpdateArgs, now: int): (r: Result<Store, Error>)
    ensures AccessError(st, caller, id).Some? ==> r == Failure(AccessError(st, caller, id).value)
    ensures Owns(st, caller, id) ==> (r.Success? <==>
      && (args.title.Some? ==> HasNonWhitespace(args.title.value) && Utf16Length(args.title.value) <= MaxTitleLength)
      && (args.description.Some? ==> Utf16Length(args.description.value) <= MaxDescriptionLength)
      && (args.dueDate.Some? ==> args.dueDate.value >= 0))
    ensures Owns(st, caller, id) && r.Failure? ==> IsValidationError(r.error)
    ensures r.Success? ==>
      && Owns(st, caller, id)
      && r.value.nextId == st.nextId
      && r.value.tasks.Keys == st.tasks.Keys
      && OthersUnchanged(st.tasks, r.value.tasks, id)
      && PatchedFrom(st.tasks[id], r.value.tasks[id], Forwarded(args), now)
      && (args.title.Some? ==> StoredTitleOk(r.value.tasks[id].title))
      && (args.description.Some? ==> StoredDescriptionOk(r.value.tasks[id].description))
      && (WellFormed(st.tasks[id]) ==> WellFormed(r.value.tasks[id]))
  {
    if caller.None? then Failure(NotAuthenticated)
    else
      match GetTaskById(st, id)
      case None => Failure(TaskNotFound)
      case Some(task) =>
        if task.userId != caller.value then Failure(Unauthorized)
        else if args.title.Some? && !ValidateTitle(args.title.value).valid then
          Failure(Thrown(ValidateTitle(args.title.value).error.value))
        else if args.description.Some? && !ValidateDescription(args.description.value).valid then
          Failure(Thrown(ValidateDescription(args.description.value).error.value))
        else if args.dueDate.Some? && !ValidateDueDate(args.dueDate).valid then
          Failure(Thrown(ValidateDueDate(args.dueDate).error.value))
        else
          ForwardedOk(args);
          match UpdateTask(st, id, Forwarded(args), now)
          case Success(st') => Success(st')
          case Failure(e) => Failure(StoreFailure(e))
  }

  /** `remove`: deletes the caller's own task and nothing else. */
  function Remove(st: Store, caller: Option<UserId>, id: TaskId): (r: Result<Store, Error>)
    ensures r.Success? <==> Owns(st, caller, id)
    ensures r.Failure? ==> Some(r.error) == AccessError(st, caller, id)
    ensures r.Success? ==>
      && r.value.nextId == st.nextId
      && r.value.tasks.Keys == st.tasks.Keys - {id}
      && OthersUnchanged(st.tasks, r.value.tasks, id)
  {
    if caller.None? then Failure(NotAuthenticated)
    else
      match GetTaskById(st, id)
      case None => Failure(TaskNotFound)
      case Some(task) =>
        if task.userId != caller.value then Failure(Unauthorized)
        else
          match DeleteTask(st, id)
          case Success(st') => Success(st')
          case Failure(e) => Failure(StoreFailure(e))
  }

  /** `markComplete`: sets the caller's own task to done and refreshes `updatedAt`. */
  function MarkComplete(st: Store, caller: Option<UserId>, id: TaskId, now: int): (r: Result<Store, Error>)
    ensures r.Success? <==> Owns(st, caller, id)
    ensures r.Failure? ==> Some(r.error) == AccessError(st, caller, id)
    ensures r.Success? ==>
      && r.value.nextId == st.nextId
      && r.value.tasks.Keys == st.tasks.Keys
      && OthersUnchanged(st.tasks, r.value.tasks, id)
      && r.value.tasks[id] == st.tasks[id].(status := Done, updatedAt := now)
  {
    if caller.None? then Failure(NotAuthenticated)
    else
      match GetTaskById(st, id)
      case None => Failure(TaskNotFound)
      case Some(task) =>
        if task.userId != caller.value then Failure(Unauthorized)
        else
          match MarkTaskComplete(st, id, now)
          case Success(st') => Success(st')
          case Failure(e) => Failure(StoreFailure(e))
  }

  // ---------------------------------------------------------------------------
  // Which error wins

  /** Checking a list in order: a leading failure wins, a leading pass defers to the rest. */
  lemma {:induction false} FirstErrorCons(v: Verdict, rest: seq<Verdict>)
    requires v.error.Some? <==> !v.valid
    requires forall i :: 0 <= i < |rest| ==> (rest[i].error.Some? <==> !rest[i].valid)
    ensures FirstError([v] + rest) == if !v.valid then v.error else FirstError(rest)
  {
    assert ([v] + rest)[1..] == rest;
  }

  /** An authenticated `create` fails exactly when one of its checks fails, and reports the first of title, description, due date. */
  lemma {:induction false} CreateReportsFirstError(st: Store, caller: UserId, args: CreateArgs, now: int)
    ensures Create(st, Some(caller), args, now).Failure? <==> FirstError(CreateVerdicts(args)).Some?
    ensures Create(st, Some(caller), args, now).Failure? ==>
      Create(st, Some(caller), args, now).error == Thrown(FirstError(CreateVerdicts(args)).value)
  {
    var t, d, dd := ValidateTitle(args.title), ValidateDescription(args.description), ValidateDueDate(args.dueDate);
    FirstErrorCons(dd, []);
    FirstErrorCons(d, [dd]);
    FirstErrorCons(t, [d, dd]);
    assert [d] + [dd] == [d, dd];
    assert [t] + [d, dd] == CreateVerdicts(args);
  }

  /**
   * Once the caller owns the task, `update` fails exactly when a supplied
   * field is invalid, and reports the first one among title, description,
   * due date.
   */
  lemma {:induction false} UpdateReportsFirstError(st: Store, caller: Option<UserId>, id: TaskId, args: UpdateArgs, now: int)
    requires Owns(st, caller, id)
    ensures Update(st, caller, id, args, now).Failure? <==> FirstError(UpdateVerdicts(args)).Some?
    ensures Update(st, caller, id, args, now).Failure? ==>
      Update(st, caller, id, args, now).error == Thrown(FirstError(UpdateVerdicts(args)).value)
  {
    var ts := if args.title.Some? then [ValidateTitle(args.title.value)] else [];
    var ds := if args.description.Some? then [ValidateDescription(args.description.value)] else [];
    var dds := if args.dueDate.Some? then [ValidateDueDate(args.dueDate)] else [];
    assert UpdateVerdicts(args) == ts + (ds + dds);
    if args.dueDate.Some? { FirstErrorCons(dds[0], []); assert dds == [dds[0]] + []; }
    if args.description.Some? { FirstErrorCons(ds[0], dds); }
    if args.title.Some? { FirstErrorCons(ts[0], ds + dds); }
  }

  /** Ownership is checked before validation: another user's task is refused even with invalid fields. */
  lemma {:induction false} UpdateForeignTaskUnauthorized(st: Store, caller: UserId, id: TaskId, args: UpdateArgs, now: int)
    requires id in st.tasks && st.tasks[id].userId != caller
    ensures Update(st, Some(caller), id, args, now) == Failure(Unauthorized)
  {
  }

  // ---------------------------------------------------------------------------
  // Scenarios

  /**
   * Creating "Buy milk" with priority low and no status yields a todo task
   * that the todo list shows and the high-priority list does not; once
   * removed, fetching it reports that it is not found.
   */
  lemma {:induction false} BuyMilkScenario(st: Store, u: UserId, now: int)
    requires Valid(st)
    ensures var r := Create(st, Some(u), CreateArgs("Buy milk", "2%", None, Low, None), now);
      && r.Success?
      && var (st1, id) := r.value;
      && st1.tasks[id].status == Todo
      && st1.tasks[id].createdAt == st1.tasks[id].updatedAt
      && st1.tasks[id] in ListByStatus(st1, Some(u), Todo).value
      && st1.tasks[id] !in ListByPriority(st1, Some(u), High).value
      && Remove(st1, Some(u), id).Success?
      && Get(Remove(st1, Some(u), id).value, Some(u), id) == Failure(TaskNotFound)
  {
    var args := CreateArgs("Buy milk", "2%", None, Low, None);
    assert !IsWhitespace(args.title[0]);
    Utf16LengthBounds(args.title);
    Utf16LengthBounds(args.description);
    var r := Create(st, Some(u), args, now);
    assert r.Success?;
    var (st1, id) := r.value;
    assert Valid(st1);
    ListByStatusExact(st1, u, Todo);
    ListByPriorityExact(st1, u, High);
    var t := st1.tasks[id];
    assert t.id == id && t.userId == u && t.status == Todo;
    assert t in ListByStatus(st1, Some(u), Todo).value;
    assert Remove(st1, Some(u), id).Success?;
  }

  /** "  New Title  " is an acceptable title, and trimming it keeps "New Title". */
  lemma {:induction false} TrimNewTitle()
    ensures Trim("  New Title  ") == "New Title"
    ensures ValidateTitle("  New Title  ").valid
  {
    var pad, mid := "  ", "New Title";
    assert IsWhitespace(pad[0]) && IsWhitespace(pad[1]);
    assert !IsWhitespace(mid[0]) && !IsWhitespace(mid[8]);
    assert pad + mid + pad == "  New Title  ";
    TrimStripsPadding(pad, mid, pad);
    Utf16LengthBounds("  New Title  ");
  }

  /** Renaming to "  New Title  " stores "New Title". */
  lemma {:induction false} RenameIsTrimmed(st: Store, u: UserId, id: TaskId, now: int)
    requires Owns(st, Some(u), id)
    ensures var r := Update(st, Some(u), id, NoChanges.(title := Some("  New Title  ")), now);
      r.Success? && r.value.tasks[id].title == "New Title"
  {
    TrimNewTitle();
    var changes := NoChanges.(title := Some("  New Title  "));
    var r := Update(st, Some(u), id, changes, now);
    assert r.Success?;
    assert Forwarded(changes).title == Some("New Title");
  }
}
