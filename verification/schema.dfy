/**
 * The `tasks` table: the record shape, the two closed enumerations and the
 * composite indexes whose equality lookups the list queries rely on.
 */
module Schema {
  import opened Wrappers

  /** Identity of an authenticated user, as the auth provider reports it. */
  type UserId = string

  /**
   * Document id of a task. Ids are drawn from a counter that only grows, so a
   * larger id means a later insertion; the id stands for both `_id` and the
   * `_creationTime` that orders equal index keys.
   */
  type TaskId = nat

  datatype Priority = Low | Medium | High

  datatype Status = Todo | InProgress | Done

  /** The string literal stored for a priority. */
  function PriorityName(p: Priority): string {
    match p
    case Low => "low"
    case Medium => "medium"
    case High => "high"
  }

  /** The string literal stored for a status. */
  function StatusName(s: Status): string {
    match s
    case Todo => "todo"
    case InProgress => "in-progress"
    case Done => "done"
  }

  /** Distinct priorities are stored as distinct strings, so a stored string determines the priority. */
  lemma {:induction false} PriorityNameInjective(p: Priority, q: Priority)
    ensures PriorityName(p) == PriorityName(q) <==> p == q
  {
    if p != q {
      assert PriorityName(p)[0] != PriorityName(q)[0];
    }
  }

  /** Distinct statuses are stored as distinct strings, so a stored string determines the status. */
  lemma {:induction false} StatusNameInjective(s: Status, t: Status)
    ensures StatusName(s) == StatusName(t) <==> s == t
  {
    if s != t {
      assert StatusName(s)[0] != StatusName(t)[0];
    }
  }

  /** One row of the `tasks` table, together with its document id. */
  datatype Task = Task(
    id: TaskId,
    userId: UserId,
    title: string,
    description: string,
    dueDate: Option<int>,
    priority: Priority,
    status: Status,
    createdAt: int,
    updatedAt: int)

  /** The five indexes declared on the table. */
  datatype Index = ByUserId | ByUserIdStatus | ByUserIdPriority | ByUserIdDueDate | ByUserIdCreatedAt

  /** One component of an index key; `Missing` is the key of an absent optional field. */
  datatype KeyPart = Text(text: string) | Number(number: int) | Missing

  /** The key under which `t` is filed in `index`, one component per indexed field. */
  function IndexKey(index: Index, t: Task): (key: seq<KeyPart>)
    ensures |key| == if index == ByUserId then 1 else 2
    ensures key[0] == Text(t.userId)
  {
    match index
    case ByUserId => [Text(t.userId)]
    case ByUserIdStatus => [Text(t.userId), Text(StatusName(t.status))]
    case ByUserIdPriority => [Text(t.userId), Text(PriorityName(t.priority))]
    case ByUserIdDueDate => [Text(t.userId), if t.dueDate.Some? then Number(t.dueDate.value) else Missing]
    case ByUserIdCreatedAt => [Text(t.userId), Number(t.createdAt)]
  }

  /** The index range `q.eq(..)...eq(..)`: rows whose key starts with `prefix`. */
  predicate InRange(index: Index, prefix: seq<KeyPart>, t: Task) {
    var key := IndexKey(index, t);
    |prefix| <= |key| && key[..|prefix|] == prefix
  }

  /** The equality lookups the list queries issue: on the owner, and on the owner plus status or priority. */
  function UserKey(u: UserId): seq<KeyPart> {
    [Text(u)]
  }

  function UserStatusKey(u: UserId, s: Status): seq<KeyPart> {
    [Text(u), Text(StatusName(s))]
  }

  function UserPriorityKey(u: UserId, p: Priority): seq<KeyPart> {
    [Text(u), Text(PriorityName(p))]
  }

  /** An equality lookup on both keys of a composite index is a filter on both fields. */
  lemma {:induction false} InRangeMeansFieldsMatch(t: Task, u: UserId, s: Status, p: Priority)
    ensures InRange(ByUserId, UserKey(u), t) <==> t.userId == u
    ensures InRange(ByUserIdStatus, UserStatusKey(u, s), t) <==> t.userId == u && t.status == s
    ensures InRange(ByUserIdPriority, UserPriorityKey(u, p), t) <==> t.userId == u && t.priority == p
  {
    StatusNameInjective(t.status, s);
    PriorityNameInjective(t.priority, p);
    var ks := IndexKey(ByUserIdStatus, t);
    assert ks[..2] == ks;
    var kp := IndexKey(ByUserIdPriority, t);
    assert kp[..2] == kp;
  }
}
