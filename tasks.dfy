/** The task record shared by the in-memory store and the board, and the
    record-level and list-level transforms both of them apply. */
module Tasks {
  import opened Seqs

  /** Task ids are opaque strings produced by `generateId`. */
  type TaskId = string

  datatype Option<T> = None | Some(value: T)

  /** The one way a store call can fail (rejected with the message "Task not found"). */
  datatype Error = NotFound

  /** A store call's outcome: a resolved value or a rejection. */
  datatype Result<T> = Ok(value: T) | Err(error: Error)

  /** A task record. Timestamps are clock readings; `status` and `priority`
      are free strings because the store does not validate them. */
  datatype Task = Task(
    id: TaskId,
    title: string,
    description: string,
    status: string,
    priority: string,
    createdAt: nat,
    updatedAt: nat)

  /** The fields a caller may pass when creating or updating a task: the four
      fields the task form submits, plus `updatedAt`, which a caller may also
      put in an update. `None` means the key is absent from the object. */
  datatype TaskFields = TaskFields(
    title: Option<string>,
    description: Option<string>,
    status: Option<string>,
    priority: Option<string>,
    updatedAt: Option<nat>)

  /** What the task form submits: all four form fields. */
  function FormData(title: string, description: string, status: string, priority: string): TaskFields {
    TaskFields(Some(title), Some(description), Some(status), Some(priority), None)
  }

  /** The three board columns. */
  predicate ValidStatus(s: string) {
    s == "todo" || s == "inprogress" || s == "done"
  }

  predicate ValidPriority(p: string) {
    p == "low" || p == "medium" || p == "high"
  }

  /** JavaScript's `value || fallback` on an optional string: a missing value
      and the (falsy) empty string both give the fallback. */
  function OrElse(o: Option<string>, fallback: string): (r: string)
    ensures (o == None || o == Some("")) ==> r == fallback
    ensures o.Some? && o.value != "" ==> r == o.value
  {
    if o.Some? && o.value != "" then o.value else fallback
  }

  /** The value a spread `{...old, ...fields}` leaves for one key. */
  function Override<T>(o: Option<T>, current: T): (r: T)
    ensures o.Some? ==> r == o.value
    ensures o.None? ==> r == current
  {
    match o
    case Some(v) => v
    case None => current
  }

  /** A freshly created task: the given id, defaults for missing or empty
      fields, both timestamps set to `now`. */
  function NewTask(f: TaskFields, id: TaskId, now: nat): (t: Task)
    ensures t.id == id && t.createdAt == now && t.updatedAt == now
    ensures f.title.Some? && f.title.value != "" ==> t.title == f.title.value
    ensures f.title.None? || f.title == Some("") ==> t.title == ""
    ensures f.description.Some? && f.description.value != "" ==> t.description == f.description.value
    ensures f.description.None? || f.description == Some("") ==> t.description == ""
    ensures f.status.Some? && f.status.value != "" ==> t.status == f.status.value
    ensures f.status.None? || f.status == Some("") ==> t.status == "todo"
    ensures f.priority.Some? && f.priority.value != "" ==> t.priority == f.priority.value
    ensures f.priority.None? || f.priority == Some("") ==> t.priority == "medium"
    ensures ValidStatus(t.status) <==> f.status.None? || f.status == Some("") || ValidStatus(f.status.value)
    ensures ValidPriority(t.priority) <==> f.priority.None? || f.priority == Some("") || ValidPriority(f.priority.value)
  {
    Task(id, OrElse(f.title, ""), OrElse(f.description, ""), OrElse(f.status, "todo"),
         OrElse(f.priority, "medium"), now, now)
  }

  /** `{...t, ...f, updatedAt: now}`: supplied fields replace the old ones,
      and `updatedAt` is stamped last, so any supplied value is lost. */
  function Overlay(t: Task, f: TaskFields, now: nat): (r: Task)
    ensures r.id == t.id && r.createdAt == t.createdAt && r.updatedAt == now
    ensures f.title.Some? ==> r.title == f.title.value
    ensures f.title.None? ==> r.title == t.title
    ensures f.description.Some? ==> r.description == f.description.value
    ensures f.description.None? ==> r.description == t.description
    ensures f.status.Some? ==> r.status == f.status.value
    ensures f.status.None? ==> r.status == t.status
    ensures f.priority.Some? ==> r.priority == f.priority.value
    ensures f.priority.None? ==> r.priority == t.priority
  {
    t.(title := Override(f.title, t.title),
       description := Override(f.description, t.description),
       status := Override(f.status, t.status),
       priority := Override(f.priority, t.priority),
       updatedAt := Override(f.updatedAt, t.updatedAt))
     .(updatedAt := now)
  }

  /** `{...t, status: s, updatedAt: now}`. */
  function WithStatus(t: Task, s: string, now: nat): (r: Task)
    ensures r.status == s && r.updatedAt == now
    ensures r.(status := t.status, updatedAt := t.updatedAt) == t
  {
    t.(status := s, updatedAt := now)
  }

  /** `Array.prototype.findIndex` on ids: the first position holding `id`,
      or -1 when no task has it. */
  function FindIndex(ts: seq<Task>, id: TaskId): (r: int)
    ensures -1 <= r < |ts|
    ensures r >= 0 ==> ts[r].id == id && forall j | 0 <= j < r :: ts[j].id != id
    ensures r == -1 <==> forall j | 0 <= j < |ts| :: ts[j].id != id
  {
    if ts == [] then -1
    else if ts[0].id == id then 0
    else
      var k := FindIndex(ts[1..], id);
      if k == -1 then -1 else k + 1
  }

  /** True when no task in `ts` has the id `id`. */
  predicate Absent(ts: seq<Task>, id: TaskId) {
    forall i | 0 <= i < |ts| :: ts[i].id != id
  }

  /** The filter condition `task => task.id !== id`. */
  function HasOtherId(id: TaskId): Task -> bool {
    (t: Task) => t.id != id
  }

  /** `ts.filter(task => task.id !== id)`. */
  function RemoveId(ts: seq<Task>, id: TaskId): (r: seq<Task>)
    ensures Absent(r, id)
    ensures forall i | 0 <= i < |r| :: r[i] in ts
    ensures forall i | 0 <= i < |ts| :: ts[i].id != id ==> ts[i] in r
    ensures forall t: Task :: multiset(r)[t] == if t.id == id then 0 else multiset(ts)[t]
    ensures IsSubsequence(r, ts)
    ensures |r| == |ts| <==> Absent(ts, id)
    ensures Absent(ts, id) ==> r == ts
  {
    FilterIsSubsequence(ts, HasOtherId(id));
    FilterCounts(ts, HasOtherId(id));
    FilterKeepsAll(ts, HasOtherId(id));
    Filter(ts, HasOtherId(id))
  }

  /** Removing an id a second time changes nothing. */
  lemma RemoveIdIdempotent(ts: seq<Task>, id: TaskId)
    ensures RemoveId(RemoveId(ts, id), id) == RemoveId(ts, id)
  {
    FilterIdempotent(ts, HasOtherId(id));
  }

  /** `ts.map(task => task.id === id ? f(task) : task)`. */
  function UpdateWhere(ts: seq<Task>, id: TaskId, f: Task -> Task): (r: seq<Task>)
    ensures |r| == |ts|
    ensures forall i | 0 <= i < |ts| :: r[i] == if ts[i].id == id then f(ts[i]) else ts[i]
  {
    if ts == [] then []
    else [if ts[0].id == id then f(ts[0]) else ts[0]] + UpdateWhere(ts[1..], id, f)
  }

  /** No two tasks share an id. */
  predicate UniqueIds(ts: seq<Task>) {
    forall i, j | 0 <= i < j < |ts| :: ts[i].id != ts[j].id
  }

  /** Every task was updated no earlier than it was created, and no timestamp
      is later than `now`. */
  predicate StampsUpTo(ts: seq<Task>, now: nat) {
    forall i | 0 <= i < |ts| :: ts[i].createdAt <= ts[i].updatedAt <= now
  }

  /** With unique ids, changing the first task with `id` is the same as
      changing every task with `id`. */
  lemma {:induction false} FirstIsAll(ts: seq<Task>, id: TaskId, f: Task -> Task)
    requires UniqueIds(ts)
    requires FindIndex(ts, id) >= 0
    ensures ts[FindIndex(ts, id) := f(ts[FindIndex(ts, id)])] == UpdateWhere(ts, id, f)
  {
    var i := FindIndex(ts, id);
    var a, b := ts[i := f(ts[i])], UpdateWhere(ts, id, f);
    forall j | 0 <= j < |ts|
      ensures a[j] == b[j]
    {
      if j < i {
        assert ts[j].id != id;
      } else if i < j {
        assert ts[i].id != ts[j].id;
      }
    }
  }

  /** Removing tasks keeps ids unique. */
  lemma {:induction false} FilterKeepsUnique(ts: seq<Task>, keep: Task -> bool)
    requires UniqueIds(ts)
    ensures UniqueIds(Filter(ts, keep))
  {
    if ts != [] {
      var rest := Filter(ts[1..], keep);
      FilterKeepsUnique(ts[1..], keep);
      forall j | 0 <= j < |rest|
        ensures rest[j].id != ts[0].id
      {
        var k :| 0 <= k < |ts[1..]| && ts[1..][k] == rest[j];
        assert ts[k + 1] == rest[j];
      }
    }
  }

  lemma RemoveIdKeepsUnique(ts: seq<Task>, id: TaskId)
    requires UniqueIds(ts)
    ensures UniqueIds(RemoveId(ts, id))
  {
    FilterKeepsUnique(ts, HasOtherId(id));
  }

  /** Appending a task whose id is fresh keeps ids unique, and the new task is
      what a lookup of its id finds. */
  lemma {:induction false} AppendFresh(ts: seq<Task>, t: Task)
    requires UniqueIds(ts)
    requires Absent(ts, t.id)
    ensures UniqueIds(ts + [t])
    ensures FindIndex(ts + [t], t.id) == |ts|
  {
    if ts != [] {
      assert (ts + [t])[1..] == ts[1..] + [t];
      AppendFresh(ts[1..], t);
    }
  }

  /** The sample tasks both the store and the board start with, one per
      column, with ids from `generateId` and the start-up time. */
  function InitialTasks(id0: TaskId, id1: TaskId, id2: TaskId, now: nat): (ts: seq<Task>)
    ensures |ts| == 3
    ensures ts[0].id == id0 && ts[1].id == id1 && ts[2].id == id2
    ensures ts[0].status == "todo" && ts[1].status == "inprogress" && ts[2].status == "done"
    ensures ts[0].priority == "high" && ts[1].priority == "medium" && ts[2].priority == "low"
    ensures StampsUpTo(ts, now)
    ensures UniqueIds(ts) <==> id0 != id1 && id1 != id2 && id0 != id2
  {
    [ Task(id0, "Research project requirements",
           "Gather all necessary information for the upcoming project", "todo", "high", now, now),
      Task(id1, "Design user interface mockups",
           "Create wireframes for the main dashboard", "inprogress", "medium", now, now),
      Task(id2, "Update documentation",
           "Update the API documentation with new endpoints", "done", "low", now, now) ]
  }
}
