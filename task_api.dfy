/** The in-memory task store: one collection of tasks, owned by the store and
    changed only through its operations. Each operation completes at once
    (the JavaScript wraps results in already-settled promises). */
module TaskApi {
  import opened Seqs
  import opened Tasks

  class TaskStore {
    /** The store's collection, in insertion order. */
    var tasks: seq<Task>

    /** The store's invariant: ids are unique. */
    ghost predicate Valid()
      reads this
    {
      UniqueIds(tasks)
    }

    /** The store as the module loads: the three sample tasks. */
    constructor (id0: TaskId, id1: TaskId, id2: TaskId, now: nat)
      requires id0 != id1 && id1 != id2 && id0 != id2
      ensures Valid()
      ensures tasks == InitialTasks(id0, id1, id2, now)
    {
      tasks := InitialTasks(id0, id1, id2, now);
    }

    /** A copy of the whole collection. */
    method GetAllTasks() returns (r: seq<Task>)
      ensures r == tasks
    {
      r := tasks;
    }

    /** The first task with `id`, or `None` (JavaScript `null`). */
    method GetTaskById(id: TaskId) returns (r: Option<Task>)
      ensures r.None? <==> Absent(tasks, id)
      ensures r.Some? ==> exists i | 0 <= i < |tasks| ::
                tasks[i] == r.value && r.value.id == id && forall j | 0 <= j < i :: tasks[j].id != id
    {
      var i := FindIndex(tasks, id);
      if i == -1 {
        r := None;
      } else {
        r := Some(tasks[i]);
      }
    }

    /** Builds a task with defaults and the fresh id, appends it and returns it. */
    method CreateTask(data: TaskFields, newId: TaskId, now: nat) returns (t: Task)
      requires Valid()
      requires Absent(tasks, newId)
      modifies this
      ensures Valid()
      ensures t == NewTask(data, newId, now)
      ensures tasks == old(tasks) + [t]
      ensures FindIndex(tasks, newId) == |old(tasks)|
      ensures StampsUpTo(old(tasks), now) ==> StampsUpTo(tasks, now)
    {
      t := NewTask(data, newId, now);
      AppendFresh(tasks, t);
      tasks := tasks + [t];
    }

    /** Overlays `data` on the first task with `id`, stamps it, and stores it
        in that task's place; rejects when no task has `id`. */
    method UpdateTask(id: TaskId, data: TaskFields, now: nat) returns (r: Result<Task>)
      requires Valid()
      modifies this
      ensures Valid()
      ensures r.Err? <==> Absent(old(tasks), id)
      ensures r.Err? ==> r.error == NotFound && tasks == old(tasks)
      ensures r.Ok? ==> var i := FindIndex(old(tasks), id);
                0 <= i && r.value == Overlay(old(tasks)[i], data, now) && tasks == old(tasks)[i := r.value]
      ensures StampsUpTo(old(tasks), now) ==> StampsUpTo(tasks, now)
    {
      var taskIndex := FindIndex(tasks, id);
      if taskIndex == -1 {
        return Err(NotFound);
      }
      var updatedTask := Overlay(tasks[taskIndex], data, now);
      tasks := tasks[taskIndex := updatedTask];
      r := Ok(updatedTask);
    }

    /** Sets the status of the first task with `id` to any string and stamps
        it; rejects when no task has `id`. */
    method UpdateTaskStatus(id: TaskId, newStatus: string, now: nat) returns (r: Result<Task>)
      requires Valid()
      modifies this
      ensures Valid()
      ensures r.Err? <==> Absent(old(tasks), id)
      ensures r.Err? ==> r.error == NotFound && tasks == old(tasks)
      ensures r.Ok? ==> var i := FindIndex(old(tasks), id);
                0 <= i && r.value == WithStatus(old(tasks)[i], newStatus, now) && tasks == old(tasks)[i := r.value]
      ensures StampsUpTo(old(tasks), now) ==> StampsUpTo(tasks, now)
    {
      var taskIndex := FindIndex(tasks, id);
      if taskIndex == -1 {
        return Err(NotFound);
      }
      var updatedTask := WithStatus(tasks[taskIndex], newStatus, now);
      tasks := tasks[taskIndex := updatedTask];
      r := Ok(updatedTask);
    }

    /** Removes every task with `id`; rejects when that removed nothing. */
    method DeleteTask(id: TaskId) returns (r: Result<bool>)
      requires Valid()
      modifies this
      ensures Valid()
      ensures tasks == RemoveId(old(tasks), id)
      ensures r.Err? <==> Absent(old(tasks), id)
      ensures r.Err? ==> r.error == NotFound && tasks == old(tasks)
      ensures r.Ok? ==> r.value
      ensures forall n: nat :: StampsUpTo(old(tasks), n) ==> StampsUpTo(tasks, n)
    {
      var initialLength := |tasks|;
      RemoveIdKeepsUnique(tasks, id);
      tasks := RemoveId(tasks, id);
      if |tasks| == initialLength {
        r := Err(NotFound);
      } else {
        r := Ok(true);
      }
    }
  }

  /** Deleting the same id twice: the second call rejects with NotFound and
      leaves the collection as the first call left it. */
  method DeleteTwice(store: TaskStore, id: TaskId) returns (first: Result<bool>, second: Result<bool>)
    requires store.Valid()
    modifies store
    ensures store.Valid()
    ensures first.Ok? <==> !Absent(old(store.tasks), id)
    ensures second == Err(NotFound)
    ensures store.tasks == RemoveId(old(store.tasks), id)
  {
    first := store.DeleteTask(id);
    second := store.DeleteTask(id);
  }

  /** Creating a task and then looking up its id finds the new task, with the
      default status and priority when the caller gives none. */
  method CreateThenGet(store: TaskStore, data: TaskFields, newId: TaskId, now: nat) returns (found: Option<Task>)
    requires store.Valid()
    requires Absent(store.tasks, newId)
    modifies store
    ensures store.Valid()
    ensures found == Some(NewTask(data, newId, now))
    ensures data.status.None? ==> found.value.status == "todo"
    ensures data.priority.None? ==> found.value.priority == "medium"
  {
    var t := store.CreateTask(data, newId, now);
    found := store.GetTaskById(newId);
  }
}
