/** The board's own task list and the transforms its handlers hand to React's
    state setter. The board keeps this list by itself; it never calls the store. */
module KanbanBoard {
  import opened Seqs
  import opened Tasks

  /** The tasks whose status is exactly `status`, in list order. */
  function Column(ts: seq<Task>, status: string): (r: seq<Task>)
    ensures forall i | 0 <= i < |r| :: r[i] in ts && r[i].status == status
    ensures forall i | 0 <= i < |ts| :: ts[i].status == status ==> ts[i] in r
  {
    Filter(ts, HasStatus(status))
  }

  /** The filter condition `task => task.status === status`. */
  function HasStatus(status: string): Task -> bool {
    (t: Task) => t.status == status
  }

  function TodoTasks(ts: seq<Task>): seq<Task> { Column(ts, "todo") }
  function InProgressTasks(ts: seq<Task>): seq<Task> { Column(ts, "inprogress") }
  function DoneTasks(ts: seq<Task>): seq<Task> { Column(ts, "done") }

  /** A finished drag: the dragged task's id and the id of the droppable it
      ended over, if any (a column's droppable id is its status). */
  datatype DragEvent = DragEvent(active: TaskId, over: Option<string>)

  /** `ts.map(task => task.id === id ? {...task, status, updatedAt: now} : task)`. */
  function MoveTo(ts: seq<Task>, id: TaskId, status: string, now: nat): seq<Task> {
    UpdateWhere(ts, id, (t: Task) => WithStatus(t, status, now))
  }

  /** The list after a drag ends. */
  function HandleDragEnd(ts: seq<Task>, e: DragEvent, now: nat): (r: seq<Task>)
    ensures e.over.None? || !ValidStatus(e.over.value) ==> r == ts
    ensures |r| == |ts|
    ensures forall i | 0 <= i < |ts| :: r[i].id == ts[i].id
    ensures e.over.Some? && ValidStatus(e.over.value) ==>
              forall i | 0 <= i < |ts| ::
                if ts[i].id == e.active then r[i] == WithStatus(ts[i], e.over.value, now) else r[i] == ts[i]
    ensures Absent(ts, e.active) ==> r == ts
  {
    if e.over.None? then ts
    else
      var newStatus := e.over.value;
      if newStatus != "todo" && newStatus != "inprogress" && newStatus != "done" then ts
      else MoveTo(ts, e.active, newStatus, now)
  }

  /** The list after the task form is saved: with a task being edited, the
      form data overlays every task with that task's id; otherwise a new task
      with `newId` is appended. */
  function HandleSaveTask(ts: seq<Task>, editingTask: Option<Task>, taskData: TaskFields,
                          newId: TaskId, now: nat): (r: seq<Task>)
    ensures editingTask.Some? ==>
              |r| == |ts| &&
              forall i | 0 <= i < |ts| ::
                if ts[i].id == editingTask.value.id then r[i] == Overlay(ts[i], taskData, now) else r[i] == ts[i]
    ensures editingTask.None? ==>
              |r| == |ts| + 1 && r[..|ts|] == ts && r[|ts|] == NewTask(taskData, newId, now)
  {
    match editingTask
    case Some(editing) => UpdateWhere(ts, editing.id, (t: Task) => Overlay(t, taskData, now))
    case None => ts + [NewTask(taskData, newId, now)]
  }

  /** The list after a task is deleted. */
  function HandleDeleteTask(ts: seq<Task>, taskId: TaskId): (r: seq<Task>)
    ensures Absent(r, taskId)
    ensures IsSubsequence(r, ts)
    ensures forall i | 0 <= i < |ts| :: ts[i].id != taskId ==> ts[i] in r
    ensures forall t: Task :: multiset(r)[t] == if t.id == taskId then 0 else multiset(ts)[t]
    ensures Absent(ts, taskId) ==> r == ts
  {
    RemoveId(ts, taskId)
  }

  /** Saving the task form while editing sets all four form fields of every
      task with the edited id to the submitted values; when the status is one
      of the form's three options, each such task is then shown in that
      status's column and in no other. */
  lemma FormEditSetsFields(ts: seq<Task>, editing: Task, title: string, description: string,
                           status: string, priority: string, newId: TaskId, now: nat, i: nat, other: string)
    requires i < |ts| && ts[i].id == editing.id
    requires other != status
    ensures var r := HandleSaveTask(ts, Some(editing), FormData(title, description, status, priority), newId, now);
              r[i].title == title && r[i].description == description &&
              r[i].status == status && r[i].priority == priority &&
              r[i].id == ts[i].id && r[i].createdAt == ts[i].createdAt && r[i].updatedAt == now &&
              (ValidStatus(status) ==> r[i] in Column(r, status) && r[i] !in Column(r, other))
  {
  }

  /** Deleting twice gives the list that deleting once gives. */
  lemma DeleteTwiceIsDeleteOnce(ts: seq<Task>, taskId: TaskId)
    ensures HandleDeleteTask(HandleDeleteTask(ts, taskId), taskId) == HandleDeleteTask(ts, taskId)
  {
    RemoveIdIdempotent(ts, taskId);
  }

  /** A task with a valid status is shown in exactly the column of its status;
      a task with any other status is shown in none. */
  lemma ColumnOf(ts: seq<Task>, i: nat)
    requires i < |ts|
    ensures ts[i] in TodoTasks(ts) <==> ts[i].status == "todo"
    ensures ts[i] in InProgressTasks(ts) <==> ts[i].status == "inprogress"
    ensures ts[i] in DoneTasks(ts) <==> ts[i].status == "done"
  {
    var t := ts[i];
    forall s: string
      ensures t in Column(ts, s) <==> t.status == s
    {
      if t in Column(ts, s) {
        var k :| 0 <= k < |Column(ts, s)| && Column(ts, s)[k] == t;
      }
    }
  }

  /** Each column lists its tasks in board order. */
  lemma ColumnKeepsOrder(ts: seq<Task>, status: string)
    ensures IsSubsequence(Column(ts, status), ts)
  {
    FilterIsSubsequence(ts, HasStatus(status));
  }

  /** When every status is valid the three columns together hold every task. */
  lemma {:induction false} ColumnSizes(ts: seq<Task>)
    requires forall i | 0 <= i < |ts| :: ValidStatus(ts[i].status)
    ensures |TodoTasks(ts)| + |InProgressTasks(ts)| + |DoneTasks(ts)| == |ts|
  {
    if ts != [] {
      ColumnSizes(ts[1..]);
      assert Column(ts, "todo") == (if ts[0].status == "todo" then [ts[0]] else []) + Column(ts[1..], "todo");
      assert Column(ts, "inprogress") == (if ts[0].status == "inprogress" then [ts[0]] else []) + Column(ts[1..], "inprogress");
      assert Column(ts, "done") == (if ts[0].status == "done" then [ts[0]] else []) + Column(ts[1..], "done");
    }
  }

  /** After a valid move of a task that is on the board, that task is shown in
      the target column and in no other column. */
  lemma MovedTaskShowsInTarget(ts: seq<Task>, e: DragEvent, now: nat, other: string)
    requires e.over.Some? && ValidStatus(e.over.value)
    requires !Absent(ts, e.active)
    requires other != e.over.value
    ensures exists t | t in Column(HandleDragEnd(ts, e, now), e.over.value) :: t.id == e.active
    ensures forall t | t in Column(HandleDragEnd(ts, e, now), other) :: t.id != e.active
  {
    var r := HandleDragEnd(ts, e, now);
    var i :| 0 <= i < |ts| && ts[i].id == e.active;
    assert r[i].status == e.over.value;
    assert r[i] in Column(r, e.over.value);
    forall t | t in Column(r, other)
      ensures t.id != e.active
    {
      var k :| 0 <= k < |Column(r, other)| && Column(r, other)[k] == t;
      var j :| 0 <= j < |r| && r[j] == t;
    }
  }

  /** The store's status update changes the first task with the id; on a list
      with unique ids that is what the board's move does to its own list. */
  lemma StoreStatusUpdateIsBoardMove(ts: seq<Task>, id: TaskId, status: string, now: nat)
    requires UniqueIds(ts)
    requires !Absent(ts, id)
    ensures var i := FindIndex(ts, id);
              ts[i := WithStatus(ts[i], status, now)] == MoveTo(ts, id, status, now)
  {
    FirstIsAll(ts, id, (t: Task) => WithStatus(t, status, now));
  }

  /** Likewise the store's update and the board's edit agree on such a list. */
  lemma StoreUpdateIsBoardEdit(ts: seq<Task>, editing: Task, data: TaskFields, newId: TaskId, now: nat)
    requires UniqueIds(ts)
    requires !Absent(ts, editing.id)
    ensures var i := FindIndex(ts, editing.id);
              ts[i := Overlay(ts[i], data, now)] == HandleSaveTask(ts, Some(editing), data, newId, now)
  {
    FirstIsAll(ts, editing.id, (t: Task) => Overlay(t, data, now));
  }

  /** Every handler keeps ids unique, given a fresh id for a created task. */
  lemma HandlersKeepUniqueIds(ts: seq<Task>, e: DragEvent, editingTask: Option<Task>, data: TaskFields,
                              newId: TaskId, taskId: TaskId, now: nat)
    requires UniqueIds(ts)
    requires editingTask.None? ==> Absent(ts, newId)
    ensures UniqueIds(HandleDragEnd(ts, e, now))
    ensures UniqueIds(HandleSaveTask(ts, editingTask, data, newId, now))
    ensures UniqueIds(HandleDeleteTask(ts, taskId))
  {
    if editingTask.None? {
      AppendFresh(ts, NewTask(data, newId, now));
    }
    RemoveIdKeepsUnique(ts, taskId);
  }

  /** No handler makes a task's update time earlier than its creation time,
      provided the clock has not gone back past any stored timestamp. */
  lemma HandlersKeepStamps(ts: seq<Task>, e: DragEvent, editingTask: Option<Task>, data: TaskFields,
                           newId: TaskId, taskId: TaskId, now: nat)
    requires StampsUpTo(ts, now)
    ensures StampsUpTo(HandleDragEnd(ts, e, now), now)
    ensures StampsUpTo(HandleSaveTask(ts, editingTask, data, newId, now), now)
    ensures StampsUpTo(HandleDeleteTask(ts, taskId), now)
  {
    DragEndKeepsStamps(ts, e, now);
    SaveKeepsStamps(ts, editingTask, data, newId, now);
    DeleteKeepsStamps(ts, taskId, now);
  }

  lemma DragEndKeepsStamps(ts: seq<Task>, e: DragEvent, now: nat)
    requires StampsUpTo(ts, now)
    ensures StampsUpTo(HandleDragEnd(ts, e, now), now)
  {
  }

  lemma SaveKeepsStamps(ts: seq<Task>, editingTask: Option<Task>, data: TaskFields, newId: TaskId, now: nat)
    requires StampsUpTo(ts, now)
    ensures StampsUpTo(HandleSaveTask(ts, editingTask, data, newId, now), now)
  {
  }

  lemma DeleteKeepsStamps(ts: seq<Task>, taskId: TaskId, now: nat)
    requires StampsUpTo(ts, now)
    ensures StampsUpTo(HandleDeleteTask(ts, taskId), now)
  {
    var r := HandleDeleteTask(ts, taskId);
    forall i | 0 <= i < |r|
      ensures r[i].createdAt <= r[i].updatedAt <= now
    {
      var k :| 0 <= k < |ts| && ts[k] == r[i];
    }
  }
}
