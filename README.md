# Kanban task store and board, modelled in Dafny

The repository is a small kanban board. Tasks have a title, a description, a
status (`todo`, `inprogress` or `done`) and a priority (`low`, `medium` or
`high`), plus creation and update times. This project models two independent
pieces of it:

- **The in-memory task store** (`TaskAPI` in `src/backend/api.js`). It is a
  module-level array of tasks. It supports list, get by id, create, update,
  update status and delete. Here it is the class `TaskApi.TaskStore`, whose
  field `tasks: seq<Task>` the methods reassign. `push` becomes an append.
  `tasks[i] = ...` becomes a sequence update. The `filter` reassignment
  becomes `RemoveId`. Every promise the store returns is already settled, so
  each call is a synchronous method. The three calls that can reject
  (`UpdateTask`, `UpdateTaskStatus`, `DeleteTask`) return `Result<T>`, with
  `Err(NotFound)` for the rejection `new Error("Task not found")`. The other
  three return their value directly: `GetAllTasks` a `seq<Task>`,
  `GetTaskById` an `Option<Task>` (`None` for `null`) and `CreateTask` the new
  `Task`.
- **The board's list transforms** (`src/components/KanbanBoard.jsx`). The
  board keeps its own task list in React state and never calls the store. Its
  handlers pass pure updaters `tasks -> tasks` to the state setter, and the
  three columns are filters of that list. Here they are the functions of
  module `KanbanBoard` over `seq<Task>`.

Both files spread partial objects over tasks, use `||` defaults and search by
id. Those shared record-level and list-level steps live once, in module
`Tasks`:

- `NewTask` builds a task with defaults.
- `Overlay` is `{...task, ...fields, updatedAt}`.
- `WithStatus` is `{...task, status, updatedAt}`.
- `FindIndex` is `findIndex`.
- `RemoveId` is a `filter` by id.
- `UpdateWhere` is a `map` by id.

The generic `filter` behind these, and the "is a subsequence" relation used
to state order preservation, live in module `Seqs`.

Modelling choices:

- **Clock.** `new Date()` is the parameter `now: nat`, one clock reading per
  operation.
- **Ids.** `generateId()` comes from a file that is not part of this model.
  Creation takes the new id as a parameter. The store requires that no task
  already has it, which keeps its invariant `UniqueIds` (no two tasks share an
  id).
- **Partial records.** A partial record is `TaskFields`. Each field is an
  `Option`, and `None` means the key is absent from the JavaScript object.
  The fields are the four that `TaskFormDialog` submits (title, description,
  status, priority), plus `updatedAt`. `updatedAt` is included so the model
  can state that the store overwrites a caller-supplied `updatedAt`. `id` and
  `createdAt` are deliberately not fields: the source does not protect them
  from a spread (see "Left out").
- **Status and priority** stay plain strings. The store accepts any value,
  including in `updateTaskStatus`. `ValidStatus` and `ValidPriority` state
  validity separately.
- **Falsy defaults.** JavaScript `x || d` treats the empty string as missing.
  `OrElse` models this, so `createTask({status: ""})` yields `"todo"`.

The code does none of the following, and the model follows the code:

- Synchronise the board with the store. There is no optimistic update, no
  rollback and no store call from the board. The board is modelled as
  written.
- Protect `id` or `createdAt` in `updateTask`'s argument.
- Validate the status in `updateTaskStatus`.
- Get ids from the store: the board generates its own.

## Model

| member | source | states |
|---|---|---|
| Tasks.OrElse | src/backend/api.js:57-60 | JavaScript's logical-or default: an absent or empty string gives the fallback, any other string is kept |
| Tasks.NewTask | src/backend/api.js:55-63 | a created task has the given id and both timestamps equal to now. An absent or empty title or description becomes `""`, status becomes `"todo"` and priority becomes `"medium"`. Any other supplied value is kept. The status (priority) is valid exactly when it was defaulted or the supplied value is valid |
| Tasks.Overlay | src/backend/api.js:77-81 | the merged task keeps id and createdAt. Each supplied field replaces the old value and each absent field keeps it. updatedAt is now even when the caller supplies one |
| Tasks.WithStatus | src/backend/api.js:95-99 | only status and updatedAt change: status to the given value, updatedAt to now |
| Tasks.FindIndex | src/backend/api.js:71 | `findIndex` by id: the first position holding the id, or -1 exactly when no task has it |
| Tasks.RemoveId | src/backend/api.js:108 | no task with the id remains. Every other task remains with all its copies, in the original order. Nothing else is added. The length is unchanged exactly when the id was absent, and then the list is unchanged |
| Tasks.RemoveIdIdempotent | src/backend/api.js:106-115 | removing an id a second time changes nothing |
| Tasks.UpdateWhere | src/components/KanbanBoard.jsx:74-78 | `map` by id: same length; each task with the id is transformed, every other task is identical |
| Tasks.FirstIsAll | src/backend/api.js:71-83 | with unique ids, replacing the first task with an id equals transforming every task with that id |
| Tasks.RemoveIdKeepsUnique | src/backend/api.js:108 | removing tasks preserves unique ids |
| Tasks.AppendFresh | src/backend/api.js:56-66 | appending a task with a fresh id keeps ids unique, and a lookup of that id finds the appended position |
| Tasks.InitialTasks | src/backend/api.js:7-38 | the three sample tasks: one per column, priorities high/medium/low, timestamps at start-up; ids unique exactly when the three generated ids differ |
| TaskApi.TaskStore.constructor | src/backend/api.js:38 | the store starts with the sample tasks and satisfies its unique-id invariant |
| TaskApi.TaskStore.GetAllTasks | src/backend/api.js:43-45 | returns exactly the current collection, in order; the store is not modified |
| TaskApi.TaskStore.GetTaskById | src/backend/api.js:48-51 | returns absent exactly when no task has the id, else the first task with the id; the store is not modified |
| TaskApi.TaskStore.CreateTask | src/backend/api.js:54-67 | appends exactly the defaulted new task and returns it. Earlier tasks are unchanged and in order. Lookup of the new id finds it. Unique ids and timestamp order are kept |
| TaskApi.TaskStore.UpdateTask | src/backend/api.js:70-85 | rejects with NotFound exactly when the id is absent, and then leaves the collection unchanged. Otherwise it replaces only the first matching position with the overlaid, freshly stamped task and returns that task |
| TaskApi.TaskStore.UpdateTaskStatus | src/backend/api.js:88-103 | rejects with NotFound exactly when the id is absent, and then changes nothing. Otherwise only the first matching task changes, and only in status (any string) and updatedAt |
| TaskApi.TaskStore.DeleteTask | src/backend/api.js:106-115 | the collection becomes the list without that id. The call rejects with NotFound exactly when no task had the id, and then the collection is unchanged; otherwise it resolves to true |
| TaskApi.DeleteTwice | src/backend/api.js:106-115 | a second delete of the same id rejects with NotFound; the collection is what the first delete left |
| TaskApi.CreateThenGet | src/backend/api.js:48-67 | a lookup right after a create finds the created task, with status "todo" and priority "medium" when none was given |
| KanbanBoard.Column | src/components/KanbanBoard.jsx:56-58 | a column holds exactly the tasks of the list whose status is that column's |
| KanbanBoard.ColumnOf | src/components/KanbanBoard.jsx:56-58 | a task is in the todo, in-progress or done column exactly when its status is that one, so a validly-statused task is in exactly one column |
| KanbanBoard.ColumnKeepsOrder | src/components/KanbanBoard.jsx:56-58 | every column is a subsequence of the list, so its tasks keep board order |
| KanbanBoard.ColumnSizes | src/components/KanbanBoard.jsx:56-58 | when every status is valid, the three column sizes sum to the list length |
| KanbanBoard.HandleDragEnd | src/components/KanbanBoard.jsx:61-79 | no drop target or a target other than the three statuses leaves the list unchanged. A valid move sets status and updatedAt on the tasks with the dragged id only. Length, order and ids are kept, and an absent id changes nothing |
| KanbanBoard.MovedTaskShowsInTarget | src/components/KanbanBoard.jsx:56-79 | after a valid move of a task on the board, some task with its id is in the target column and none is in any other column |
| KanbanBoard.HandleSaveTask | src/components/KanbanBoard.jsx:101-128 | when editing, every task with the edited id becomes the overlay of the form data stamped now, other tasks are unchanged, and the length is kept. When creating, exactly the defaulted new task is appended after the unchanged list |
| KanbanBoard.HandleDeleteTask | src/components/KanbanBoard.jsx:140-141 | no task with the id remains. Every other task remains with all its copies, in order. An absent id leaves the list unchanged |
| KanbanBoard.FormEditSetsFields | src/components/KanbanBoard.jsx:102-110 | saving the form's data (title, description, status, priority, as the form submits them) while editing sets those four fields of every task with the edited id, keeps its id and createdAt and stamps now. For a status among the form's three options, the task is then in that column and in no other |
| KanbanBoard.DeleteTwiceIsDeleteOnce | src/components/KanbanBoard.jsx:141 | deleting the same id twice gives the same list as deleting it once |
| KanbanBoard.StoreStatusUpdateIsBoardMove | src/backend/api.js:88-101 | on a list with unique ids, the store's first-index status update equals the board's map-by-id move |
| KanbanBoard.StoreUpdateIsBoardEdit | src/backend/api.js:70-83 | on a list with unique ids, the store's first-index update equals the board's map-by-id edit |
| KanbanBoard.HandlersKeepUniqueIds | src/components/KanbanBoard.jsx:73-141 | move, save (given a fresh id for a created task) and delete keep ids unique |
| KanbanBoard.HandlersKeepStamps | src/components/KanbanBoard.jsx:73-141 | when no timestamp is later than now and every task was updated no earlier than created, each handler at time now keeps both facts |

## Left out

- Rendering, the React hooks, the drag sensor and context (`DndContext`, `PointerSensor`), the droppable and draggable hooks, and the dialog's open, close and editing state. This includes `handleAddTask` and `handleEditTask`, which only set that state. All of this is UI framework code. The board's state cell is the `ts` argument and result of each handler.
- `toast(...)` notifications: they are fire-and-forget and do not affect the task list.
- `TaskCard.jsx` and `TaskColumn.jsx`: presentation only (colours, emoji, relative dates). The one fact used from them is that a column's droppable id is its status.
- `generateId` is not part of this model: a fresh id is a parameter. The board function `HandleSaveTask` does not require the id to be fresh; freshness is a hypothesis of `HandlersKeepUniqueIds`.
- `new Date()`: a `now` parameter. No operation requires the clock to be non-decreasing. The timestamp facts are conditional on `now` being no earlier than every stored timestamp. In the sample data every `new Date()` call is taken to read the same instant.
- Promise asynchrony: each store call is atomic and settles at once.
- Object sharing: tasks are values here. In the source, `getTaskById`, `createTask`, `updateTask` and `updateTaskStatus` return the stored object itself; only `getAllTasks` copies, and it copies only the array. So a caller that assigns to a returned task's field changes the store without an `updatedAt` stamp. The model does not capture that aliasing.
- Missing arguments: `TaskFields(None, None, None, None, None)` stands for `{}`. `createTask()` with no argument at all throws a TypeError at `taskData.title` (src/backend/api.js:57), while `updateTask(id)` with no argument succeeds and only restamps. The model has no absent-argument case for either.
- TaskApi.TaskStore.UpdateTask: a partial record here cannot carry `id` or `createdAt`. The JavaScript spread would let a caller overwrite both, and the code does not guard against it. So the unique-id invariant holds only for callers that pass form fields. The model does not claim that the store protects those fields.
- Keys that are present in the JavaScript object but hold `undefined`: in `TaskFields` a key is either absent (`None`) or holds a real value.
- Optimistic updates with rollback: no such controller exists in the code, and the board never calls the store.
