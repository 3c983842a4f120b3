# Task list component: a Dafny model

This project models the state logic of the `Task` component of a to-do web
front end. The component holds four pieces of state: the list of task records
(`todos`), an error text (`error`, empty when there is no error), and the two
form fields `title` and `description`. Three handlers reconcile that state
with the outcome of a call to the task service:

- loading replaces the list with the one the service returns;
- creating sends `{title, description}` and, on success, appends the returned
  record and empties the form;
- deleting, on success, keeps only the records whose id differs from the
  deleted one.

Each handler clears the error before it calls the service. When the call
fails, the handler writes one fixed message and changes nothing else.

The model has three modules:

- `TodoList` (`todo_list.dfy`) holds the task record and `RemoveId`, the
  filter a successful delete applies. Lemmas prove that it keeps order,
  distributes over concatenation, is idempotent, commutes with itself,
  undoes an append of a fresh id, and keeps ids unique.
- `TaskState` (`task_state.dfy`) gives the state as a value and the handlers
  as events. Each service call becomes two events: the handler starting (up
  to its `await`) and the call completing with an `Outcome`, either
  `Success(value)` or `Failure`. `Step` applies one event and `Run` applies a
  sequence in completion order, so overlapping calls are sequences in which
  these events interleave. Lemmas about `Run` state what holds over any such
  sequence: how the error field behaves, the all-or-nothing rule on failure,
  and how completions apply to the list as it stands when they arrive.
  Create and delete apply their change through React functional updaters
  (`prev => ...`), so they act on the current list; load replaces the list
  outright with `setTodos(data)`.
- `TaskComponent` (`task_component.dfy`) has the class `Task`, which holds the
  four fields and updates them in place. `Start...` and `Complete...` are the
  two halves of each handler, and `LoadTodos`, `HandleCreateTask` and
  `HandleDeleteTask` are whole handlers with nothing interleaved. Every method
  states its new fields directly. It also states that its new `Snapshot()`
  equals `Step` (or `Run`) applied to the old one, so the `TaskState` lemmas
  apply to the object.

Three behaviours of the component are worth stating plainly:

- A success does not clear the error; only the start of a handler does. A
  call that fails while another call is in flight leaves its message in
  place, even after the other call succeeds
  (`TaskState.SuccessKeepsInterleavedFailure`).
- The handler does not check the title; only the input's `required`
  attribute (src/components/Task.jsx:94) does, so `HandleCreateTask` may send
  any title.
- The component never checks that ids are unique. `TaskState.IdsStayUnique`
  holds while every loaded list has unique ids and each created record's id
  is not in the list when the create completes. A load that completes between
  the server's create and its response can already hold the record, and the
  append then duplicates it (`TaskState.LoadBeforeCreateResponseDuplicates`).

## Model

| member | source | states |
|---|---|---|
| TodoList.RemoveId | src/components/Task.jsx:59 | a record is in the result exactly when it is in the list and its id differs from the deleted id; the result is never longer than the list |
| TodoList.RemoveIdKeepsEveryCopy | src/components/Task.jsx:59 | every copy of a record whose id differs is kept, as many times as the list holds it, and no copy of a record with the deleted id remains |
| TodoList.RemoveIdAppend | src/components/Task.jsx:59 | the filter treats each record on its own: filtering `a + b` is filtering `a`, then `b`, concatenated |
| TodoList.RemoveIdIsSubsequence | src/components/Task.jsx:59 | the surviving records keep their original relative order (the result is a subsequence of the list) |
| TodoList.RemoveAbsentId | src/components/Task.jsx:59 | deleting an id that no record carries leaves the list unchanged |
| TodoList.RemoveIdIdempotent | src/components/Task.jsx:59 | filtering the same id a second time changes nothing |
| TodoList.RemoveIdCommutes | src/components/Task.jsx:59 | two deletes leave the same list in either order |
| TodoList.AppendThenRemove | src/components/Task.jsx:42-59 | appending a record with a fresh id and then deleting that id gives back the original list |
| TodoList.RemoveIdKeepsIdsUnique | src/components/Task.jsx:59 | deleting never makes two records share an id |
| TodoList.AppendFreshKeepsIdsUnique | src/components/Task.jsx:42 | appending a record with a fresh id keeps ids unique |
| TaskState.Step | src/components/Task.jsx:15-64 | one event: a handler start or a failed call changes only the error (to "" or the fixed message); other events leave the error; only a successful completion changes the list |
| TaskState.CompletionsApplyToCurrentList | src/components/Task.jsx:15-64 | after any earlier events, a successful create appends to the current list, a successful delete filters the current list, and a successful load replaces it with exactly the returned sequence |
| TaskState.ErrorIsLatestWritten | src/components/Task.jsx:15-64 | after any sequence of events, the error is what the last event that wrote it wrote: "" for a handler start, the fixed message for a failure |
| TaskState.ErrorShowsLatestFailure | src/components/Task.jsx:15-64 | after a failure, the error is that failure's message and is not empty, as long as no handler starts and nothing else fails; successes in between leave it |
| TaskState.ErrorEmptyAfterStart | src/components/Task.jsx:15-64 | after a handler starts, the error stays empty until some call fails |
| TaskState.ErrorHasACause | src/components/Task.jsx:15-64 | a non-empty error, starting from none, is the message of a failure after which no event wrote the error |
| TaskState.ErrorIsOneMessage | src/components/Task.jsx:10-64 | the error is always "" or exactly one of "Could not load tasks.", "Could not create task.", "Could not delete task." |
| TaskState.ListChangesOnlyOnSuccess | src/components/Task.jsx:15-64 | handler starts, failed calls and form edits never change the list |
| TaskState.FormKeptUntilCreateSucceeds | src/components/Task.jsx:30-51 | title and description stay as typed until a create succeeds or the user edits them, so a failed create keeps them for a retry |
| TaskState.DeletesCommute | src/components/Task.jsx:53-64 | two successful deletes leave the same list in either completion order |
| TaskState.RepeatedDeleteIsNoOp | src/components/Task.jsx:53-64 | when both calls succeed, deleting the same id twice, one delete after the other, leaves the same whole state as deleting it once |
| TaskState.OverlappingDeletesAreOneDelete | src/components/Task.jsx:53-64 | when two deletes of the same id overlap (both start, then both complete) and both succeed, the whole state is the one a single delete leaves |
| TaskState.CreateThenDeleteRestoresList | src/components/Task.jsx:30-64 | creating a task with a fresh id and then deleting it gives back the list as it was |
| TaskState.IdsStayUnique | src/components/Task.jsx:15-64 | if the list starts with unique ids, every loaded list has unique ids, and each created record's id is not in the list at the moment the create completes, the list never holds two records with the same id |
| TaskState.LoadBeforeCreateResponseDuplicates | src/components/Task.jsx:15-51 | when a load that already holds the created record completes before the create's response, the append adds the record a second time: the list is `[t, t]` and its ids are not unique |
| TaskState.SuccessKeepsInterleavedFailure | src/components/Task.jsx:15-64 | when load and delete overlap, load fails and then delete succeeds, the error stays "Could not load tasks." |
| TaskComponent.Task.constructor | src/components/Task.jsx:9-12 | mounting starts with an empty list, no error and an empty form |
| TaskComponent.Task.ChangeTitle | src/components/Task.jsx:96 | the title becomes the typed value and nothing else changes |
| TaskComponent.Task.ChangeDescription | src/components/Task.jsx:108 | the description becomes the typed value and nothing else changes |
| TaskComponent.Task.StartLoad | src/components/Task.jsx:18 | the error is cleared before the list is requested and nothing else changes |
| TaskComponent.Task.CompleteLoad | src/components/Task.jsx:19-24 | on success the list becomes exactly the returned sequence; on failure the list is kept and the error becomes "Could not load tasks."; the form is untouched |
| TaskComponent.Task.LoadTodos | src/components/Task.jsx:15-28 | a load with nothing interleaved: on success the list is the returned sequence and the error is empty; on failure the list is kept and the error is the load message |
| TaskComponent.Task.StartCreate | src/components/Task.jsx:33-39 | the error is cleared and the payload sent is exactly the form's current title and description |
| TaskComponent.Task.CompleteCreate | src/components/Task.jsx:40-50 | on success the returned record is appended after the current list and the form is emptied; on failure the list and form are kept and the error becomes "Could not create task." |
| TaskComponent.Task.HandleCreateTask | src/components/Task.jsx:30-51 | a submit with nothing interleaved: success yields the old list plus the new record last, an empty form and no error; failure keeps list and form and shows the create message |
| TaskComponent.Task.StartDelete | src/components/Task.jsx:54-56 | the error is cleared before the delete is sent and nothing else changes |
| TaskComponent.Task.CompleteDelete | src/components/Task.jsx:56-63 | on success the list loses exactly the records with that id, keeps the others in order, and is unchanged for an absent id; on failure the list is kept and the error becomes "Could not delete task." |
| TaskComponent.Task.HandleDeleteTask | src/components/Task.jsx:53-64 | a delete with nothing interleaved: success filters the list and leaves no error; failure keeps the list and shows the delete message |

## Left out

- The service module (`src/services/taskService.js`) is not modelled. It covers the HTTP client, the base URL, the bearer token read from browser storage, and the multipart body built with `FormData`. Each call is replaced by its outcome, which the model takes as a parameter.
- Rendering and layout are not modelled. This covers the sidebar, header, markup, the "Untitled task" fallback and the empty-list message. They are presentation only.
- Logging with `console.error` and the `preventDefault` call are not modelled. They have no effect on state.
- The browser's `required` check on the title input is not modelled. The browser enforces it, not the handler.
- Edit, complete-toggle, filter, sort, due date, person and attachment features are not modelled. They have no handlers in the code: their buttons are disabled or unwired, and their inputs are not bound to state.
- Real asynchrony is not modelled. Overlapping calls are modelled as interleaved start and completion events applied one at a time in completion order.
- React re-rendering and update batching are not modelled. Each handler's setter calls are applied in program order. Batching gives the same final state.
- Task records keep only `id`, `title` and `description`. Other server fields (due date, status) are only displayed. Ids are integers compared by value, which matches the strict `!==` comparison when ids are all of one type.
- The component loads once, on mount. The model does not restrict how often `LoadTodos` runs.
