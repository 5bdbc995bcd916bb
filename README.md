# Task service model

A Dafny model of the in-memory task store of the task-tracking backend: the
class `TaskService` and its one mutable field, the list `tasks`. Five
operations work on that list:

- `createTask` checks the due date, builds a task with a generated id and
  status OPEN, and appends it.
- `deleteTask` finds the first task with an id and splices it out.
- `getTasks` sorts the list in place by due date and returns it.
- `getTaskById` looks up the first task with an id.
- `updateTask` merges a partial payload into the first task with its id and
  writes the result back at the same index.

Every successful call returns a `ResponseDto(statusCode, body)`. A failed call
raises NotFound or an internal error.

Layout:

- `dto.dfy` (module `Dto`): the records. These are `Task`, `TaskStatus`
  (`OPEN | DONE`), the create and update payloads, `ResponseDto`, the `Error`
  kinds (`NotFound`, `Internal(msg)`), a `Result` wrapper, and the
  constants: status codes 201 and 200 and the rejection message.
- `task_list.dfy` (module `TaskList`): the array operations as functions on
  `seq<Task>`. These are `FirstIndex` (`findIndex`), `Lookup` (`find`),
  `RemoveAt` (`splice(i, 1)`) and `Merge` (the object spread of
  `updateTask`). The module also has the id-uniqueness lemmas.
- `due_order.dfy` (module `DueOrder`): the order `getTasks` produces.
  `SortByDue` is a stable insertion sort. The lemmas prove its result is
  sorted, is a permutation and is stable. They also prove it is the only
  list that is both sorted and stable, so any stable sort returns it. That
  includes the engine's own `Array.prototype.sort`, which is stable since
  ECMAScript 2019.
- `service.dfy` (module `Service`): the class `TaskService` with `tasks:
  seq<Task>`. It has one method per operation, each proved against the
  functions above. The module also holds the loops `FindIndex`, `Find` and
  `SearchBack`.
- `e2e.dfy` (module `E2e`): the scenarios of the end-to-end tests
  (`app.e2e-spec.ts`), plus four further scenarios taken from the
  service code: a rejected due date, a status-only update, an unknown id and
  the order of tasks with equal due dates.
  They are written as client methods on a fresh service and proved from the
  contracts alone. The tests use fixed due dates in 2024, so they pass only
  while the clock is no later than those dates; the scenarios state this as
  a precondition on `now`.

The clock (`new Date()`) and the generated id (`Math.random()`) are
parameters of `CreateTask`. A parsed due date is an `Option<int>` of
milliseconds, where `None` is an Invalid Date (time NaN).

Four behaviours of the code differ from what its names and messages
suggest; the model follows the code:

- A rejected due date on creation is reported as an internal error, not a
  conflict. The code throws a ConflictException inside a `try` whose own
  `catch` re-throws every exception as an InternalServerErrorException. The
  message becomes "Something went wrong: Due date cannot be in the past or
  invalid date format".
- The code does not enforce unique ids, non-empty titles or non-empty
  descriptions. The model therefore states id uniqueness only as a
  conditional invariant: every operation preserves it, and `CreateTask`
  preserves it when the supplied id is new.
- `getTasks` does not return a fresh view. It sorts the stored list itself,
  so the stored order after the call is the sorted order, as `GetTasks`
  states.
- Tasks with equal due dates are not listed in creation order. They keep the
  order the list was last stored in, because `getTasks` sorts the stored
  list in place and `updateTask` writes a task back at its own index. If A
  (due Dec 30) is created before B (due Oct 31), a listing gives [B, A].
  After B's due date is moved to Dec 30, a second listing still gives [B, A].
  `E2e.StoredOrderScenario` states this.

## Model

| member | source | states |
|---|---|---|
| `TaskList.FirstIndex` | src/task/task.service.ts:45 | -1 exactly when no task has the id; otherwise an index holding the id with no earlier task holding it |
| `TaskList.Lookup` | src/task/task.service.ts:68 | None exactly when no task has the id; otherwise the first task of the list that has the id: it is at some index with no earlier task holding the id |
| `TaskList.RemoveAt` | src/task/task.service.ts:53 | splice(i, 1): one element shorter, elements before i unchanged, elements after i shifted down by one in the same order, the removed element is the only one missing from the multiset |
| `TaskList.Merge` | src/task/task.service.ts:84-89 | the merged task keeps the id; each of title, description, due date and status is the payload's value when present and the stored value when absent; the due date is taken without any past-date check |
| `TaskList.MergeEmpty` | src/task/task.service.ts:84-89 | a payload with no fields leaves the task unchanged |
| `TaskList.MergeIdempotent` | src/task/task.service.ts:84-89 | applying the same update twice equals applying it once |
| `TaskList.MergeThenMerge` | src/task/task.service.ts:84-89 | two updates in a row equal one update with the later payload's present fields winning |
| `TaskList.AppendKeepsUniqueIds` | src/task/task.service.ts:26-33 | appending a task whose id no stored task has keeps ids unique |
| `TaskList.RemoveFirstLeavesNoId` | src/task/task.service.ts:45-53 | in a list with unique ids, removing the found task leaves no task with that id and keeps ids unique |
| `TaskList.ReplaceKeepsIds` | src/task/task.service.ts:78-92 | writing the merged task back at the found index keeps that index the first one with the id, and keeps unique ids unique |
| `DueOrder.Insert` | src/task/task.service.ts:60-62 | one step of the sort: the list grows by exactly the inserted task (its placement, membership and multiset are the lemmas below) |
| `DueOrder.SortByDue` | src/task/task.service.ts:60-62 | the order `getTasks` leaves the list in has the input's length; sortedness, permutation and stability are the lemmas below |
| `DueOrder.InsertMember` | src/task/task.service.ts:60-62 | a task is in the result of an insertion exactly when it is the inserted task or was in the list |
| `DueOrder.InsertPermutes` | src/task/task.service.ts:60-62 | inserting adds exactly the one task to the multiset of the list |
| `DueOrder.SortByDuePermutes` | src/task/task.service.ts:60-62 | the sorted list is a permutation of the input |
| `DueOrder.InsertAt` | src/task/task.service.ts:60-62 | in a sorted list, insertion places the task after the tasks due no later and before the tasks due strictly later |
| `DueOrder.InsertWithDue` | src/task/task.service.ts:60-62 | inserting into a sorted list puts the task after every task with the same due date |
| `DueOrder.SortByDueSorted` | src/task/task.service.ts:60-62 | the sorted list is non-decreasing by due date |
| `DueOrder.SortByDueStable` | src/task/task.service.ts:60-62 | for every due date, the tasks with that due date keep their relative order |
| `DueOrder.SortedStableUnique` | src/task/task.service.ts:60-62 | two lists that are both sorted by due date and have the same tasks in the same order for each due date are equal |
| `DueOrder.SortByDueIsTheStableSort` | src/task/task.service.ts:60-62 | every sorted, stable reordering of a list equals `SortByDue` of it, so any stable sort gives the model's result |
| `DueOrder.SortByDueOfSorted` | src/task/task.service.ts:58-65 | a list already in due-date order is left unchanged by the sort |
| `DueOrder.SortByDueIdempotent` | src/task/task.service.ts:58-65 | for every list, sorting twice equals sorting once, so a second `getTasks` returns the same order |
| `DueOrder.SortByDueKeepsUniqueIds` | src/task/task.service.ts:60-62 | sorting a list with unique ids keeps them unique |
| `Service.DueDateRejected` | src/task/task.service.ts:20 | the test "before now, or NaN" with NaN comparing false to now: a due date passes exactly when it is a valid time no earlier than now |
| `Service.FindIndex` | src/task/task.service.ts:45 | the left-to-right search returns `FirstIndex` of the list |
| `Service.Find` | src/task/task.service.ts:68 | the left-to-right search returns `Lookup` of the list |
| `Service.SearchBack` | src/task/task.service.ts:60-62 | the returned index j is at most i; the task before j is due no later than task i; every task from j to i-1 is due strictly later |
| `Service.InsertionStep` | src/task/task.service.ts:60-62 | moving task i to the index `SearchBack` returns extends the sorted prefix by one and keeps the rest of the list |
| `Service.TaskService.constructor` | src/task/task.service.ts:13 | the service starts with an empty list |
| `Service.TaskService.CreateTask` | src/task/task.service.ts:15-42 | for an invalid or past due date: the internal error with the prefixed message, and the list is unchanged; otherwise 201 with a task made of the caller's title, description and due date, the generated id and status OPEN, appended at the end with every earlier task unchanged; ids stay unique when the generated id is new |
| `Service.TaskService.DeleteTask` | src/task/task.service.ts:44-56 | an unknown id gives NotFound and the list is unchanged; otherwise 200 with the removed task's value, and the list loses exactly that element; with unique ids, the id is then gone |
| `Service.TaskService.GetTasks` | src/task/task.service.ts:58-65 | the stored list becomes `SortByDue` of the old one: sorted by due date, a permutation, stable, ids unique if they were; returns 200 with the stored list |
| `Service.TaskService.GetTaskById` | src/task/task.service.ts:67-75 | NotFound exactly when no task has the id; otherwise 200 with the first task having it; the list is not changed |
| `Service.TaskService.UpdateTask` | src/task/task.service.ts:77-95 | an unknown id gives NotFound and the list is unchanged; otherwise 200 with the merged task, which replaces the element at the found index; the length and every other element are unchanged, and ids stay unique |
| `E2e.CreateScenario` | app.e2e-spec.ts:42-63 | a created task comes back with code 201, the caller's title, description and due date, and status OPEN |
| `E2e.RejectScenario` | src/task/task.service.ts:17-41 | a past or unparseable due date gives the internal error, and the list stays empty |
| `E2e.SortThree` | app.e2e-spec.ts:133-161 | tasks due Dec 30, Oct 31 and Nov 30, in that order, sort to the second, the third, the first |
| `E2e.SortTwo` | src/task/task.service.ts:60-62 | two tasks, the second due earlier, sort to the second, the first |
| `E2e.SortScenario` | app.e2e-spec.ts:131-176 | after creating the three test tasks, `getTasks` lists exactly three tasks, which are the created ones in due-date order, so the titles come in that order, for any generated ids |
| `E2e.StoredOrderScenario` | src/task/task.service.ts:58-95 | after a listing has put B before A and B's due date is updated to A's, a second listing still puts B first: equal due dates keep the stored order, not the creation order |
| `E2e.UpdateScenario` | app.e2e-spec.ts:65-100 | updating every field returns the new values under the same id, even with an earlier due date |
| `E2e.StatusOnlyScenario` | src/task/task.service.ts:84-89 | after a status-only update, `getTaskById` returns the old title, description and due date with status DONE |
| `E2e.DeleteScenario` | app.e2e-spec.ts:102-129 | deleting a created task returns it as created; afterwards the list is empty and the id gives NotFound |
| `E2e.UnknownIdScenario` | src/task/task.service.ts:44-94 | lookup, update and delete of an unknown id all give NotFound, and the list is unchanged |

## Left out

- The HTTP controller (`src/task/task.controller.ts`) and the module wiring (`src/app.module.ts`) are left out. They only forward calls to the service.
- The class-validator and swagger decorators on the DTOs are left out. The service never calls them, so `@IsNotEmpty` and `@MinDate` are not enforced. Only the record shapes are modelled.
- Id generation is a parameter. The source uses `Math.random().toString(36).substring(7)` with no collision check, so the model never claims ids are unique or non-empty.
- The clock and JavaScript date parsing are left out. The caller supplies "now" and an already parsed due date. Date values are unbounded integers, and the engine's ±8.64e15 ms date range is not modelled.
- A truthy but unparseable due date in an update payload is not modelled. The source would store an Invalid Date, and the sort comparator would then return NaN, which makes the resulting order implementation-defined. The model's `Task.dueDate` is always an integer.
- Falsy update due dates (absent, null, an empty string, the number 0) all keep the stored date in the source. The model folds them all into `None`.
- Payload fields outside the record shape are not modelled. The spread would copy them into the stored task. An explicit `null` field, which the spread would write over the stored value, is also not modelled.
- An update payload without an id is not modelled. The source could not find a task for it and would raise NotFound.
- Aliasing is not modelled. `getTasks` returns the very array it stores, and `getTaskById` returns the stored object. The model returns values, so later changes through a returned reference are not captured.
- The engine's sort algorithm is not modelled. `SortByDue` (insertion sort) stands in for it. `DueOrder.SortByDueIsTheStableSort` shows every stable sort gives the same list.
- `async`/`Promise`, `console.log` and the NestJS exception classes are left out. Errors are the `Error` datatype, and the HTTP codes 404 and 500 that those classes carry are not modelled.
- Concurrency is left out. Every operation runs to completion on one thread.
