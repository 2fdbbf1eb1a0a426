# Task tracker service layer, modelled in Dafny

This project models the domain and service layer of a small Spring task
tracker. Clients keep **task lists**, and each list owns **tasks**. Each
task has a status (OPEN, IN_PROGRESS, CLOSED), a priority (LOW, MEDIUM,
HIGH) and an optional due date. The model covers:

- the **task-list service**: list, create, get, update, delete;
- the **task service**: list, create, get, update, delete. Get and update
  are scoped by the (list, task) pair; list and create by the list id;
- the **task-list mapper**: the DTO's task count and completion progress,
  and the nested mapping of tasks;
- the **task mapper**: a six-field copy in each direction;
- the **task repository**'s two derived queries, over an in-memory store.

The files:

- `Domain.dfy`: the Task and TaskList entities as values. A nullable field
  is an `Option`. It also holds Java's `isBlank`, the error reasons and
  their two kinds, and the `Result` of a service call. InvalidInput stands
  for `IllegalArgumentException` (HTTP 400). NotFound stands for
  `ResourceNotFoundException` (HTTP 404).
- `TaskMapper.dfy`, `TaskListMapper.dfy`: the mappers, as functions. The
  progress is an exact rational: `Absent` when the collection is null,
  `Undefined` for the 0/0 of an empty collection (NaN in Java), and
  otherwise `Ratio(closed / total)`.
- `Repositories.dfy`: the two queries as functions over the task map, and
  the `Store` class. `Store` holds both tables as maps and has the save,
  find and delete operations. Saving an entity without an identifier stores
  it under a key chosen from those not yet in the table.
- `TaskListServices.dfy`, `TaskServices.dfy`: each service is a class over
  one shared `Store`. Each mutating method modifies the store and states
  its whole new state. `Create…` is proved against `ValidateNew…`, the
  creation guards, and `Update…` against `Merge…`, the partial update.
- `Scenarios.dfy`: two clients whose checks follow from the contracts
  alone. The first creates a list and a task in it, checks the defaults
  OPEN and MEDIUM, closes the task, and checks that the progress of the
  tasks `ListTask` returns for the list is 1. The second checks that a task cannot be read or updated through
  another list's id.

The clock (`LocalDateTime.now()`) is a `now` parameter. It is one instant
per call.

In two places the model follows the code where a reader might expect
otherwise:

- `deleteTask` has an empty body. The model's `DeleteTask` changes nothing
  and raises nothing. It does not check existence and report NotFound.
- An empty, non-null task collection gives `Undefined` progress, which is
  Java's NaN from 0/0. It does not give 0.

## Model

| member | source | states |
|---|---|---|
| `Domain.HasText` | src/main/java/com/danny/tasks/services/impl/TaskServiceImpl.java:40 | a title passes the guard iff it is non-null and has at least one character that `Character.isWhitespace` rejects |
| `Domain.Error.HttpStatus` | src/main/java/com/danny/tasks/controllers/GlobalExceptionHandler.java:48-69 | InvalidInput errors answer 400 and NotFound errors answer 404, and no other code is used |
| `Domain.Error.Kind` | src/main/java/com/danny/tasks/services/impl/TaskServiceImpl.java:36-90 | the two lookup failures (task by pair, list by id) are ResourceNotFoundException; every other refusal is IllegalArgumentException |
| `Domain.Error.Message` | src/main/java/com/danny/tasks/services/impl/TaskListServiceImpl.java:68 | every message is non-empty; the list-not-found message is the fixed prefix, the list id in decimal, the fixed suffix, so the id can be read back from it |
| `Domain.Decimal` | src/main/java/com/danny/tasks/services/impl/TaskListServiceImpl.java:68 | the id's text is non-empty, digits only, without leading zero, and denotes the id |
| `TaskMapper.FromDto` | src/main/java/com/danny/tasks/mappers/impl/TaskMapperImpl.java:35-47 | mapping the built entity back gives the same DTO (nothing of the DTO is lost); owner and both timestamps are null |
| `TaskMapper.ToDto` | src/main/java/com/danny/tasks/mappers/impl/TaskMapperImpl.java:49-59 | id, title, description, due date, priority and status are those of the entity |
| `TaskMapper.EntityRoundTrip` | src/main/java/com/danny/tasks/mappers/impl/TaskMapperImpl.java:35-59 | entity to DTO and back keeps the six fields and loses owner and timestamps, so it is the identity exactly on entities without them |
| `TaskListMapper.ClosedCount` | src/main/java/com/danny/tasks/mappers/impl/TaskListMapperImpl.java:111-113 | the closed count never exceeds the collection's size |
| `TaskListMapper.NoneClosed` | src/main/java/com/danny/tasks/mappers/impl/TaskListMapperImpl.java:111-113 | the closed count is 0 iff no task is CLOSED (a null status is not CLOSED) |
| `TaskListMapper.AllClosed` | src/main/java/com/danny/tasks/mappers/impl/TaskListMapperImpl.java:111-113 | the closed count equals the size iff every task is CLOSED |
| `TaskListMapper.CalculateProgress` | src/main/java/com/danny/tasks/mappers/impl/TaskListMapperImpl.java:105-117 | absent iff the collection is null; undefined iff it is empty; otherwise a value in [0,1] that times the size gives the closed count, and is 1 or 0 iff all or none are CLOSED |
| `TaskListMapper.TaskCount` | src/main/java/com/danny/tasks/mappers/impl/TaskListMapperImpl.java:82-84 | the count is the collection's size, or 0 when it is null |
| `TaskListMapper.ToDto` | src/main/java/com/danny/tasks/mappers/impl/TaskListMapperImpl.java:75-94 | id, title, description copied; count and progress derived from the tasks; nested tasks null iff null, otherwise mapped element by element, same length and order |
| `TaskListMapper.FromDto` | src/main/java/com/danny/tasks/mappers/impl/TaskListMapperImpl.java:48-63 | id, title, description copied; both timestamps null; tasks null iff the DTO's are, otherwise their element-wise image |
| `TaskListMapper.DtoRoundTrip` | src/main/java/com/danny/tasks/mappers/impl/TaskListMapperImpl.java:48-94 | DTO to entity and back differs from the DTO only in count and progress, which are recomputed; in particular the nested task DTOs come back unchanged |
| `TaskListMapper.ClosedCountPermutation` | src/main/java/com/danny/tasks/mappers/impl/TaskListMapperImpl.java:111-113 | two collections holding the same tasks in any order have the same closed count |
| `TaskListMapper.ProgressPermutation` | src/main/java/com/danny/tasks/mappers/impl/TaskListMapperImpl.java:105-117 | the progress does not depend on the order in which the store returns the tasks |
| `TaskListMapper.HalfClosed` | src/main/java/com/danny/tasks/mappers/impl/TaskListMapperImpl.java:97-98 | two CLOSED out of four tasks give progress 0.5 |
| `TaskListMapper.QuarterClosed` | src/main/java/com/danny/tasks/mappers/impl/TaskListMapperImpl.java:111-116 | one CLOSED out of four tasks gives progress 0.25 |
| `Repositories.FindByTaskListId` | src/main/java/com/danny/tasks/repositories/TaskRepository.java:70-76 | every task returned is a stored task whose owner is the given list, and no stored task of that list is left out |
| `Repositories.FindByTaskListIdAndId` | src/main/java/com/danny/tasks/repositories/TaskRepository.java:78-86 | present iff the id is stored with that owner, and then it is that task and a member of `FindByTaskListId` of the list; a task of another list is not found |
| `Repositories.Store.FindTaskList` | src/main/java/com/danny/tasks/services/impl/TaskListServiceImpl.java:61 | present iff the id is stored, and then the stored list |
| `Repositories.Store.SaveTaskList` | src/main/java/com/danny/tasks/services/impl/TaskListServiceImpl.java:49-56 | a list without id is stored under a fresh key; one with an id overwrites that key; the saved entity carries its key; the task table is unchanged |
| `Repositories.Store.SaveTask` | src/main/java/com/danny/tasks/services/impl/TaskServiceImpl.java:64 | same insert-or-overwrite rule for tasks; the list table is unchanged |
| `Repositories.Store.DeleteTaskListById` | src/main/java/com/danny/tasks/services/impl/TaskListServiceImpl.java:90 | exactly that key leaves the list table |
| `TaskListServices.ValidateNewTaskList` | src/main/java/com/danny/tasks/services/impl/TaskListServiceImpl.java:41-47 | a pre-set id is refused first, then a null or blank title; both are InvalidInput; no refusal iff no id and a non-blank title |
| `TaskListServices.MergeTaskList` | src/main/java/com/danny/tasks/services/impl/TaskListServiceImpl.java:70-79 | title changes only to a non-blank new title, and always to one; description changes only to a non-null one, blank included; `updated` becomes now; id, created and tasks never change |
| `TaskListServices.DescriptionOnlyUpdate` | src/main/java/com/danny/tasks/services/impl/TaskListServiceImpl.java:70-79 | a patch with only a description leaves the title and changes only description and updated |
| `TaskListServices.MergeTaskListIdempotent` | src/main/java/com/danny/tasks/services/impl/TaskListServiceImpl.java:70-79 | applying a patch twice equals applying it once |
| `TaskListServices.TaskListService.ListTaskList` | src/main/java/com/danny/tasks/services/impl/TaskListServiceImpl.java:24-26 | the result holds every stored list and nothing else |
| `TaskListServices.TaskListService.CreateTaskList` | src/main/java/com/danny/tasks/services/impl/TaskListServiceImpl.java:40-57 | the guard's error with the store unchanged, or a new entry under a fresh id with title and description copied, no tasks, created = updated = now, and nothing else changed |
| `TaskListServices.TaskListService.GetTaskList` | src/main/java/com/danny/tasks/services/impl/TaskListServiceImpl.java:60-62 | the stored list or nothing, never an error |
| `TaskListServices.TaskListService.UpdateTaskList` | src/main/java/com/danny/tasks/services/impl/TaskListServiceImpl.java:65-81 | NotFound with the store unchanged for an absent id; otherwise the entry becomes its partial update, which is returned |
| `TaskListServices.TaskListService.DeleteTaskList` | src/main/java/com/danny/tasks/services/impl/TaskListServiceImpl.java:84-91 | NotFound with the store unchanged for an absent id; otherwise exactly that key is removed and every other entry is kept |
| `TaskServices.ValidateNewTask` | src/main/java/com/danny/tasks/services/impl/TaskServiceImpl.java:36-49 | a pre-set id is refused first, then a null or blank title, then an unknown list; every refusal is InvalidInput, never NotFound |
| `TaskServices.IsDueDateInPast` | src/main/java/com/danny/tasks/services/impl/TaskServiceImpl.java:88-89 | a null due date is never refused and neither is one equal to now, since `isBefore` is strict |
| `TaskServices.MergeTask` | src/main/java/com/danny/tasks/services/impl/TaskServiceImpl.java:82-100 | title and description change only to non-blank values; due date, status and priority only to non-null values; supplied values are applied; updated becomes now; id, owner, created never change |
| `TaskServices.MergeTaskIdempotent` | src/main/java/com/danny/tasks/services/impl/TaskServiceImpl.java:82-100 | applying a patch twice equals applying it once |
| `TaskServices.TaskService.ListTask` | src/main/java/com/danny/tasks/services/impl/TaskServiceImpl.java:30-32 | exactly the stored tasks whose owner is that list |
| `TaskServices.TaskService.CreateTask` | src/main/java/com/danny/tasks/services/impl/TaskServiceImpl.java:35-65 | the guard's error with the store unchanged, or a new task under a fresh id: title, description and due date copied, unset priority MEDIUM and status OPEN (set ones kept), owner the list, created = updated = now |
| `TaskServices.TaskService.GetTask` | src/main/java/com/danny/tasks/services/impl/TaskServiceImpl.java:68-70 | the lookup by the (list, task) pair |
| `TaskServices.TaskService.DeleteTask` | src/main/java/com/danny/tasks/services/impl/TaskServiceImpl.java:73-75 | both tables unchanged, no error |
| `TaskServices.TaskService.UpdateTask` | src/main/java/com/danny/tasks/services/impl/TaskServiceImpl.java:78-102 | NotFound if the pair does not resolve, even when the id exists under another list; then InvalidInput for a due date before now, with the store unchanged; otherwise the stored task becomes its partial update |

## Left out

- Controllers and request routing: they only call a mapper and then a service.
- The exception handler's response formatting. This covers the request
  detail string and the enum-parsing handler, which inspects Jackson
  exceptions by reflection. Only the split between 400 and 404 is modelled.
- JPA lifecycle and entity identity. Entities are values. A setter call on
  the loaded entity is a field update of a local copy. The lost mutation
  of a detached entity before a throw therefore plays no part.
- Loading `TaskList.tasks` from the task table. The entity's relationship
  mapping is not part of this model. A stored list keeps the collection it
  was saved with, which is null after creation. `TaskListMapper.ToDto` of a
  stored list therefore always reports count 0 and absent progress.
- Deleting a list leaves the task table alone, since its cascade setting
  cannot be seen. The store keeps no invariant that a task's owner is a
  stored list. So the deleted list's tasks can still be listed, read and
  updated through its id. The source cannot reach that state: the foreign
  key either cascades the delete or makes `deleteById` fail.
- UUID generation and text form. Identifiers are natural numbers. A new
  one is any key not in the table. In the not-found message the id is
  written in decimal.
- The order of `findAll` and `findByTaskListId`. The results are a set and
  a map. `ProgressPermutation` shows that the progress does not depend on
  that order.
- `Domain.Error.Message`: its contract does not repeat the seven fixed
  texts. Stating them would only copy its body; they are in the body, one
  per throw site in the two service classes.
- Null elements inside a collection. The task DTOs of a list DTO are a
  sequence of values, so the source's NullPointerException on a null
  element has no counterpart.
- IEEE doubles. Progress is an exact real, and NaN is the `Undefined`
  constructor.
- Time. `updateTask` reads the clock twice, once for the due-date check
  and once for `updated`. The model uses one `now` for both.
- Concurrency and transactions: each call is atomic.
- The service interfaces, the DTO records beyond their fields, and the
  unused `javax.swing` import.
