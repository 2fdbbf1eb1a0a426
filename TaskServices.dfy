/**
 * The task service: lists, creates, looks up, updates and deletes the tasks
 * of a task list in the shared store, with the creation guards, the
 * default values and the partial-update rules of the Java implementation.
 */
module TaskServices {
  import opened Domain
  import opened Repositories

  /** The creation guards, in the order they are checked: a pre-set
      identifier, then a missing or blank title, then an unknown list.
      Every refusal is InvalidInput, an unknown list included. */
  function ValidateNewTask(candidate: Task, taskLists: map<Id, TaskList>, taskListId: Id): (err: Option<Error>)
    ensures candidate.id.Some? ==> err == Some(TaskHasId)
    ensures candidate.id.None? && !HasText(candidate.title) ==> err == Some(TaskTitleMissing)
    ensures candidate.id.None? && HasText(candidate.title) && taskListId !in taskLists ==>
              err == Some(InvalidTaskListId)
    ensures err.None? <==> candidate.id.None? && HasText(candidate.title) && taskListId in taskLists
    ensures err.Some? ==> err.value.Kind() == InvalidInput
  {
    if candidate.id.Some? then Some(TaskHasId)
    else if !HasText(candidate.title) then Some(TaskTitleMissing)
    else if taskListId !in taskLists then Some(InvalidTaskListId)
    else None
  }

  /** The due-date guard of an update: a supplied due date strictly before
      the current moment. A null due date is never refused, nor is one
      equal to the current moment (`isBefore` is strict). */
  predicate IsDueDateInPast(patch: Task, now: Timestamp)
    ensures patch.dueDate.None? ==> !IsDueDateInPast(patch, now)
    ensures patch.dueDate == Some(now) ==> !IsDueDateInPast(patch, now)
  {
    patch.dueDate.Some? && patch.dueDate.value < now
  }

  /** The partial update of a stored task: title and description are
      replaced only by non-blank values, due date, status and priority by
      any non-null value; `updated` is always refreshed; identifier, owner
      and `created` never move. */
  function MergeTask(existing: Task, patch: Task, now: Timestamp): (merged: Task)
    ensures merged.id == existing.id && merged.taskList == existing.taskList
    ensures merged.created == existing.created && merged.updated == Some(now)
    ensures HasText(patch.title) ==> merged.title == patch.title
    ensures merged.title != existing.title ==> HasText(patch.title)
    ensures HasText(patch.description) ==> merged.description == patch.description
    ensures merged.description != existing.description ==> HasText(patch.description)
    ensures patch.dueDate.Some? ==> merged.dueDate == patch.dueDate
    ensures merged.dueDate != existing.dueDate ==> patch.dueDate.Some?
    ensures patch.status.Some? ==> merged.status == patch.status
    ensures merged.status != existing.status ==> patch.status.Some?
    ensures patch.priority.Some? ==> merged.priority == patch.priority
    ensures merged.priority != existing.priority ==> patch.priority.Some?
  {
    existing.(
      title := if HasText(patch.title) then patch.title else existing.title,
      description := if HasText(patch.description) then patch.description else existing.description,
      dueDate := if patch.dueDate.Some? then patch.dueDate else existing.dueDate,
      status := if patch.status.Some? then patch.status else existing.status,
      priority := if patch.priority.Some? then patch.priority else existing.priority,
      updated := Some(now))
  }

  /** Applying the same patch twice changes nothing more than applying it
      once. */
  lemma MergeTaskIdempotent(existing: Task, patch: Task, now: Timestamp)
    ensures MergeTask(MergeTask(existing, patch, now), patch, now) == MergeTask(existing, patch, now)
  {
  }

  class TaskService {
    const store: Store

    constructor (store: Store)
      ensures this.store == store
    {
      this.store := store;
    }

    /** `listTask`: the stored tasks whose owner is the given list. */
    method ListTask(taskListId: Id) returns (found: map<Id, Task>)
      ensures found == FindByTaskListId(store.tasks, taskListId)
    {
      found := FindByTaskListId(store.tasks, taskListId);
    }

    /** `createTask`: after the guards, stores a new task of list
        `taskListId` under a fresh identifier, with the candidate's title,
        description and due date, MEDIUM / OPEN where priority / status are
        unset, and `created == updated == now`. */
    method CreateTask(taskListId: Id, task: Task, now: Timestamp) returns (r: Result<Task>)
      requires store.Valid()
      modifies store
      ensures store.Valid() && store.taskLists == old(store.taskLists)
      ensures ValidateNewTask(task, old(store.taskLists), taskListId).Some? ==>
                && r == Err(ValidateNewTask(task, old(store.taskLists), taskListId).value)
                && store.tasks == old(store.tasks)
      ensures ValidateNewTask(task, old(store.taskLists), taskListId).None? ==>
                && r.Ok? && r.value.id.Some? && r.value.id.value !in old(store.tasks)
                && r.value.title == task.title && r.value.description == task.description
                && r.value.dueDate == task.dueDate
                && (task.priority.None? ==> r.value.priority == Some(Medium))
                && (task.priority.Some? ==> r.value.priority == task.priority)
                && (task.status.None? ==> r.value.status == Some(Open))
                && (task.status.Some? ==> r.value.status == task.status)
                && r.value.taskList == Some(taskListId)
                && r.value.created == Some(now) && r.value.updated == Some(now)
                && store.tasks == old(store.tasks)[r.value.id.value := r.value]
    {
      if task.id.Some? {
        return Err(TaskHasId);
      }
      if !HasText(task.title) {
        return Err(TaskTitleMissing);
      }
      var taskPriority := task.priority.GetOr(Medium);
      var taskStatus := task.status.GetOr(Open);
      var taskList := store.FindTaskList(taskListId);
      if taskList.None? {
        return Err(InvalidTaskListId);
      }
      var taskToSave := Task(None, task.title, task.description, task.dueDate,
                             Some(taskStatus), Some(taskPriority), taskList.value.id,
                             Some(now), Some(now));
      var saved := store.SaveTask(taskToSave);
      r := Ok(saved);
    }

    /** `getTask`: the task with that identifier in that list, if any. */
    method GetTask(taskListId: Id, taskId: Id) returns (found: Option<Task>)
      ensures found == FindByTaskListIdAndId(store.tasks, taskListId, taskId)
    {
      found := FindByTaskListIdAndId(store.tasks, taskListId, taskId);
    }

    /** `deleteTask`: its body is empty, so it removes nothing and raises
        nothing. */
    method DeleteTask(taskListId: Id, taskId: Id)
      ensures store.tasks == old(store.tasks) && store.taskLists == old(store.taskLists)
    {
    }

    /** `updateTask`: NotFound unless the (list, task) pair resolves; then
        InvalidInput, with the store untouched, for a due date in the past;
        otherwise the stored task is replaced by its partial update. */
    method UpdateTask(taskListId: Id, taskId: Id, task: Task, now: Timestamp) returns (r: Result<Task>)
      requires store.Valid()
      modifies store
      ensures store.Valid() && store.taskLists == old(store.taskLists)
      ensures FindByTaskListIdAndId(old(store.tasks), taskListId, taskId).None? ==>
                r == Err(TaskNotFound) && store.tasks == old(store.tasks)
      ensures FindByTaskListIdAndId(old(store.tasks), taskListId, taskId).Some? && IsDueDateInPast(task, now) ==>
                r == Err(DueDateInPast) && store.tasks == old(store.tasks)
      ensures FindByTaskListIdAndId(old(store.tasks), taskListId, taskId).Some? && !IsDueDateInPast(task, now) ==>
                && r == Ok(MergeTask(old(store.tasks)[taskId], task, now))
                && store.tasks == old(store.tasks)[taskId := r.value]
    {
      var found := FindByTaskListIdAndId(store.tasks, taskListId, taskId);
      if found.None? {
        return Err(TaskNotFound);
      }
      var existingTask := found.value;
      if HasText(task.title) {
        existingTask := existingTask.(title := task.title);
      }
      if HasText(task.description) {
        existingTask := existingTask.(description := task.description);
      }
      if task.dueDate.Some? {
        if task.dueDate.value < now {
          return Err(DueDateInPast);
        }
        existingTask := existingTask.(dueDate := task.dueDate);
      }
      if task.status.Some? {
        existingTask := existingTask.(status := task.status);
      }
      if task.priority.Some? {
        existingTask := existingTask.(priority := task.priority);
      }
      existingTask := existingTask.(updated := Some(now));
      var saved := store.SaveTask(existingTask);
      r := Ok(saved);
    }
  }
}
