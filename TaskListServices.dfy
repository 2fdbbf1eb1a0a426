/**
 * The task-list service: lists, creates, looks up, updates and deletes task
 * lists in the shared store, with the creation guards and the
 * partial-update rules of the Java implementation.
 */
module TaskListServices {
  import opened Domain
  import opened Repositories

  /** The creation guards, in the order they are checked: a candidate that
      already has an identifier is refused before its title is looked at.
      Both refusals are InvalidInput. */
  function ValidateNewTaskList(candidate: TaskList): (err: Option<Error>)
    ensures candidate.id.Some? ==> err == Some(TaskListHasId)
    ensures candidate.id.None? && !HasText(candidate.title) ==> err == Some(TaskListTitleMissing)
    ensures err.None? <==> candidate.id.None? && HasText(candidate.title)
    ensures err.Some? ==> err.value.Kind() == InvalidInput
  {
    if candidate.id.Some? then Some(TaskListHasId)
    else if !HasText(candidate.title) then Some(TaskListTitleMissing)
    else None
  }

  /** The partial update of a stored list: the title is replaced only by a
      non-blank one, the description by any non-null one (a blank one
      included), `updated` is always refreshed, and nothing else moves. */
  function MergeTaskList(existing: TaskList, patch: TaskList, now: Timestamp): (merged: TaskList)
    ensures merged.id == existing.id && merged.created == existing.created
    ensures merged.tasks == existing.tasks
    ensures merged.updated == Some(now)
    ensures HasText(patch.title) ==> merged.title == patch.title
    ensures merged.title != existing.title ==> HasText(patch.title)
    ensures patch.description.Some? ==> merged.description == patch.description
    ensures merged.description != existing.description ==> patch.description.Some?
  {
    existing.(
      title := if HasText(patch.title) then patch.title else existing.title,
      description := if patch.description.Some? then patch.description else existing.description,
      updated := Some(now))
  }

  /** A patch that carries only a description leaves the title as it was
      and changes the description and `updated`, nothing else. */
  lemma DescriptionOnlyUpdate(existing: TaskList, description: string, now: Timestamp)
    ensures MergeTaskList(existing, TaskList(None, None, Some(description), None, None, None), now)
            == existing.(description := Some(description), updated := Some(now))
  {
  }

  /** Applying the same patch twice changes nothing more than applying it
      once. */
  lemma MergeTaskListIdempotent(existing: TaskList, patch: TaskList, now: Timestamp)
    ensures MergeTaskList(MergeTaskList(existing, patch, now), patch, now)
            == MergeTaskList(existing, patch, now)
  {
  }

  class TaskListService {
    const store: Store

    constructor (store: Store)
      ensures this.store == store
    {
      this.store := store;
    }

    /** `listTaskList`: every stored list. */
    method ListTaskList() returns (lists: set<TaskList>)
      ensures forall id :: id in store.taskLists ==> store.taskLists[id] in lists
      ensures forall list :: list in lists ==> exists id :: id in store.taskLists && store.taskLists[id] == list
    {
      lists := store.taskLists.Values;
    }

    /** `createTaskList`: after the guards, stores a copy of the candidate's
        title and description under a fresh identifier, without its nested
        tasks and stamped `created == updated == now`. */
    method CreateTaskList(taskList: TaskList, now: Timestamp) returns (r: Result<TaskList>)
      requires store.Valid()
      modifies store
      ensures store.Valid() && store.tasks == old(store.tasks)
      ensures ValidateNewTaskList(taskList).Some? ==>
                r == Err(ValidateNewTaskList(taskList).value) && store.taskLists == old(store.taskLists)
      ensures ValidateNewTaskList(taskList).None? ==>
                && r.Ok? && r.value.id.Some? && r.value.id.value !in old(store.taskLists)
                && r.value.title == taskList.title && r.value.description == taskList.description
                && r.value.tasks.None?
                && r.value.created == Some(now) && r.value.updated == Some(now)
                && store.taskLists == old(store.taskLists)[r.value.id.value := r.value]
    {
      if taskList.id.Some? {
        return Err(TaskListHasId);
      }
      if !HasText(taskList.title) {
        return Err(TaskListTitleMissing);
      }
      var saved := store.SaveTaskList(
        TaskList(None, taskList.title, taskList.description, None, Some(now), Some(now)));
      r := Ok(saved);
    }

    /** `getTaskList`: the stored list, or nothing; never an error. */
    method GetTaskList(id: Id) returns (found: Option<TaskList>)
      ensures found.Some? <==> id in store.taskLists
      ensures found.Some? ==> found.value == store.taskLists[id]
    {
      found := store.FindTaskList(id);
    }

    /** `updateTaskList`: NotFound for an unknown identifier; otherwise the
        stored list is replaced by its partial update. */
    method UpdateTaskList(taskListId: Id, taskList: TaskList, now: Timestamp) returns (r: Result<TaskList>)
      requires store.Valid()
      modifies store
      ensures store.Valid() && store.tasks == old(store.tasks)
      ensures taskListId !in old(store.taskLists) ==>
                r == Err(TaskListNotFound(taskListId)) && store.taskLists == old(store.taskLists)
      ensures taskListId in old(store.taskLists) ==>
                && r == Ok(MergeTaskList(old(store.taskLists)[taskListId], taskList, now))
                && store.taskLists == old(store.taskLists)[taskListId := r.value]
    {
      var found := store.FindTaskList(taskListId);
      if found.None? {
        return Err(TaskListNotFound(taskListId));
      }
      var existingTaskList := found.value;
      if HasText(taskList.title) {
        existingTaskList := existingTaskList.(title := taskList.title);
      }
      if taskList.description.Some? {
        existingTaskList := existingTaskList.(description := taskList.description);
      }
      existingTaskList := existingTaskList.(updated := Some(now));
      var saved := store.SaveTaskList(existingTaskList);
      r := Ok(saved);
    }

    /** `deleteTaskList`: NotFound for an unknown identifier, with the store
        untouched; otherwise exactly that entry is removed. */
    method DeleteTaskList(taskListId: Id) returns (r: Result<()>)
      requires store.Valid()
      modifies store
      ensures store.Valid() && store.tasks == old(store.tasks)
      ensures taskListId !in old(store.taskLists) ==>
                r == Err(TaskListNotFound(taskListId)) && store.taskLists == old(store.taskLists)
      ensures taskListId in old(store.taskLists) ==>
                r == Ok(()) && store.taskLists == old(store.taskLists) - {taskListId}
    {
      var exist := taskListId in store.taskLists;
      if !exist {
        return Err(TaskListNotFound(taskListId));
      }
      store.DeleteTaskListById(taskListId);
      r := Ok(());
    }
  }
}
