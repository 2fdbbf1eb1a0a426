/**
 * The persistence layer behind the services, as an in-memory store: the
 * task-list table and the task table, each keyed by identifier, the two
 * derived queries of the task repository, and the save / find / exists /
 * delete operations the services call.
 */
module Repositories {
  import opened Domain

  /** `findByTaskListId`: the stored tasks whose owning list is
      `taskListId`, all of them and no others, keyed as in the store. */
  function FindByTaskListId(tasks: map<Id, Task>, taskListId: Id): (found: map<Id, Task>)
    ensures forall id :: id in found ==> id in tasks && found[id] == tasks[id]
    ensures forall id :: id in found ==> found[id].taskList == Some(taskListId)
    ensures forall id :: id in tasks && tasks[id].taskList == Some(taskListId) ==> id in found
  {
    map id | id in tasks && tasks[id].taskList == Some(taskListId) :: tasks[id]
  }

  /** `findByTaskListIdAndId`: the task stored under `id`, provided it
      belongs to `taskListId`; a task of another list is not found. */
  function FindByTaskListIdAndId(tasks: map<Id, Task>, taskListId: Id, id: Id): (found: Option<Task>)
    ensures found.Some? <==> id in tasks && tasks[id].taskList == Some(taskListId)
    ensures found.Some? ==> found.value == tasks[id]
    ensures found.Some? ==> id in FindByTaskListId(tasks, taskListId)
                            && FindByTaskListId(tasks, taskListId)[id] == found.value
    ensures id in tasks && tasks[id].taskList != Some(taskListId) ==> found.None?
  {
    if id in tasks && tasks[id].taskList == Some(taskListId) then Some(tasks[id]) else None
  }

  /** Every stored record carries the key it is stored under. */
  ghost predicate KeyedById(lists: map<Id, TaskList>, tasks: map<Id, Task>) {
    && (forall id :: id in lists ==> lists[id].id == Some(id))
    && (forall id :: id in tasks ==> tasks[id].id == Some(id))
  }

  /** The two tables. The identifier generator is modelled as the choice of
      some key not yet in the table. */
  class Store {
    var taskLists: map<Id, TaskList>
    var tasks: map<Id, Task>

    ghost predicate Valid()
      reads this
    {
      KeyedById(taskLists, tasks)
    }

    constructor ()
      ensures Valid()
      ensures taskLists == map[] && tasks == map[]
    {
      taskLists, tasks := map[], map[];
    }

    /** `taskListRepository.findById`. */
    function FindTaskList(id: Id): (found: Option<TaskList>)
      reads this
      ensures found.Some? <==> id in taskLists
      ensures found.Some? ==> found.value == taskLists[id]
    {
      if id in taskLists then Some(taskLists[id]) else None
    }

    /** `taskListRepository.save`: a list without an identifier is inserted
        under a fresh one; a list with one overwrites that entry. */
    method SaveTaskList(list: TaskList) returns (saved: TaskList)
      requires Valid()
      modifies this
      ensures Valid() && tasks == old(tasks)
      ensures saved.id.Some? && saved == list.(id := saved.id)
      ensures list.id.Some? ==> saved == list
      ensures list.id.None? ==> saved.id.value !in old(taskLists)
      ensures taskLists == old(taskLists)[saved.id.value := saved]
    {
      var key: Id;
      if list.id.Some? {
        key := list.id.value;
      } else {
        FreshKeyExists(taskLists.Keys);
        key :| key !in taskLists;
      }
      saved := list.(id := Some(key));
      taskLists := taskLists[key := saved];
    }

    /** `taskListRepository.deleteById`. */
    method DeleteTaskListById(id: Id)
      requires Valid()
      modifies this
      ensures Valid() && tasks == old(tasks)
      ensures taskLists == old(taskLists) - {id}
    {
      taskLists := taskLists - {id};
    }

    /** `taskRepository.save`, with the same insert-or-overwrite rule. */
    method SaveTask(task: Task) returns (saved: Task)
      requires Valid()
      modifies this
      ensures Valid() && taskLists == old(taskLists)
      ensures saved.id.Some? && saved == task.(id := saved.id)
      ensures task.id.Some? ==> saved == task
      ensures task.id.None? ==> saved.id.value !in old(tasks)
      ensures tasks == old(tasks)[saved.id.value := saved]
    {
      var key: Id;
      if task.id.Some? {
        key := task.id.value;
      } else {
        FreshKeyExists(tasks.Keys);
        key :| key !in tasks;
      }
      saved := task.(id := Some(key));
      tasks := tasks[key := saved];
    }
  }

  /** A finite set of keys always leaves some key unused. */
  lemma FreshKeyExists(keys: set<Id>)
    ensures exists key: Id :: key !in keys
  {
    var bound := UpperBound(keys);
    assert bound !in keys;
  }

  lemma {:induction false} UpperBound(keys: set<Id>) returns (bound: Id)
    ensures forall key :: key in keys ==> key < bound
    decreases keys
  {
    if keys == {} {
      bound := 0;
    } else {
      var k :| k in keys;
      var rest := UpperBound(keys - {k});
      bound := if k < rest then rest else k + 1;
      assert forall key :: key in keys ==> key == k || key in keys - {k};
    }
  }
}
