/**
 * Clients of the two services, showing what their contracts let a caller
 * conclude: defaults on creation, the status update, the progress of the
 * tasks listed for a list once all are closed, and cross-list isolation.
 */
module Scenarios {
  import opened Domain
  import opened Repositories
  import opened TaskListServices
  import opened TaskServices
  import TaskListMapper

  /** Create list "Home", create task "Clean" in it (OPEN, MEDIUM), close
      it: the progress of the tasks ListTask returns for the list is 1. */
  method CreateAndClose(now: Timestamp) {
    var store := new Store();
    var lists := new TaskListService(store);
    var tasks := new TaskService(store);

    assert "Home"[0] == 'H' && !IsWhitespace('H');
    var home := lists.CreateTaskList(TaskList(None, Some("Home"), None, None, None, None), now);
    var homeId := home.value.id.value;

    assert "Clean"[0] == 'C' && !IsWhitespace('C');
    var clean := tasks.CreateTask(homeId, Task(None, Some("Clean"), None, None, None, None, None, None, None), now);
    assert clean.Ok? && clean.value.status == Some(Open) && clean.value.priority == Some(Medium);
    var cleanId := clean.value.id.value;

    var closed := tasks.UpdateTask(homeId, cleanId, Task(None, None, None, None, Some(Closed), None, None, None, None), now);
    assert closed.Ok? && closed.value.status == Some(Closed) && closed.value.title == Some("Clean");

    // The progress of the tasks ListTask returns, not of the stored list,
    // whose collection is never loaded from the task table.
    var ofHome := tasks.ListTask(homeId);
    assert ofHome.Keys == {cleanId};
    assert TaskListMapper.CalculateProgress(Some([ofHome[cleanId]])) == TaskListMapper.Ratio(1.0);
  }

  /** A task of one list cannot be reached through another list's id. */
  method CrossListIsolation(now: Timestamp) {
    var store := new Store();
    var lists := new TaskListService(store);
    var tasks := new TaskService(store);

    assert "Home"[0] == 'H' && !IsWhitespace('H');
    var home := lists.CreateTaskList(TaskList(None, Some("Home"), None, None, None, None), now);
    var homeId := home.value.id.value;
    assert "Work"[0] == 'W' && !IsWhitespace('W');
    var work := lists.CreateTaskList(TaskList(None, Some("Work"), Some("office"), None, None, None), now);
    var workId := work.value.id.value;
    assert workId != homeId;

    assert "Clean"[0] == 'C' && !IsWhitespace('C');
    var clean := tasks.CreateTask(homeId, Task(None, Some("Clean"), None, None, None, None, None, None, None), now);
    var cleanId := clean.value.id.value;

    var elsewhere := tasks.GetTask(workId, cleanId);
    assert elsewhere.None?;
    var moved := tasks.UpdateTask(workId, cleanId, Task(None, Some("Clean"), None, None, None, None, None, None, None), now);
    assert moved == Err(TaskNotFound);
  }
}
