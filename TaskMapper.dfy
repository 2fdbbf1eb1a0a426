/**
 * Translation between the Task entity and the TaskDto record carried on
 * the wire: a field-by-field copy in each direction.
 */
module TaskMapper {
  import opened Domain

  /** The wire record; it has no owner and no timestamps. */
  datatype TaskDto = TaskDto(
    id: Option<Id>,
    title: Option<string>,
    description: Option<string>,
    dueDate: Option<Timestamp>,
    priority: Option<TaskPriority>,
    status: Option<TaskStatus>)

  /** What is left of an entity once it has been through a DTO: the six
      copied fields, with the owner and both timestamps null. */
  function Detached(task: Task): Task {
    task.(taskList := None, created := None, updated := None)
  }

  /** Builds an entity from a DTO. Nothing of the DTO is lost: mapping the
      entity back gives the same DTO. */
  function FromDto(dto: TaskDto): (task: Task)
    ensures ToDto(task) == dto
    ensures task.taskList.None? && task.created.None? && task.updated.None?
  {
    Task(dto.id, dto.title, dto.description, dto.dueDate, dto.status, dto.priority,
         None, None, None)
  }

  /** Builds a DTO from an entity, copying its six wire fields. */
  function ToDto(task: Task): (dto: TaskDto)
    ensures dto.id == task.id && dto.title == task.title && dto.description == task.description
    ensures dto.dueDate == task.dueDate && dto.priority == task.priority && dto.status == task.status
  {
    TaskDto(task.id, task.title, task.description, task.dueDate, task.priority, task.status)
  }

  /** Mapping an entity to a DTO and back drops its owner and timestamps,
      and only those; an entity without them survives unchanged. */
  lemma EntityRoundTrip(task: Task)
    ensures FromDto(ToDto(task)) == Detached(task)
    ensures FromDto(ToDto(task)) == task <==> task.taskList.None? && task.created.None? && task.updated.None?
  {
  }
}
