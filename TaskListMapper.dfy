/**
 * Translation between the TaskList entity and the TaskListDto record, and
 * the two values the DTO derives from the task collection: the task count
 * and the completion progress.
 */
module TaskListMapper {
  import opened Domain
  import TaskMapper

  /**
   * The progress reported on the wire (a nullable Double in the source).
   * Absent is null (no task collection); Undefined is the result of the
   * division 0 / 0 on an empty collection, which Java evaluates to NaN;
   * Ratio is the exact quotient closed / total.
   */
  datatype Progress = Absent | Undefined | Ratio(value: real)

  datatype TaskListDto = TaskListDto(
    id: Option<Id>,
    title: Option<string>,
    description: Option<string>,
    count: Option<int>,
    progress: Progress,
    tasks: Option<seq<TaskMapper.TaskDto>>)

  predicate IsClosed(task: Task) {
    task.status == Some(Closed)
  }

  /** The number of CLOSED tasks (`stream().filter(...).count()`). A task
      whose status is null is not closed. */
  function ClosedCount(tasks: seq<Task>): (n: nat)
    ensures n <= |tasks|
  {
    if tasks == [] then 0
    else (if IsClosed(tasks[0]) then 1 else 0) + ClosedCount(tasks[1..])
  }

  /** The count is 0 exactly when no task is closed. */
  lemma {:induction false} NoneClosed(tasks: seq<Task>)
    ensures ClosedCount(tasks) == 0 <==> forall i :: 0 <= i < |tasks| ==> !IsClosed(tasks[i])
  {
    if tasks != [] {
      NoneClosed(tasks[1..]);
      assert forall i :: 1 <= i < |tasks| ==> tasks[i] == tasks[1..][i - 1];
    }
  }

  /** The count is the size exactly when every task is closed. */
  lemma {:induction false} AllClosed(tasks: seq<Task>)
    ensures ClosedCount(tasks) == |tasks| <==> forall i :: 0 <= i < |tasks| ==> IsClosed(tasks[i])
  {
    if tasks != [] {
      AllClosed(tasks[1..]);
      assert forall i :: 1 <= i < |tasks| ==> tasks[i] == tasks[1..][i - 1];
    }
  }

  /** The completion progress of a task collection: absent without a
      collection, undefined for an empty one, otherwise the fraction of
      closed tasks, which lies in [0, 1] and is 1 or 0 exactly when all or
      none of the tasks are closed. */
  function CalculateProgress(tasks: Option<seq<Task>>): (p: Progress)
    ensures p.Absent? <==> tasks.None?
    ensures p.Undefined? <==> tasks == Some([])
    ensures p.Ratio? ==> p.value * (|tasks.value| as real) == ClosedCount(tasks.value) as real
    ensures p.Ratio? ==> 0.0 <= p.value <= 1.0
    ensures p.Ratio? ==> (p.value == 1.0 <==> forall i :: 0 <= i < |tasks.value| ==> IsClosed(tasks.value[i]))
    ensures p.Ratio? ==> (p.value == 0.0 <==> forall i :: 0 <= i < |tasks.value| ==> !IsClosed(tasks.value[i]))
  {
    match tasks
    case None => Absent
    case Some(ts) =>
      if |ts| == 0 then Undefined
      else
        var closed, total := ClosedCount(ts) as real, |ts| as real;
        NoneClosed(ts);
        AllClosed(ts);
        RatioBounds(closed, total);
        Ratio(closed / total)
  }

  lemma RatioBounds(closed: real, total: real)
    requires 0.0 <= closed <= total && total > 0.0
    ensures (closed / total) * total == closed
    ensures 0.0 <= closed / total <= 1.0
    ensures closed / total == 1.0 <==> closed == total
    ensures closed / total == 0.0 <==> closed == 0.0
  {
  }

  function TaskCount(tasks: Option<seq<Task>>): (n: int)
    ensures tasks.None? ==> n == 0
    ensures tasks.Some? ==> n == |tasks.value|
  {
    match tasks
    case None => 0
    case Some(ts) => |ts|
  }

  /** Maps an entity to a DTO: the count and progress are derived from the
      task collection, and the tasks are mapped one by one in order. */
  function ToDto(list: TaskList): (dto: TaskListDto)
    ensures dto.id == list.id && dto.title == list.title && dto.description == list.description
    ensures dto.count == Some(TaskCount(list.tasks))
    ensures dto.progress == CalculateProgress(list.tasks)
    ensures dto.tasks.None? <==> list.tasks.None?
    ensures dto.tasks.Some? ==> |dto.tasks.value| == |list.tasks.value|
    ensures dto.tasks.Some? ==> forall i :: 0 <= i < |dto.tasks.value| ==>
              dto.tasks.value[i] == TaskMapper.ToDto(list.tasks.value[i])
  {
    TaskListDto(
      list.id, list.title, list.description,
      Some(TaskCount(list.tasks)),
      CalculateProgress(list.tasks),
      match list.tasks
      case None => None
      case Some(ts) => Some(seq(|ts|, i requires 0 <= i < |ts| => TaskMapper.ToDto(ts[i]))))
  }

  /** Maps a DTO to an entity: the count and progress of the DTO are
      ignored, both timestamps are null, and the tasks are mapped one by one
      in order. */
  function FromDto(dto: TaskListDto): (list: TaskList)
    ensures list.id == dto.id && list.title == dto.title && list.description == dto.description
    ensures list.created.None? && list.updated.None?
    ensures list.tasks.None? <==> dto.tasks.None?
    ensures list.tasks.Some? ==> |list.tasks.value| == |dto.tasks.value|
    ensures list.tasks.Some? ==> forall i :: 0 <= i < |list.tasks.value| ==>
              list.tasks.value[i] == TaskMapper.FromDto(dto.tasks.value[i])
  {
    TaskList(
      dto.id, dto.title, dto.description,
      match dto.tasks
      case None => None
      case Some(ds) => Some(seq(|ds|, i requires 0 <= i < |ds| => TaskMapper.FromDto(ds[i]))),
      None, None)
  }

  /** A DTO mapped to an entity and back is the same DTO except for the two
      derived fields, which are recomputed from its tasks. */
  lemma {:induction false} DtoRoundTrip(dto: TaskListDto)
    ensures ToDto(FromDto(dto)).(count := dto.count, progress := dto.progress) == dto
  {
    if dto.tasks.Some? {
      var back := ToDto(FromDto(dto)).tasks.value;
      assert |back| == |dto.tasks.value|;
      forall i | 0 <= i < |back| ensures back[i] == dto.tasks.value[i] {
        assert back[i] == TaskMapper.ToDto(TaskMapper.FromDto(dto.tasks.value[i]));
      }
      assert back == dto.tasks.value;
    }
  }

  /** Taking one task out of a sequence takes its share out of the count. */
  lemma {:induction false} RemoveAtCount(t: seq<Task>, j: nat)
    requires j < |t|
    ensures ClosedCount(t) == (if IsClosed(t[j]) then 1 else 0) + ClosedCount(t[..j] + t[j + 1..])
  {
    if j == 0 {
      assert t[..0] + t[1..] == t[1..];
    } else {
      var rest := t[..j] + t[j + 1..];
      RemoveAtCount(t[1..], j - 1);
      assert rest[0] == t[0];
      assert rest[1..] == t[1..][..j - 1] + t[1..][j..];
    }
  }

  /** Two sequences with the same elements still have the same elements
      once the first element of one and an occurrence of it in the other
      are taken out. */
  lemma RemoveMatching(s: seq<Task>, t: seq<Task>, j: nat)
    requires multiset(s) == multiset(t) && s != [] && j < |t| && t[j] == s[0]
    ensures multiset(s[1..]) == multiset(t[..j] + t[j + 1..])
  {
    RemoveAtMultiset(t, j);
    assert s == [s[0]] + s[1..];
    assert multiset(s) == multiset{s[0]} + multiset(s[1..]);
  }

  lemma RemoveAtMultiset(t: seq<Task>, j: nat)
    requires j < |t|
    ensures multiset(t[..j] + t[j + 1..]) == multiset(t) - multiset{t[j]}
  {
    var before, after := t[..j], t[j + 1..];
    assert t == before + [t[j]] + after;
    assert multiset(t) == multiset(before) + multiset{t[j]} + multiset(after);
  }

  lemma Occurrence(t: seq<Task>, x: Task) returns (j: nat)
    requires x in multiset(t)
    ensures j < |t| && t[j] == x
  {
    assert x in t;
    j :| 0 <= j < |t| && t[j] == x;
  }

  /** The closed count depends only on which tasks there are, not on
      their order. */
  lemma {:induction false} ClosedCountPermutation(s: seq<Task>, t: seq<Task>)
    requires multiset(s) == multiset(t)
    ensures ClosedCount(s) == ClosedCount(t)
    decreases |s|
  {
    if s == [] {
      assert |t| == |multiset(t)| == |multiset(s)| == 0;
    } else {
      var j := Occurrence(t, s[0]);
      RemoveMatching(s, t, j);
      RemoveAtCount(t, j);
      ClosedCountPermutation(s[1..], t[..j] + t[j + 1..]);
    }
  }

  /** The store hands tasks back in an order of its own; the progress of
      a list does not depend on that order. */
  lemma ProgressPermutation(s: seq<Task>, t: seq<Task>)
    requires multiset(s) == multiset(t)
    ensures CalculateProgress(Some(s)) == CalculateProgress(Some(t))
  {
    ClosedCountPermutation(s, t);
    assert |s| == |multiset(s)| == |multiset(t)| == |t|;
  }

  /** Two of four tasks closed: progress one half. */
  lemma HalfClosed(a: Task, b: Task, c: Task, d: Task)
    requires a.status == Some(Closed) && b.status == Some(Open)
    requires c.status == Some(Closed) && d.status == None
    ensures CalculateProgress(Some([a, b, c, d])) == Ratio(0.5)
  {
    assert [d][1..] == [] && [c, d][1..] == [d];
    assert [b, c, d][1..] == [c, d] && [a, b, c, d][1..] == [b, c, d];
    assert ClosedCount([d]) == 0;
    assert ClosedCount([c, d]) == 1;
    assert ClosedCount([b, c, d]) == 1;
    assert ClosedCount([a, b, c, d]) == 2;
  }

  /** One of four tasks closed: progress one quarter. */
  lemma QuarterClosed(a: Task, b: Task, c: Task, d: Task)
    requires a.status == Some(Open) && b.status == Some(InProgress)
    requires c.status == Some(Closed) && d.status == Some(Open)
    ensures CalculateProgress(Some([a, b, c, d])) == Ratio(0.25)
  {
    assert [d][1..] == [] && [c, d][1..] == [d];
    assert [b, c, d][1..] == [c, d] && [a, b, c, d][1..] == [b, c, d];
    assert ClosedCount([d]) == 0;
    assert ClosedCount([c, d]) == 1;
    assert ClosedCount([b, c, d]) == 1;
    assert ClosedCount([a, b, c, d]) == 1;
  }
}
