/**
 * Values shared by the task tracker's mappers, store and services: the
 * optional ("nullable") wrapper, the two entities Task and TaskList, their
 * enumerations, and the error reasons the services raise.
 *
 * Every reference-typed field of the Java entities may be null; here each
 * such field is an Option. Identifiers (UUIDs) are abstract natural
 * numbers and timestamps (LocalDateTime) are integers on one clock.
 */
module Domain {

  /** A Java reference that may be null. */
  datatype Option<+T> = None | Some(value: T) {
    /** `Optional.ofNullable(x).orElse(default)`. */
    function GetOr(default: T): T {
      match this
      case Some(v) => v
      case None => default
    }
  }

  type Id = nat
  type Timestamp = int

  datatype TaskStatus = Open | InProgress | Closed
  datatype TaskPriority = Low | Medium | High

  /**
   * The Task entity. `taskList` is the owning list, held by its identifier
   * (the Java entity holds a reference to the TaskList object).
   */
  datatype Task = Task(
    id: Option<Id>,
    title: Option<string>,
    description: Option<string>,
    dueDate: Option<Timestamp>,
    status: Option<TaskStatus>,
    priority: Option<TaskPriority>,
    taskList: Option<Id>,
    created: Option<Timestamp>,
    updated: Option<Timestamp>)

  /** The TaskList entity with its (possibly null) collection of tasks. */
  datatype TaskList = TaskList(
    id: Option<Id>,
    title: Option<string>,
    description: Option<string>,
    tasks: Option<seq<Task>>,
    created: Option<Timestamp>,
    updated: Option<Timestamp>)

  /** `Character.isWhitespace`: the Unicode space, line and paragraph
      separators except the three non-breaking spaces, and the ASCII
      controls U+0009..U+000D and U+001C..U+001F. */
  predicate IsWhitespace(c: char) {
    || c == ' '
    || '\t' <= c <= '\r'
    || '\U{001C}' <= c <= '\U{001F}'
    || c == '\U{1680}'
    || '\U{2000}' <= c <= '\U{2006}'
    || '\U{2008}' <= c <= '\U{200A}'
    || c == '\U{2028}' || c == '\U{2029}'
    || c == '\U{205F}' || c == '\U{3000}'
  }

  /** `String.isBlank`: empty, or whitespace only. */
  predicate IsBlank(s: string) {
    forall i :: 0 <= i < |s| ==> IsWhitespace(s[i])
  }

  /** `s != null && !s.isBlank()`, the guard used for titles: a non-null
      string with at least one non-whitespace character. */
  predicate HasText(s: Option<string>)
    ensures HasText(s) <==> s.Some? && exists i :: 0 <= i < |s.value| && !IsWhitespace(s.value[i])
  {
    s.Some? && !IsBlank(s.value)
  }

  /** The two exception classes the services throw:
      IllegalArgumentException and ResourceNotFoundException. */
  datatype ErrorKind = InvalidInput | NotFound

  /** Why a service call failed, one constructor per `throw` site. */
  datatype Error =
    | TaskHasId
    | TaskTitleMissing
    | InvalidTaskListId
    | DueDateInPast
    | TaskNotFound
    | TaskListHasId
    | TaskListTitleMissing
    | TaskListNotFound(taskListId: Id)
  {
    /** IllegalArgumentException for the input guards,
        ResourceNotFoundException for the two failed lookups. */
    function Kind(): (kind: ErrorKind)
      ensures kind == NotFound <==> TaskNotFound? || TaskListNotFound?
    {
      match this
      case TaskNotFound | TaskListNotFound(_) => NotFound
      case _ => InvalidInput
    }

    /** The HTTP status the exception handler answers with. */
    function HttpStatus(): (code: int)
      ensures code == 404 <==> Kind() == NotFound
      ensures code == 400 <==> Kind() == InvalidInput
    {
      match Kind()
      case InvalidInput => 400
      case NotFound => 404
    }

    /** The exception message. The not-found message for a list carries the
        list's identifier, written in decimal between a fixed prefix and a
        fixed suffix, so the identifier can be read back from it. */
    function Message(): (text: string)
      ensures |text| > 0
      ensures TaskListNotFound? ==>
                && |text| > 28
                && text[..18] == "Task list with ID " && text[|text| - 10..] == " not found"
                && IsDigits(text[18..|text| - 10]) && DigitsValue(text[18..|text| - 10]) == taskListId
    {
      match this
      case TaskHasId => "Task already has an ID!"
      case TaskTitleMissing => "A task Must have a title"
      case InvalidTaskListId => "Invalid Task List ID provided"
      case DueDateInPast => "Due date cannot be in the past."
      case TaskNotFound => "Task with Not found!"
      case TaskListHasId => "Task list already has an ID!"
      case TaskListTitleMissing => "Title is required"
      case TaskListNotFound(id) =>
        var digits := Decimal(id);
        var text := "Task list with ID " + digits + " not found";
        assert text[..18] == "Task list with ID ";
        assert text[18..|text| - 10] == digits;
        assert text[|text| - 10..] == " not found";
        text
    }
  }

  predicate IsDigits(s: string) {
    forall i :: 0 <= i < |s| ==> '0' <= s[i] <= '9'
  }

  /** The number a string of decimal digits denotes, most significant
      digit first. */
  function DigitsValue(s: string): nat
    requires IsDigits(s)
  {
    if s == [] then 0
    else 10 * DigitsValue(s[..|s| - 1]) + (s[|s| - 1] as int - '0' as int)
  }

  /** The decimal text of `n`: digits only, without leading zeros, denoting
      `n`. */
  function Decimal(n: nat): (s: string)
    ensures |s| > 0 && IsDigits(s)
    ensures DigitsValue(s) == n
    ensures s[0] == '0' ==> n == 0
  {
    var digit := [('0' as int + n % 10) as char];
    if n < 10 then digit
    else
      var prefix := Decimal(n / 10);
      assert (prefix + digit)[..|prefix|] == prefix;
      prefix + digit
  }

  /** The outcome of a service call: a value, or the exception it threw. */
  datatype Result<+T> = Ok(value: T) | Err(error: Error)
}
