/** The `tasks` table: its row type, the closed status and priority
    enumerations and the column defaults. */
module TaskModel {
  import opened Http

  /** `TaskStatus`: exactly "todo", "in_progress" and "done". */
  datatype Status = Todo | InProgress | Done

  /** `TaskPriority`: exactly "low", "medium", "high" and "urgent". */
  datatype Priority = Low | Medium | High | Urgent

  function StatusValue(s: Status): string {
    match s
    case Todo => "todo"
    case InProgress => "in_progress"
    case Done => "done"
  }

  function PriorityValue(p: Priority): string {
    match p
    case Low => "low"
    case Medium => "medium"
    case High => "high"
    case Urgent => "urgent"
  }

  /** Reading a status from its spelling; any other string is rejected. */
  function ParseStatus(v: string): (r: Option<Status>)
    ensures r.Some? <==> v in {"todo", "in_progress", "done"}
    ensures forall s :: StatusValue(s) == v <==> r == Some(s)
  {
    if v == "todo" then Some(Todo)
    else if v == "in_progress" then Some(InProgress)
    else if v == "done" then Some(Done)
    else None
  }

  /** Reading a priority from its spelling; any other string is rejected. */
  function ParsePriority(v: string): (r: Option<Priority>)
    ensures r.Some? <==> v in {"low", "medium", "high", "urgent"}
    ensures forall p :: PriorityValue(p) == v <==> r == Some(p)
  {
    if v == "low" then Some(Low)
    else if v == "medium" then Some(Medium)
    else if v == "high" then Some(High)
    else if v == "urgent" then Some(Urgent)
    else None
  }

  const DefaultStatus: Status := Todo
  const DefaultPriority: Priority := Medium
  /** `String(200)` on the title column. */
  const TitleMaxLength: nat := 200

  /** A row of the `tasks` table. The owner reference is nullable; timestamps
      and the due date are opaque instants. */
  datatype Task = Task(
    id: int,
    userId: Option<int>,
    title: string,
    description: Option<string>,
    status: Status,
    priority: Priority,
    createdAt: int,
    updatedAt: int,
    dueDate: Option<int>)
}
