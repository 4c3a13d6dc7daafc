/** Request and response shapes of the task routes, with the field
    constraints the framework checks before a handler runs. */
module TaskSchemas {
  import opened Http
  import opened TaskModel

  /** `TaskCreate` (= `TaskBase`): a required title and four fields with defaults. */
  datatype TaskCreate = TaskCreate(
    title: string,
    description: Option<string>,
    status: Status,
    priority: Priority,
    dueDate: Option<int>)

  /** A `TaskCreate` that gives only the title. */
  function TaskCreateWithDefaults(title: string): (c: TaskCreate)
    ensures c.title == title && c.description.None? && c.dueDate.None?
    ensures c.status == Todo && c.priority == Medium
  {
    TaskCreate(title, None, DefaultStatus, DefaultPriority, None)
  }

  predicate ValidTaskCreate(c: TaskCreate) {
    |c.title| <= TitleMaxLength
  }

  /** Whether a field of a PATCH body was sent at all; a sent field may still be null. */
  datatype Patch<T> = Unset | Assigned(value: T)

  /** `TaskUpdate`: every field optional and nullable. */
  datatype TaskUpdate = TaskUpdate(
    title: Patch<Option<string>>,
    description: Patch<Option<string>>,
    status: Patch<Option<Status>>,
    priority: Patch<Option<Priority>>,
    dueDate: Patch<Option<int>>)

  const EmptyUpdate: TaskUpdate := TaskUpdate(Unset, Unset, Unset, Unset, Unset)

  /** The title limit still applies to a title that is sent and not null. */
  predicate ValidTaskUpdate(u: TaskUpdate) {
    u.title.Assigned? && u.title.value.Some? ==> |u.title.value.value| <= TitleMaxLength
  }

  /** One entry of `model_dump(exclude_unset=True)`: a field name with its value. */
  datatype FieldValue =
    | TitleField(title: Option<string>)
    | DescriptionField(description: Option<string>)
    | StatusField(status: Option<Status>)
    | PriorityField(priority: Option<Priority>)
    | DueDateField(dueDate: Option<int>)

  /** `model_dump(exclude_unset=True)`: the sent fields, in declaration order, nulls included. */
  function AssignedFields(u: TaskUpdate): (fields: seq<FieldValue>)
    ensures |fields| <= 5
    ensures u == EmptyUpdate <==> fields == []
    ensures forall v :: TitleField(v) in fields <==> u.title == Assigned(v)
    ensures forall v :: DescriptionField(v) in fields <==> u.description == Assigned(v)
    ensures forall v :: StatusField(v) in fields <==> u.status == Assigned(v)
    ensures forall v :: PriorityField(v) in fields <==> u.priority == Assigned(v)
    ensures forall v :: DueDateField(v) in fields <==> u.dueDate == Assigned(v)
  {
    var title, description, status, priority, dueDate :=
      TitleEntry(u), DescriptionEntry(u), StatusEntry(u), PriorityEntry(u), DueDateEntry(u);
    var fields := title + description + status + priority + dueDate;
    assert forall f :: f in fields <==> f in title || f in description || f in status || f in priority || f in dueDate;
    fields
  }

  function TitleEntry(u: TaskUpdate): (e: seq<FieldValue>)
    ensures |e| <= 1 && (e == [] <==> u.title.Unset?)
    ensures e != [] ==> e[0] == TitleField(u.title.value)
  {
    if u.title.Assigned? then [TitleField(u.title.value)] else []
  }

  function DescriptionEntry(u: TaskUpdate): (e: seq<FieldValue>)
    ensures |e| <= 1 && (e == [] <==> u.description.Unset?)
    ensures e != [] ==> e[0] == DescriptionField(u.description.value)
  {
    if u.description.Assigned? then [DescriptionField(u.description.value)] else []
  }

  function StatusEntry(u: TaskUpdate): (e: seq<FieldValue>)
    ensures |e| <= 1 && (e == [] <==> u.status.Unset?)
    ensures e != [] ==> e[0] == StatusField(u.status.value)
  {
    if u.status.Assigned? then [StatusField(u.status.value)] else []
  }

  function PriorityEntry(u: TaskUpdate): (e: seq<FieldValue>)
    ensures |e| <= 1 && (e == [] <==> u.priority.Unset?)
    ensures e != [] ==> e[0] == PriorityField(u.priority.value)
  {
    if u.priority.Assigned? then [PriorityField(u.priority.value)] else []
  }

  function DueDateEntry(u: TaskUpdate): (e: seq<FieldValue>)
    ensures |e| <= 1 && (e == [] <==> u.dueDate.Unset?)
    ensures e != [] ==> e[0] == DueDateField(u.dueDate.value)
  {
    if u.dueDate.Assigned? then [DueDateField(u.dueDate.value)] else []
  }

  /** `TaskResponse`: a task as returned, without the owner reference. */
  datatype TaskResponse = TaskResponse(
    id: int,
    title: string,
    description: Option<string>,
    status: Status,
    priority: Priority,
    dueDate: Option<int>,
    createdAt: int,
    updatedAt: int)

  function ToTaskResponse(t: Task): (r: TaskResponse)
    ensures r.id == t.id && r.title == t.title && r.description == t.description
    ensures r.status == t.status && r.priority == t.priority && r.dueDate == t.dueDate
    ensures r.createdAt == t.createdAt && r.updatedAt == t.updatedAt
  {
    TaskResponse(t.id, t.title, t.description, t.status, t.priority, t.dueDate, t.createdAt, t.updatedAt)
  }
}
