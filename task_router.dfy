/** The task routes: create, list with filters, sorting and pagination, get,
    partial update and delete. */
module TaskRouter {
  import opened Http
  import opened Text
  import opened TaskModel
  import opened TaskSchemas
  import opened SqlOrder
  import OrderedKeys
  import opened TaskStore

  // ---- create_task --------------------------------------------------------

  /** `create_task`: one row is added under the next rowid with the given
      fields and no owner; nothing else changes. */
  method CreateTask(table: TaskTable, req: TaskCreate, stamp: int) returns (r: Result<Task>)
    requires table.Valid()
    modifies table
    ensures table.Valid()
    ensures !ValidTaskCreate(req) ==> r == Err(UnprocessableEntity) && table.tasks == old(table.tasks)
    ensures ValidTaskCreate(req) ==>
              var id := OrderedKeys.NextRowId(old(table.tasks).Keys);
              && r == Ok(Task(id, None, req.title, req.description, req.status, req.priority, stamp, stamp, req.dueDate))
              && id !in old(table.tasks)
              && table.tasks == old(table.tasks)[id := r.value]
  {
    if !ValidTaskCreate(req) {
      return Err(UnprocessableEntity);
    }
    var t := table.Add(None, req.title, req.description, req.status, req.priority, req.dueDate, stamp);
    r := Ok(t);
  }

  // ---- get_tasks ------------------------------------------------------------

  /** The columns of the task model, the names `getattr` can find on it. */
  datatype Column =
    | IdColumn | UserIdColumn | TitleColumn | DescriptionColumn | StatusColumn
    | PriorityColumn | CreatedAtColumn | UpdatedAtColumn | DueDateColumn

  function ColumnName(c: Column): string {
    match c
    case IdColumn => "id"
    case UserIdColumn => "user_id"
    case TitleColumn => "title"
    case DescriptionColumn => "description"
    case StatusColumn => "status"
    case PriorityColumn => "priority"
    case CreatedAtColumn => "created_at"
    case UpdatedAtColumn => "updated_at"
    case DueDateColumn => "due_date"
  }

  /** `getattr(Task, sort_by, Task.created_at)`: the column of that name, else `created_at`. */
  function SortColumn(sortBy: string): (c: Column)
    ensures (exists k :: ColumnName(k) == sortBy) ==> ColumnName(c) == sortBy
    ensures (forall k :: ColumnName(k) != sortBy) ==> c == CreatedAtColumn
  {
    if sortBy == "id" then IdColumn
    else if sortBy == "user_id" then UserIdColumn
    else if sortBy == "title" then TitleColumn
    else if sortBy == "description" then DescriptionColumn
    else if sortBy == "status" then StatusColumn
    else if sortBy == "priority" then PriorityColumn
    else if sortBy == "updated_at" then UpdatedAtColumn
    else if sortBy == "due_date" then DueDateColumn
    else CreatedAtColumn
  }

  function IntOrNull(v: Option<int>): Value {
    if v.Some? then Integer(v.value) else Null
  }

  /** The value the store compares for a row in a column. Enum columns hold
      the member names as text, so priorities rank alphabetically. */
  function ColumnValue(t: Task, c: Column): Value {
    match c
    case IdColumn => Integer(t.id)
    case UserIdColumn => IntOrNull(t.userId)
    case TitleColumn => Text(t.title)
    case DescriptionColumn => if t.description.Some? then Text(t.description.value) else Null
    case StatusColumn => Text(StatusValue(t.status))
    case PriorityColumn => Text(PriorityValue(t.priority))
    case CreatedAtColumn => Integer(t.createdAt)
    case UpdatedAtColumn => Integer(t.updatedAt)
    case DueDateColumn => IntOrNull(t.dueDate)
  }

  /** `order.lower() == "desc"`. */
  predicate Descending(order: string) {
    Lower(order) == "desc"
  }

  /** Exactly the 16 case variants of "desc" sort descending; anything else
      ("asc", "descending", "", a typo) sorts ascending. */
  lemma DescendingSpellings(order: string)
    ensures Descending(order) <==>
              && |order| == 4
              && (order[0] == 'd' || order[0] == 'D') && (order[1] == 'e' || order[1] == 'E')
              && (order[2] == 's' || order[2] == 'S') && (order[3] == 'c' || order[3] == 'C')
  {
    var l := Lower(order);
    if |order| == 4 {
      assert l == "desc" <==> l[0] == 'd' && l[1] == 'e' && l[2] == 's' && l[3] == 'c';
    }
  }

  /** The query parameters of the listing route. */
  datatype TaskQuery = TaskQuery(
    status: Option<Status>,
    priority: Option<Priority>,
    sortBy: string,
    order: string,
    page: int,
    pageSize: int)

  const MaxPageSize: int := 100

  /** The parameters when none is given. */
  const DefaultQuery: TaskQuery := TaskQuery(None, None, "created_at", "desc", 1, 10)

  /** `page >= 1` and `1 <= page_size <= 100`, checked before the handler runs. */
  predicate ValidQuery(q: TaskQuery) {
    q.page >= 1 && 1 <= q.pageSize <= MaxPageSize
  }

  /** Without parameters the listing is the first ten rows, newest first. */
  lemma DefaultQueryNewestFirst()
    ensures ValidQuery(DefaultQuery) && PageOffset(DefaultQuery) == 0 && DefaultQuery.pageSize == 10
    ensures SortColumn(DefaultQuery.sortBy) == CreatedAtColumn && Descending(DefaultQuery.order)
  {
    DescendingSpellings(DefaultQuery.order);
  }

  predicate Matches(t: Task, status: Option<Status>, priority: Option<Priority>) {
    (status.Some? ==> t.status == status.value) && (priority.Some? ==> t.priority == priority.value)
  }

  /** The `where` clauses: the rows matching the filters that are given, in order. */
  function Matching(rows: seq<Task>, status: Option<Status>, priority: Option<Priority>): (r: seq<Task>)
    ensures forall t :: t in r <==> t in rows && Matches(t, status, priority)
    ensures forall t :: multiset(r)[t] == if Matches(t, status, priority) then multiset(rows)[t] else 0
  {
    if rows == [] then []
    else
      var rest := Matching(rows[1..], status, priority);
      assert rows == [rows[0]] + rows[1..];
      if Matches(rows[0], status, priority) then [rows[0]] + rest else rest
  }

  /** The `order_by` key of a `sort_by` parameter. */
  function SortKey(sortBy: string): Task -> Value {
    (t: Task) => ColumnValue(t, SortColumn(sortBy))
  }

  /** All matching rows, ranked by the `order_by` clause. */
  function Ranking(tasks: map<int, Task>, q: TaskQuery): (ranked: seq<Task>)
    ensures multiset(ranked) == multiset(Matching(OrderedKeys.Scan(tasks), q.status, q.priority))
    ensures forall t :: t in ranked ==> t in tasks.Values && Matches(t, q.status, q.priority)
  {
    var rows := Matching(OrderedKeys.Scan(tasks), q.status, q.priority);
    var ranked := SortBy(rows, SortKey(q.sortBy), Descending(q.order));
    forall t | t in ranked ensures t in tasks.Values && Matches(t, q.status, q.priority) {
      assert t in multiset(ranked);
      assert t in rows;
    }
    ranked
  }

  /** The ranking follows the `order_by` clause. */
  lemma RankingOrdered(tasks: map<int, Task>, q: TaskQuery)
    ensures Ordered(Ranking(tasks, q), SortKey(q.sortBy), Descending(q.order))
  {
    var rows := Matching(OrderedKeys.Scan(tasks), q.status, q.priority);
    assert Ranking(tasks, q) == SortBy(rows, SortKey(q.sortBy), Descending(q.order));
  }

  /** The offset of a page: `(page - 1) * page_size`. */
  function PageOffset(q: TaskQuery): nat
    requires ValidQuery(q)
  {
    (q.page - 1) * q.pageSize
  }

  /** `get_tasks`: filter, rank, then cut out page `page` of `page_size` rows.
      An offset past the store's 64-bit integers cannot be bound: 500. */
  function GetTasks(tasks: map<int, Task>, q: TaskQuery): (r: Result<seq<Task>>)
    ensures !ValidQuery(q) <==> r == Err(UnprocessableEntity)
    ensures ValidQuery(q) && PageOffset(q) > MaxInt64 <==> r == Err(InternalServerError)
    ensures r.Err? ==> r.error == UnprocessableEntity || r.error == InternalServerError
    ensures r.Ok? ==> |r.value| <= q.pageSize
    ensures r.Ok? ==> forall t :: t in r.value ==> t in tasks.Values && Matches(t, q.status, q.priority)
    ensures r.Ok? ==> r.value == OffsetLimit(Ranking(tasks, q), PageOffset(q), q.pageSize)
  {
    if !ValidQuery(q) then Err(UnprocessableEntity)
    else if PageOffset(q) > MaxInt64 then Err(InternalServerError)
    else
      var ranked := Ranking(tasks, q);
      Ok(OffsetLimit(ranked, PageOffset(q), q.pageSize))
  }

  /** Each page lists its rows in the order the `order_by` clause asks for. */
  lemma GetTasksOrdered(tasks: map<int, Task>, q: TaskQuery)
    requires GetTasks(tasks, q).Ok?
    ensures Ordered(GetTasks(tasks, q).value, SortKey(q.sortBy), Descending(q.order))
  {
    RankingOrdered(tasks, q);
    OffsetLimitOrdered(Ranking(tasks, q), PageOffset(q), q.pageSize, SortKey(q.sortBy), Descending(q.order));
  }

  /** Page `k / page_size + 1` starts at the multiple of `page_size` at or below `k`. */
  lemma PageOfPosition(q: TaskQuery, k: nat)
    requires ValidQuery(q)
    ensures ValidQuery(q.(page := k / q.pageSize + 1))
    ensures PageOffset(q.(page := k / q.pageSize + 1)) + k % q.pageSize == k
    ensures 0 <= k % q.pageSize < q.pageSize
    ensures PageOffset(q.(page := k / q.pageSize + 1)) <= k
  {
    var n := q.pageSize;
    assert k / n >= 0;
    assert (k / n) * n + k % n == k;
  }

  /** Pagination skips nothing: the row at position `k` of the ranking is row
      `k % page_size` of page `k / page_size + 1` (up to the 64-bit offsets the
      store accepts). */
  lemma EveryRankedTaskOnItsPage(tasks: map<int, Task>, q: TaskQuery, k: nat)
    requires ValidQuery(q) && k < |Ranking(tasks, q)| && k <= MaxInt64
    ensures var p := q.(page := k / q.pageSize + 1);
            GetTasks(tasks, p).Ok? && k % q.pageSize < |GetTasks(tasks, p).value|
            && GetTasks(tasks, p).value[k % q.pageSize] == Ranking(tasks, q)[k]
  {
    PageOfPosition(q, k);
    RankedRowOnPage(tasks, q, k / q.pageSize + 1, k % q.pageSize, k);
  }

  /** Row `j` of page `page` is the ranked row at that page's offset plus `j`. */
  lemma RankedRowOnPage(tasks: map<int, Task>, q: TaskQuery, page: int, j: nat, k: nat)
    requires ValidQuery(q.(page := page)) && j < q.pageSize
    requires PageOffset(q.(page := page)) + j == k && k < |Ranking(tasks, q)| && k <= MaxInt64
    ensures GetTasks(tasks, q.(page := page)).Ok? && j < |GetTasks(tasks, q.(page := page)).value|
    ensures GetTasks(tasks, q.(page := page)).value[j] == Ranking(tasks, q)[k]
  {
    var p := q.(page := page);
    RankingIgnoresPage(tasks, q, page);
    PageAccepted(tasks, p);
    RowOfPage(tasks, p, j, k);
  }

  /** The page parameter does not take part in the ranking. */
  lemma RankingIgnoresPage(tasks: map<int, Task>, q: TaskQuery, page: int)
    ensures Ranking(tasks, q.(page := page)) == Ranking(tasks, q)
  {
    var p := q.(page := page);
    assert p.sortBy == q.sortBy && p.order == q.order && p.status == q.status && p.priority == q.priority;
  }

  /** Row `j` of an accepted page is the ranked row at position `k`, the
      page's offset plus `j`. */
  lemma RowOfPage(tasks: map<int, Task>, p: TaskQuery, j: nat, k: nat)
    requires GetTasks(tasks, p).Ok? && ValidQuery(p)
    requires j < p.pageSize && PageOffset(p) + j == k && k < |Ranking(tasks, p)|
    ensures j < |GetTasks(tasks, p).value|
    ensures GetTasks(tasks, p).value[j] == Ranking(tasks, p)[k]
  {
    var rows := OffsetLimit(Ranking(tasks, p), PageOffset(p), p.pageSize);
    assert GetTasks(tasks, p).value == rows;
    OffsetLimitAt(Ranking(tasks, p), PageOffset(p), p.pageSize, j);
  }

  /** A valid query whose offset the store can bind is answered. */
  lemma PageAccepted(tasks: map<int, Task>, p: TaskQuery)
    requires ValidQuery(p) && PageOffset(p) <= MaxInt64
    ensures GetTasks(tasks, p) == Ok(OffsetLimit(Ranking(tasks, p), PageOffset(p), p.pageSize))
  {
  }

  // ---- get_task -------------------------------------------------------------

  /** The lookup `select(Task).where(Task.id == task_id)` of get, update and
      delete: the row with that id, or 404; an id the store's 64-bit integers
      cannot hold makes the query raise: 500. */
  function GetTask(tasks: map<int, Task>, taskId: int): (r: Result<Task>)
    ensures r.Ok? <==> FitsInt64(taskId) && taskId in tasks
    ensures r.Ok? ==> r.value == tasks[taskId]
    ensures !FitsInt64(taskId) <==> r == Err(InternalServerError)
    ensures FitsInt64(taskId) && taskId !in tasks <==> r == Err(NotFound)
  {
    if !FitsInt64(taskId) then Err(InternalServerError)
    else if taskId in tasks then Ok(tasks[taskId])
    else Err(NotFound)
  }

  // ---- update_task ----------------------------------------------------------

  /** `setattr(task, key, value)` for one sent field. A null sent for a NOT NULL
      column (title, status, priority) leaves nothing storable; that is caught
      at commit (`NullsRequired`), so the value is kept here. */
  function SetField(t: Task, f: FieldValue): Task {
    match f
    case TitleField(v) => if v.Some? then t.(title := v.value) else t
    case DescriptionField(v) => t.(description := v)
    case StatusField(v) => if v.Some? then t.(status := v.value) else t
    case PriorityField(v) => if v.Some? then t.(priority := v.value) else t
    case DueDateField(v) => t.(dueDate := v)
  }

  /** Whether a sent field puts NULL into a NOT NULL column. */
  predicate NullsRequired(f: FieldValue) {
    (f.TitleField? && f.title.None?) || (f.StatusField? && f.status.None?) || (f.PriorityField? && f.priority.None?)
  }

  /** The `setattr` loop over a prefix of the sent fields. */
  function SetFields(t: Task, fields: seq<FieldValue>): Task
    decreases |fields|
  {
    if fields == [] then t else SetField(SetFields(t, fields[..|fields| - 1]), fields[|fields| - 1])
  }

  /** A PATCH body that nulls a NOT NULL column. */
  predicate NullsRequiredColumn(u: TaskUpdate) {
    u.title == Assigned(None) || u.status == Assigned(None) || u.priority == Assigned(None)
  }

  /** The intended effect of a PATCH, field by field: a sent field takes the
      sent value (null included, for the nullable columns), an unsent field
      and the id, owner and timestamps keep theirs. */
  function Patched(t: Task, u: TaskUpdate): (r: Task)
    requires !NullsRequiredColumn(u)
    ensures r.id == t.id && r.userId == t.userId && r.createdAt == t.createdAt && r.updatedAt == t.updatedAt
    ensures r.title == (if u.title.Assigned? then u.title.value.value else t.title)
    ensures r.description == (if u.description.Assigned? then u.description.value else t.description)
    ensures r.status == (if u.status.Assigned? then u.status.value.value else t.status)
    ensures r.priority == (if u.priority.Assigned? then u.priority.value.value else t.priority)
    ensures r.dueDate == (if u.dueDate.Assigned? then u.dueDate.value else t.dueDate)
  {
    Task(t.id, t.userId,
         if u.title.Assigned? then u.title.value.value else t.title,
         if u.description.Assigned? then u.description.value else t.description,
         if u.status.Assigned? then u.status.value.value else t.status,
         if u.priority.Assigned? then u.priority.value.value else t.priority,
         t.createdAt, t.updatedAt,
         if u.dueDate.Assigned? then u.dueDate.value else t.dueDate)
  }

  lemma {:induction false} SetFieldsAppend(t: Task, a: seq<FieldValue>, b: seq<FieldValue>)
    ensures SetFields(t, a + b) == SetFields(SetFields(t, a), b)
    decreases |b|
  {
    if b == [] {
      assert a + b == a;
    } else {
      var b' := b[..|b| - 1];
      assert (a + b)[..|a + b| - 1] == a + b';
      SetFieldsAppend(t, a, b');
    }
  }

  lemma SetTitleEntry(t: Task, u: TaskUpdate)
    requires u.title != Assigned(None)
    ensures SetFields(t, TitleEntry(u)) == if u.title.Assigned? then t.(title := u.title.value.value) else t
  {
    if u.title.Assigned? {
      assert TitleEntry(u)[..0] == [];
    }
  }

  lemma SetDescriptionEntry(t: Task, u: TaskUpdate)
    ensures SetFields(t, DescriptionEntry(u)) == if u.description.Assigned? then t.(description := u.description.value) else t
  {
    if u.description.Assigned? {
      assert DescriptionEntry(u)[..0] == [];
    }
  }

  lemma SetStatusEntry(t: Task, u: TaskUpdate)
    requires u.status != Assigned(None)
    ensures SetFields(t, StatusEntry(u)) == if u.status.Assigned? then t.(status := u.status.value.value) else t
  {
    if u.status.Assigned? {
      assert StatusEntry(u)[..0] == [];
    }
  }

  lemma SetPriorityEntry(t: Task, u: TaskUpdate)
    requires u.priority != Assigned(None)
    ensures SetFields(t, PriorityEntry(u)) == if u.priority.Assigned? then t.(priority := u.priority.value.value) else t
  {
    if u.priority.Assigned? {
      assert PriorityEntry(u)[..0] == [];
    }
  }

  lemma SetDueDateEntry(t: Task, u: TaskUpdate)
    ensures SetFields(t, DueDateEntry(u)) == if u.dueDate.Assigned? then t.(dueDate := u.dueDate.value) else t
  {
    if u.dueDate.Assigned? {
      assert DueDateEntry(u)[..0] == [];
    }
  }

  /** Running the `setattr` loop over `model_dump(exclude_unset=True)` has the
      field-by-field effect of the PATCH. */
  lemma SetAssignedFields(t: Task, u: TaskUpdate)
    requires !NullsRequiredColumn(u)
    ensures SetFields(t, AssignedFields(u)) == Patched(t, u)
  {
    var title, description, status, priority, dueDate :=
      TitleEntry(u), DescriptionEntry(u), StatusEntry(u), PriorityEntry(u), DueDateEntry(u);
    SetFieldsAppend(t, title + description + status + priority, dueDate);
    SetFieldsAppend(t, title + description + status, priority);
    SetFieldsAppend(t, title + description, status);
    SetFieldsAppend(t, title, description);
    var t1 := SetFields(t, title);
    SetTitleEntry(t, u);
    var t2 := SetFields(t1, description);
    SetDescriptionEntry(t1, u);
    var t3 := SetFields(t2, status);
    SetStatusEntry(t2, u);
    var t4 := SetFields(t3, priority);
    SetPriorityEntry(t3, u);
    SetDueDateEntry(t4, u);
  }

  /** The commit fails exactly when some sent field nulls a NOT NULL column. */
  lemma NullViolationOfAssignedFields(u: TaskUpdate)
    ensures (exists j :: 0 <= j < |AssignedFields(u)| && NullsRequired(AssignedFields(u)[j])) <==> NullsRequiredColumn(u)
  {
    var fields := AssignedFields(u);
    if NullsRequiredColumn(u) {
      if u.title == Assigned(None) {
        assert TitleField(None) in fields;
      } else if u.status == Assigned(None) {
        assert StatusField(None) in fields;
      } else {
        assert PriorityField(None) in fields;
      }
    }
  }

  /** The `setattr` loop of `update_task` on the loaded row, with whether the
      commit that follows would put NULL into a NOT NULL column. */
  method ApplyFields(original: Task, updateData: seq<FieldValue>) returns (task: Task, nullViolation: bool)
    ensures task == SetFields(original, updateData)
    ensures nullViolation <==> exists j :: 0 <= j < |updateData| && NullsRequired(updateData[j])
  {
    task := original;
    nullViolation := false;
    for i := 0 to |updateData|
      invariant task == SetFields(original, updateData[..i])
      invariant nullViolation <==> exists j :: 0 <= j < i && NullsRequired(updateData[j])
    {
      assert updateData[..i + 1][..i] == updateData[..i];
      task := SetField(task, updateData[i]);
      nullViolation := nullViolation || NullsRequired(updateData[i]);
    }
    assert updateData[..|updateData|] == updateData;
  }

  /** `update_task`: the lookup's 404 or 500 and nothing changes; otherwise
      exactly the sent fields of that row are overwritten and every other row
      is unchanged. A null for a NOT NULL column makes the commit fail: 500,
      nothing stored. The commit writes only when some column's value changed,
      and then `onupdate` sets `updated_at` to the commit time `stamp`. */
  method UpdateTask(table: TaskTable, taskId: int, patch: TaskUpdate, stamp: int) returns (r: Result<Task>)
    requires table.Valid()
    modifies table
    ensures table.Valid()
    ensures !ValidTaskUpdate(patch) ==> r == Err(UnprocessableEntity) && table.tasks == old(table.tasks)
    ensures ValidTaskUpdate(patch) && GetTask(old(table.tasks), taskId).Err? ==>
              r == Err(GetTask(old(table.tasks), taskId).error) && table.tasks == old(table.tasks)
    ensures ValidTaskUpdate(patch) && GetTask(old(table.tasks), taskId).Ok? && NullsRequiredColumn(patch) ==>
              r == Err(InternalServerError) && table.tasks == old(table.tasks)
    ensures ValidTaskUpdate(patch) && GetTask(old(table.tasks), taskId).Ok? && !NullsRequiredColumn(patch) ==>
              var original := old(table.tasks)[taskId];
              var patched := Patched(original, patch);
              && r == Ok(if patched == original then original else patched.(updatedAt := stamp))
              && table.tasks == old(table.tasks)[taskId := r.value]
  {
    if !ValidTaskUpdate(patch) {
      return Err(UnprocessableEntity);
    }
    var found := GetTask(table.tasks, taskId);
    if found.Err? {
      return Err(found.error);
    }
    var updateData := AssignedFields(patch);
    var task, nullViolation := ApplyFields(found.value, updateData);
    NullViolationOfAssignedFields(patch);
    if nullViolation {
      return Err(InternalServerError);
    }
    SetAssignedFields(found.value, patch);
    if task != found.value {
      task := task.(updatedAt := stamp);
    }
    table.Put(task);
    r := Ok(task);
  }

  // ---- delete_task ----------------------------------------------------------

  /** `delete_task`: the lookup's 404 or 500 and nothing changes; otherwise
      exactly that row is removed. */
  method DeleteTask(table: TaskTable, taskId: int) returns (r: Result<()>)
    requires table.Valid()
    modifies table
    ensures table.Valid()
    ensures GetTask(old(table.tasks), taskId).Err? ==>
              r == Err(GetTask(old(table.tasks), taskId).error) && table.tasks == old(table.tasks)
    ensures GetTask(old(table.tasks), taskId).Ok? ==> r == Ok(()) && table.tasks == old(table.tasks) - {taskId}
  {
    var found := GetTask(table.tasks, taskId);
    if found.Err? {
      return Err(found.error);
    }
    table.Remove(taskId);
    r := Ok(());
  }
}
