/** The `tasks` table as the task routes see it through their session: rows
    by primary key. As for users, a new row gets the largest id present plus
    one. */
module TaskStore {
  import opened Http
  import opened TaskModel
  import OrderedKeys

  /** The primary key of every row is the key it is stored under. */
  ghost predicate KeyedById(tasks: map<int, Task>) {
    forall id :: id in tasks ==> tasks[id].id == id
  }

  /** Every stored title is within the `String(200)` column. */
  ghost predicate TitlesFit(tasks: map<int, Task>) {
    forall id :: id in tasks ==> |tasks[id].title| <= TitleMaxLength
  }

  class TaskTable {
    var tasks: map<int, Task>

    ghost predicate Valid()
      reads this
    {
      && KeyedById(tasks)
      && (forall id :: id in tasks ==> id >= 1)
      && TitlesFit(tasks)
    }

    constructor ()
      ensures Valid() && tasks == map[]
    {
      tasks := map[];
    }

    /** `db.add` + `commit` + `refresh` of a new row: it gets the next rowid and the store's timestamps. */
    method Add(userId: Option<int>, title: string, description: Option<string>, status: Status, priority: Priority,
               dueDate: Option<int>, stamp: int) returns (t: Task)
      requires Valid() && |title| <= TitleMaxLength
      modifies this
      ensures Valid()
      ensures var id := OrderedKeys.NextRowId(old(tasks).Keys);
              && t == Task(id, userId, title, description, status, priority, stamp, stamp, dueDate)
              && id !in old(tasks) && tasks == old(tasks)[id := t]
    {
      var id := OrderedKeys.NextRowId(tasks.Keys);
      t := Task(id, userId, title, description, status, priority, stamp, stamp, dueDate);
      tasks := tasks[id := t];
    }

    /** `commit` of changed attributes of an existing row. */
    method Put(t: Task)
      requires Valid() && t.id in tasks && |t.title| <= TitleMaxLength
      modifies this
      ensures Valid()
      ensures tasks == old(tasks)[t.id := t]
    {
      tasks := tasks[t.id := t];
    }

    /** `db.delete` + `commit` of an existing row. */
    method Remove(id: int)
      requires Valid() && id in tasks
      modifies this
      ensures Valid()
      ensures tasks == old(tasks) - {id}
    {
      tasks := tasks - {id};
    }
  }
}
