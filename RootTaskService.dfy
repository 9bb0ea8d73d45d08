/** TodoTaskService of the root variant. Create stores the task as it is given:
    the handler has already set its Id and LastModified. */
module RootTaskService {
  import opened Model
  import Table

  class TodoTaskService {
    /** The Tasks table, keyed by Id. */
    var rows: map<string, TodoTask>

    ghost predicate Valid()
      reads this
    {
      Table.Keyed(rows)
    }

    /** A service over a freshly created database, whose Tasks table is empty. */
    constructor ()
      ensures Valid() && rows == map[]
    {
      rows := map[];
    }

    /** Inserts the task under its own Id unless that Id is already a key. */
    method Create(task: TodoTask) returns (created: bool)
      requires Valid()
      modifies this
      ensures Valid()
      ensures created <==> task.id !in old(rows)
      ensures created ==> rows == Table.Insert(old(rows), task)
      ensures !created ==> rows == old(rows)
    {
      var existing := GetTodoTaskById(task.id);
      if existing.Some? {
        return false;
      }
      rows := Table.Insert(rows, task);
      var result := 1;
      created := result > 0;
    }

    method GetTodoTaskById(id: string) returns (found: Option<TodoTask>)
      requires Valid()
      ensures found.Some? <==> id in rows
      ensures found.Some? ==> found.value == rows[id] && found.value.id == id
    {
      found := Table.SelectById(rows, id);
    }

    /** Every stored task, one per key. */
    method GetAll() returns (tasks: set<TodoTask>)
      requires Valid()
      ensures tasks == rows.Values
      ensures |tasks| == |rows|
      ensures forall t :: t in tasks ==> t.id in rows && rows[t.id] == t
    {
      tasks := rows.Values;
      Table.ValuesCount(rows);
    }

    /** Fails without a change when task.Id is not a key. Otherwise refreshes
        LastModified and issues the UPDATE, which has no WHERE clause and so
        writes the task's non-Id columns into every row. */
    method Update(task: TodoTask, now: Ticks) returns (updated: bool, written: TodoTask)
      requires Valid()
      modifies this
      ensures Valid()
      ensures updated <==> task.id in old(rows)
      ensures !updated ==> rows == old(rows) && written == task
      ensures updated ==> written == task.(lastModified := now)
      ensures updated ==> rows == Table.UpdateAll(old(rows), written)
      ensures updated ==> rows.Keys == old(rows).Keys && rows[task.id] == written
      ensures updated ==> forall k :: k in rows ==> rows[k] == written.(id := k)
    {
      written := task;
      var existing := GetTodoTaskById(task.id);
      if existing.None? {
        return false, written;
      }
      written := task.(lastModified := now);
      var result := |rows|;
      Table.UpdateAllRows(rows, written);
      rows := Table.UpdateAll(rows, written);
      updated := result > 0;
    }

    method Delete(id: string) returns (deleted: bool)
      requires Valid()
      modifies this
      ensures Valid()
      ensures deleted <==> id in old(rows)
      ensures rows == Table.DeleteWhereId(old(rows), id)
      ensures id !in rows && |rows| == if deleted then |old(rows)| - 1 else |old(rows)|
    {
      var result := Table.DeleteCount(rows, id);
      rows := Table.DeleteWhereId(rows, id);
      deleted := result > 0;
    }
  }
}
