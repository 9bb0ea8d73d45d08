/** The Tasks table as a map from Id to row, and the effect of each SQL
    statement the two services issue against it. The table declares `Id TEXT PRIMARY
    KEY`, so a row is determined by its Id and a map keyed by Id loses nothing. */
module Table {
  import opened Model

  type Rows = map<string, TodoTask>

  /** The primary key: every row is stored under its own Id. */
  predicate Keyed(rows: Rows)
  {
    forall k :: k in rows ==> rows[k].id == k
  }

  /** SELECT * FROM Tasks WHERE Id = @Id LIMIT 1, read with QuerySingleOrDefault. */
  function SelectById(rows: Rows, id: string): (r: Option<TodoTask>)
    ensures r.Some? <==> id in rows
    ensures r.Some? ==> r.value == rows[id]
    ensures Keyed(rows) && r.Some? ==> r.value.id == id
  {
    if id in rows then Some(rows[id]) else None
  }

  /** INSERT INTO Tasks (...) VALUES (...): one new row under t's Id. The primary
      key rejects an Id that is already present, so neither service issues the
      statement before checking that it is absent. */
  function Insert(rows: Rows, t: TodoTask): (r: Rows)
    requires t.id !in rows
    ensures r.Keys == rows.Keys + {t.id}
    ensures r[t.id] == t
    ensures forall k :: k in rows ==> r[k] == rows[k]
    ensures |r| == |rows| + 1
    ensures Keyed(rows) ==> Keyed(r)
  {
    rows[t.id := t]
  }

  /** The SET list of the UPDATE statement: every column of the row except Id
      takes t's value. */
  function SetColumns(row: TodoTask, t: TodoTask): (r: TodoTask)
    ensures r.id == row.id
    ensures r.(id := t.id) == t
  {
    row.(title := t.title, details := t.details, author := t.author,
         started := t.started, completed := t.completed, lastModified := t.lastModified)
  }

  /** UPDATE Tasks SET Title = @Title, ..., LastModified = @LastModified, which
      has no WHERE clause: it rewrites every row, not only the row with t's Id. */
  function UpdateAll(rows: Rows, t: TodoTask): (r: Rows)
    ensures r.Keys == rows.Keys
    ensures forall k :: k in r ==> r[k].id == rows[k].id && r[k].(id := t.id) == t
  {
    map k | k in rows :: SetColumns(rows[k], t)
  }

  /** DELETE FROM Tasks WHERE Id = @Id. */
  function DeleteWhereId(rows: Rows, id: string): (r: Rows)
    ensures r.Keys == rows.Keys - {id}
    ensures forall k :: k in r ==> r[k] == rows[k]
    ensures |r| == if id in rows then |rows| - 1 else |rows|
    ensures Keyed(rows) ==> Keyed(r)
  {
    rows - {id}
  }

  /** The number of rows the DELETE reports as affected: the rows whose Id
      column equals id. Under the primary key there is at most one. */
  function DeleteCount(rows: Rows, id: string): (n: nat)
    requires Keyed(rows)
    ensures n <= 1
    ensures n > 0 <==> id in rows
  {
    var matching := set k | k in rows && rows[k].id == id;
    assert matching == if id in rows then {id} else {};
    |matching|
  }

  /** After the UPDATE every row is t under its own Id: the table holds |rows|
      copies of the one new record, each keeping its key. */
  lemma UpdateAllRows(rows: Rows, t: TodoTask)
    requires Keyed(rows)
    ensures Keyed(UpdateAll(rows, t))
    ensures forall k :: k in rows ==> UpdateAll(rows, t)[k] == t.(id := k)
    ensures |UpdateAll(rows, t)| == |rows|
  {
    var r := UpdateAll(rows, t);
    forall k | k in rows
      ensures r[k] == t.(id := k)
    {
      assert r[k].id == k;
    }
    assert r.Keys == rows.Keys;
  }

  /** The row the caller meant to update holds exactly t. */
  lemma UpdateAllTarget(rows: Rows, t: TodoTask)
    requires Keyed(rows) && t.id in rows
    ensures UpdateAll(rows, t)[t.id] == t
  {
    UpdateAllRows(rows, t);
  }

  /** Any other row keeps its value only if it already had t's non-Id columns,
      so the update is not confined to the targeted row. */
  lemma UpdateAllOtherRow(rows: Rows, t: TodoTask, k: string)
    requires Keyed(rows) && k in rows && k != t.id
    ensures UpdateAll(rows, t)[k] == rows[k] <==> rows[k] == t.(id := k)
  {
    UpdateAllRows(rows, t);
  }

  /** A two-row table in which updating one row changes the other. */
  lemma UpdateAllChangesUntargetedRow()
    ensures
      var a := TodoTask("a", "x", "x", "x", MinValue, MaxValue, MinValue);
      var b := TodoTask("b", "y", "y", "y", MinValue, MaxValue, MinValue);
      var rows := map["a" := a, "b" := b];
      Keyed(rows) && UpdateAll(rows, a)["b"] != b
  {
    var a := TodoTask("a", "x", "x", "x", MinValue, MaxValue, MinValue);
    var b := TodoTask("b", "y", "y", "y", MinValue, MaxValue, MinValue);
    var rows := map["a" := a, "b" := b];
    assert UpdateAll(rows, a)["b"].title == "x";
  }

  /** Under the primary key no two rows are equal, so SELECT * returns as many
      tasks as there are keys. */
  lemma {:induction false} ValuesCount(rows: Rows)
    requires Keyed(rows)
    ensures |rows.Values| == |rows|
    decreases |rows|
  {
    if rows == map[] {
      assert rows.Values == {};
    } else {
      var k :| k in rows;
      var rest := rows - {k};
      assert Keyed(rest);
      ValuesCount(rest);
      assert rows.Values == rest.Values + {rows[k]} by {
        forall v | v in rows.Values ensures v in rest.Values + {rows[k]} {
          var j :| j in rows && rows[j] == v;
          if j != k {
            assert rest[j] == v;
          }
        }
      }
      assert rows[k] !in rest.Values;
      assert rest.Keys == rows.Keys - {k};
      assert |rest| == |rows| - 1;
    }
  }
}
