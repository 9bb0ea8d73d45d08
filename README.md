# Mattodo.Api — a Dafny model of the todo-task service

Mattodo.Api is a small HTTP service that creates, reads, updates and deletes
todo tasks kept in one SQLite table, `Tasks`, whose `Id` column is the primary
key. The repository holds two variants of it:

- the **src** variant (`src/Mattodo.Api/`): endpoint class `TodoTaskEndpoints`,
  service `TodoTaskService`, and a validator with four rules;
- the **root** variant (`Mattodo.Api/`): handler lambdas in `Program.cs`, its
  own `TodoTaskService`, and a validator with three rules.

This project models both variants and proves what each one does.

| file | module | models |
|---|---|---|
| `Model.dfy` | `Model` | the task record; DateTime as ticks; FluentValidation's `NotEmpty` on strings; the Guid text form; failure entries |
| `Table.dfy` | `Table` | the `Tasks` table as `map<string, TodoTask>`; the effect of each SQL statement; lemmas about them |
| `SrcValidator.dfy` | `SrcValidator` | the src validator: its rules and its failure list |
| `RootValidator.dfy` | `RootValidator` | the root validator |
| `Variants.dfy` | `Variants` | how the two validators relate |
| `SrcTaskService.dfy` | `SrcTaskService` | class `TodoTaskService` of the src variant |
| `RootTaskService.dfy` | `RootTaskService` | class `TodoTaskService` of the root variant |
| `Http.dfy` | `Http` | the handler results and their status codes |
| `SrcEndpoints.dfy` | `SrcEndpoints` | the five src handlers |
| `RootProgram.dfy` | `RootProgram` | the five root handler lambdas |
| `Scenarios.dfy` | `Scenarios` | request sequences of the integration tests, on a fresh service |

## How the model works

- **Tasks.** A task is a datatype value. Each timestamp is an integer tick count
  between `MinValue` (0) and `MaxValue` (3155378975999999999), the range of
  .NET's `DateTime`. `DateTime.Compare` compares tick counts.
- **The store.** Each service class has one field, `rows: map<string, TodoTask>`.
  Its invariant `Valid()` says that every row is stored under its own `Id`. That
  is the primary key, so a map keyed by `Id` is a faithful picture of the table.
  Each service method ends in one SQL statement. The method's postcondition
  links the new `rows` to the `Table` function for that statement: `Insert`,
  `UpdateAll` or `DeleteWhereId`. The `Table` lemmas then state what that
  statement does.
- **Inputs from outside.** `Guid.NewGuid()` and `DateTime.UtcNow` come in as the
  parameters `newId` and `now`.
- **The request object.** The C# code updates the request's `TodoTask` in place
  (`task.Id = ...`, `task.LastModified = ...`). The model returns the updated
  record instead, and the handlers use that value. The handlers keep no other
  reference to the object, so this loses nothing observable.
- **The UPDATE quirk.** Both services issue an `UPDATE` with no `WHERE` clause. The
  model keeps this on purpose.
  - Once the target id is known to exist, the statement writes the task's
    non-Id columns into **every** row. Keys do not change.
  - `Table.UpdateAllRows` and `Table.UpdateAllOtherRow` state this.
    `Table.UpdateAllChangesUntargetedRow` and `Scenarios.UpdateRewritesOtherTask`
    show a second task being rewritten.
  - The method returns `result > 0` and the table is non-empty, so an update of
    a present id reports success.
- **Validation.** The validators apply every rule, in order. Each failed rule
  adds one entry to the list. `NotEmpty` is FluentValidation's rule for
  strings: it rejects an empty string and one made only of white space, as
  `string.IsNullOrWhiteSpace` and `char.IsWhiteSpace` define it. This behaviour
  comes from the library, not from the repository's code; the model assumes
  it.

### Behaviour worth noting

- **The temporal rule.** The src validator checks `Started < Completed` on
  both create and update. The root validator never checks it; instead, root
  create overwrites `Started` and `Completed` with `MinValue` and `MaxValue`.
- **What update replaces.** Update rewrites every row of the table, not only
  the row with the task's id, as described above.
- **Update of an absent id.** Both variants validate before looking the id up,
  so a body that fails validation gets 400 even when the id is not stored. The
  root variant returns 404 before validating only when the path id and the
  body's Id differ.

## Model

| member | source | states |
|---|---|---|
| Model.Compare | src/Mattodo.Api/Validators/TodoTaskValidator.cs:14 | DateTime.Compare gives -1, 0 or 1, and is negative exactly when Started is earlier than Completed |
| Model.EmptyStringIsEmpty | src/Mattodo.Api/Validators/TodoTaskValidator.cs:10-12 | the empty string fails NotEmpty |
| Model.WhiteSpaceOnlyIsEmpty | src/Mattodo.Api/Validators/TodoTaskValidator.cs:10-12 | a string made only of white space fails NotEmpty |
| Model.NonBlankIsNotEmpty | src/Mattodo.Api/Validators/TodoTaskValidator.cs:10-12 | a string with one non-white-space character passes NotEmpty |
| Model.GuidIsNotEmpty | src/Mattodo.Api/Services/TodoTaskService.cs:16 | a generated Guid string is non-empty, so it differs from the empty id that clients send |
| Table.SelectById | src/Mattodo.Api/Services/TodoTaskService.cs:33-38 | the SELECT by Id finds a row exactly when the id is a key; the row it returns is the stored one and carries that id |
| Table.Insert | src/Mattodo.Api/Services/TodoTaskService.cs:25-30 | the INSERT adds exactly one key, the task's Id, mapped to the task; it leaves every other row unchanged, grows the table by one and keeps the primary key |
| Table.SetColumns | src/Mattodo.Api/Services/TodoTaskService.cs:60-61 | the SET list keeps the row's Id and gives every other column the task's value |
| Table.UpdateAll | src/Mattodo.Api/Services/TodoTaskService.cs:59-62 | the UPDATE without WHERE keeps the set of keys and rewrites every row: each keeps its Id and takes all other columns from the task |
| Table.DeleteWhereId | src/Mattodo.Api/Services/TodoTaskService.cs:69-70 | the DELETE removes exactly the given key; the other rows are unchanged, the size drops by one when the key was present, and the primary key holds |
| Table.DeleteCount | src/Mattodo.Api/Services/TodoTaskService.cs:69-71 | the DELETE affects the rows whose Id column equals the id; under the primary key that is at most one row, and one exactly when the id is a key |
| Table.UpdateAllRows | Mattodo.Api/Services/TodoTaskService.cs:56-59 | after the UPDATE, the row under each key k is the task with Id k; the primary key holds and the row count is unchanged |
| Table.UpdateAllTarget | Mattodo.Api/Services/TodoTaskService.cs:56-59 | the targeted row holds exactly the task as written |
| Table.UpdateAllOtherRow | Mattodo.Api/Services/TodoTaskService.cs:56-59 | another row keeps its value only when its non-Id columns already equal the task's |
| Table.UpdateAllChangesUntargetedRow | src/Mattodo.Api/Services/TodoTaskService.cs:60-61 | in a two-row table, updating one row changes the other |
| Table.ValuesCount | src/Mattodo.Api/Data/DatabaseInitializer.cs:19 | under the primary key the stored tasks are pairwise distinct, so there are as many of them as there are keys |
| SrcValidator.Failures | src/Mattodo.Api/Validators/TodoTaskValidator.cs:10-14 | the failure list is empty exactly when the task is valid, that is, when Title, Details and Author pass NotEmpty and Started is before Completed; each rule's entry is present exactly when that rule is broken; there are at most four entries and never a duplicate-id entry |
| SrcValidator.EqualTimestampsRejected | src/Mattodo.Api/Validators/TodoTaskValidator.cs:14 | Started equal to Completed is rejected with the temporal failure |
| SrcValidator.IgnoresIdAndLastModified | src/Mattodo.Api/Validators/TodoTaskValidator.cs:10-14 | changing Id or LastModified leaves the failure list and the verdict unchanged |
| RootValidator.Failures | Mattodo.Api/Validators/TodoTaskValidator.cs:10-12 | the failure list is empty exactly when Title, Details and Author pass NotEmpty; each entry is present exactly when its rule is broken; there is never a temporal entry |
| RootValidator.IgnoresOtherFields | Mattodo.Api/Validators/TodoTaskValidator.cs:10-13 | changing Id, Started, Completed or LastModified leaves the failure list unchanged, so timestamps are never checked |
| Variants.SrcFailuresExtendRoot | src/Mattodo.Api/Validators/TodoTaskValidator.cs:10-14 | the src failure list is the root failure list, followed by the temporal entry when Started is not before Completed |
| Variants.SrcValidImpliesRootValid | Mattodo.Api/Validators/TodoTaskValidator.cs:10-13 | every task the src validator accepts is accepted by the root validator |
| Variants.ValidatorsDiffer | src/Mattodo.Api/Validators/TodoTaskValidator.cs:14 | a task is accepted by root but rejected by src exactly when root accepts it and Started is not before Completed |
| Variants.RootAcceptsReversedTimestamps | Mattodo.Api/Validators/TodoTaskValidator.cs:10-13 | a concrete task with Started after Completed is accepted by root and rejected by src |
| Http.Response.Status | src/Mattodo.Api/Endpoints/TodoTaskEndpoints.cs:56-110 | every result maps to one of 200, 201, 204, 400 and 404; 200 is exactly the Ok results and 400 exactly the BadRequest results |
| Http.TaskLocation | src/Mattodo.Api/Endpoints/TodoTaskEndpoints.cs:13-68 | the Location of a created task is /tasks/ followed by its id |
| SrcTaskService.TodoTaskService.constructor | src/Mattodo.Api/Data/DatabaseInitializer.cs:17-25 | a service over a freshly created database starts with an empty table, which satisfies the primary key |
| SrcTaskService.TodoTaskService.CreateTodoTask | src/Mattodo.Api/Services/TodoTaskService.cs:14-31 | the task gets Id newId and LastModified now before the store is touched; when newId is already a key the result is false and the table is unchanged; otherwise exactly that row is inserted and the result is true |
| SrcTaskService.TodoTaskService.GetTodoTaskById | src/Mattodo.Api/Services/TodoTaskService.cs:33-38 | it returns the stored row when the id is a key and nothing otherwise; the row's Id is the id asked for; no state changes |
| SrcTaskService.TodoTaskService.GetAllTodoTasks | src/Mattodo.Api/Services/TodoTaskService.cs:40-45 | it returns every stored task, as many as there are keys, each the row under its own Id |
| SrcTaskService.TodoTaskService.UpdateTodoTask | src/Mattodo.Api/Services/TodoTaskService.cs:47-64 | an absent id gives false and no change; a present id gives true, LastModified = now, the same keys, and every row rewritten to the task under its own Id |
| SrcTaskService.TodoTaskService.DeleteTodoTask | src/Mattodo.Api/Services/TodoTaskService.cs:66-72 | the result is true exactly when the id was a key; that row is removed and nothing else changes |
| RootTaskService.TodoTaskService.constructor | src/Mattodo.Api/Data/DatabaseInitializer.cs:17-25 | a service over a freshly created database starts with an empty table, which satisfies the primary key |
| RootTaskService.TodoTaskService.Create | Mattodo.Api/Services/TodoTaskService.cs:14-28 | the caller's Id is used unchanged; an Id already present gives false and no change; otherwise exactly that row is inserted and the result is true |
| RootTaskService.TodoTaskService.GetTodoTaskById | Mattodo.Api/Services/TodoTaskService.cs:30-35 | it returns the stored row when the id is a key and nothing otherwise; no state changes |
| RootTaskService.TodoTaskService.GetAll | Mattodo.Api/Services/TodoTaskService.cs:37-42 | it returns every stored task, as many as there are keys |
| RootTaskService.TodoTaskService.Update | Mattodo.Api/Services/TodoTaskService.cs:44-61 | an absent id gives false and no change; a present id gives true, LastModified = now, the same keys, and every row rewritten to the task under its own Id |
| RootTaskService.TodoTaskService.Delete | Mattodo.Api/Services/TodoTaskService.cs:63-69 | the result is true exactly when the id was a key; that row is removed and nothing else changes |
| SrcEndpoints.CreateTodoTask | src/Mattodo.Api/Endpoints/TodoTaskEndpoints.cs:50-69 | an invalid body gives 400 with the validator's failures and no change to the store; a taken id gives 400 with the single Id failure; otherwise 201 at /tasks/{newId}, with the task carrying newId and now, and the task inserted |
| SrcEndpoints.GetAllTodoTasks | src/Mattodo.Api/Endpoints/TodoTaskEndpoints.cs:71-82 | the result is always 200 with every stored task |
| SrcEndpoints.GetTodoTaskById | src/Mattodo.Api/Endpoints/TodoTaskEndpoints.cs:84-89 | the result is 200 with the stored task exactly when the id is a key, and 404 otherwise |
| SrcEndpoints.UpdateTodoTask | src/Mattodo.Api/Endpoints/TodoTaskEndpoints.cs:91-104 | the path id replaces the body's Id; an invalid body gives 400 before the store is consulted; an absent id gives 404; otherwise 200 with the task carrying the path id and now, and every row rewritten |
| SrcEndpoints.DeleteTodoTask | src/Mattodo.Api/Endpoints/TodoTaskEndpoints.cs:106-111 | the result is 204 when the id was a key and 404 otherwise; the row is removed |
| RootProgram.PostTask | Mattodo.Api/Program.cs:34-59 | an invalid body gives 400 with the failures and no store call; otherwise the task gets newId, now, MinValue and MaxValue; a taken id gives 400 with the error message; otherwise 201 at /tasks/{newId} and the row is inserted |
| RootProgram.GetTasks | Mattodo.Api/Program.cs:65-71 | the result is always 200 with every stored task |
| RootProgram.GetTask | Mattodo.Api/Program.cs:75-81 | the result is 200 with the stored task exactly when the id is a key, and 404 otherwise |
| RootProgram.PutTask | Mattodo.Api/Program.cs:86-104 | a path id that differs from the body's Id gives 404 before validation and with no store call; then an invalid body gives 400; an absent id gives 404; otherwise 200 with LastModified = now and every row rewritten |
| RootProgram.DeleteTask | Mattodo.Api/Program.cs:110-116 | the result is 204 when the id was a key and 404 otherwise; the row is removed |
| Scenarios.TestTask | tests/Mattodo.Api.IntegrationTests/TodoTaskEndpointTests.cs:176-188 | the tests' body has an empty Id and passes the src validator |
| Scenarios.CreateReturnsCreated | tests/Mattodo.Api.IntegrationTests/TodoTaskEndpointTests.cs:21-37 | creating on an empty store gives 201; the created task has an id different from the client's, LastModified = now, and all other fields as sent |
| Scenarios.TwoCreatesThenGetAll | tests/Mattodo.Api.IntegrationTests/TodoTaskEndpointTests.cs:89-105 | two creates followed by GET /tasks give 200 with two tasks when the ids differ; when the ids collide, the second create gets 400 and one task remains |
| Scenarios.CreateThenGet | tests/Mattodo.Api.IntegrationTests/TodoTaskEndpointTests.cs:74-86 | GET on a freshly created id gives 200 with the task as stored |
| Scenarios.UpdateWithReversedTimestamps | tests/Mattodo.Api.IntegrationTests/TodoTaskEndpointTests.cs:124-138 | a PUT with Completed five days before Started gives 400 with only the temporal failure |
| Scenarios.UpdateMissing | tests/Mattodo.Api.IntegrationTests/TodoTaskEndpointTests.cs:141-151 | a valid PUT (Started = now, Completed = MaxValue, with now before MaxValue) to an id that was never created gives 404 |
| Scenarios.DeleteThenGet | tests/Mattodo.Api.IntegrationTests/TodoTaskEndpointTests.cs:153-174 | deleting a created task gives 204; a second delete and a later GET both give 404 |
| Scenarios.UpdateRewritesOtherTask | src/Mattodo.Api/Services/TodoTaskService.cs:59-62 | after updating the first of two tasks, GET on the second returns the new title |
| Scenarios.RootCreateDiscardsTimestamps | Mattodo.Api/Program.cs:44-47 | root create accepts a body with Started after Completed and stores MinValue and MaxValue instead |
| Scenarios.RootUpdateIdMismatch | Mattodo.Api/Program.cs:91-94 | a root PUT whose body Id differs from the path gives 404, even when the body's Id is stored |

## Left out

- SQL, Dapper, SQLite and the connection factories are I/O. Each statement is modelled by its effect on the map. The DDL is used only for the primary-key fact.
- Faults in the storage layer are not modelled: connection errors, and the exception an INSERT raises on a duplicate key.
- Table.Insert: requires the key to be absent instead of modelling the duplicate-key exception; both services check this before inserting.
- The constructors model a freshly created database only. `CREATE TABLE IF NOT EXISTS` leaves an existing table and its rows in place; such a table is any `Table.Keyed` map assigned to `rows`, and every service method accepts it, as each requires only `Valid()`.
- Storing timestamps as text is taken to round-trip exactly. `DateTime.Kind` is not modelled.
- SrcTaskService.TodoTaskService.GetAllTodoTasks: returns a set, so the order of the rows `SELECT * FROM Tasks` yields is not modelled; the set's size is proved equal to the number of keys.
- RootTaskService.TodoTaskService.GetAll: returns a set, for the same reason.
- Async execution and concurrency are not modelled, including last-writer-wins races between updates. Every call is sequential.
- `Guid.NewGuid()` and `DateTime.UtcNow` are parameters. The model does not assume two generated ids differ; the collision branch is modelled, and the scenario methods say what happens in each case.
- JSON binding is not modelled, so null strings from a request body are not represented. The text of FluentValidation's default messages is not modelled either: a failure names the rule that failed.
- API-key authentication, Swagger, dependency-injection registration, route metadata, the `GET /` greeting and the hosting setup of both `Program.cs` files are not modelled.
- `Mattodo.Api/Services/ITodoTaskService.cs` declares signatures only; the model uses the classes directly.
