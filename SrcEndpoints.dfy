/** The request handlers of the src variant. Each validates (where it has a
    body), calls the service, and picks the result from what the service
    returned. */
module SrcEndpoints {
  import opened Model
  import opened Http
  import Table
  import SrcValidator
  import SrcTaskService

  /** POST /tasks: 400 with the validator's failures, 400 with the hand-built
      Id failure when the generated id is taken, or 201 at /tasks/{id} with the
      task as stored. */
  method CreateTodoTask(service: SrcTaskService.TodoTaskService, task: TodoTask, newId: string, now: Ticks)
    returns (r: Response)
    requires service.Valid()
    modifies service
    ensures service.Valid()
    ensures r.Status() in {201, 400}
    ensures !SrcValidator.IsValid(task) ==>
      r == BadRequest(SrcValidator.Failures(task)) && service.rows == old(service.rows)
    ensures SrcValidator.IsValid(task) && newId in old(service.rows) ==>
      r == BadRequest([DuplicateId("Id", DuplicateIdMessage)]) && service.rows == old(service.rows)
    ensures SrcValidator.IsValid(task) && newId !in old(service.rows) ==>
      && r == Created(TaskLocation(newId), task.(id := newId, lastModified := now))
      && service.rows == Table.Insert(old(service.rows), r.created)
  {
    var failures := SrcValidator.Failures(task);
    if failures != [] {
      return BadRequest(failures);
    }
    var created, stored := service.CreateTodoTask(task, newId, now);
    if !created {
      return BadRequest([DuplicateId("Id", DuplicateIdMessage)]);
    }
    r := Created(TaskLocation(stored.id), stored);
  }

  /** GET /tasks: always 200 with every stored task. */
  method GetAllTodoTasks(service: SrcTaskService.TodoTaskService) returns (r: Response)
    requires service.Valid()
    ensures r == OkTasks(service.rows.Values)
    ensures r.Status() == 200 && |r.tasks| == |service.rows|
  {
    var tasks := service.GetAllTodoTasks();
    r := OkTasks(tasks);
  }

  /** GET /tasks/{id}: 200 with the task, or 404. */
  method GetTodoTaskById(service: SrcTaskService.TodoTaskService, id: string) returns (r: Response)
    requires service.Valid()
    ensures id in service.rows ==> r == OkTask(service.rows[id])
    ensures id !in service.rows ==> r == NotFound
    ensures r.Status() == 200 <==> id in service.rows
  {
    var task := service.GetTodoTaskById(id);
    r := if task.Some? then OkTask(task.value) else NotFound;
  }

  /** PUT /tasks/{id}: the path id replaces the body's Id; then 400 with the
      validator's failures before the store is consulted, 404 when the id is not
      a key, or 200 with the task as written (every row rewritten). */
  method UpdateTodoTask(service: SrcTaskService.TodoTaskService, id: string, task: TodoTask, now: Ticks)
    returns (r: Response)
    requires service.Valid()
    modifies service
    ensures service.Valid()
    ensures r.Status() in {200, 400, 404}
    ensures !SrcValidator.IsValid(task) ==>
      r == BadRequest(SrcValidator.Failures(task)) && service.rows == old(service.rows)
    ensures SrcValidator.IsValid(task) && id !in old(service.rows) ==>
      r == NotFound && service.rows == old(service.rows)
    ensures SrcValidator.IsValid(task) && id in old(service.rows) ==>
      && r == OkTask(task.(id := id, lastModified := now))
      && service.rows == Table.UpdateAll(old(service.rows), r.task)
  {
    var withPathId := task.(id := id);
    SrcValidator.IgnoresIdAndLastModified(task, id, task.lastModified);
    var failures := SrcValidator.Failures(withPathId);
    if failures != [] {
      return BadRequest(failures);
    }
    var updated, written := service.UpdateTodoTask(withPathId, now);
    r := if updated then OkTask(written) else NotFound;
  }

  /** DELETE /tasks/{id}: 204 when a row was removed, 404 otherwise. */
  method DeleteTodoTask(service: SrcTaskService.TodoTaskService, id: string) returns (r: Response)
    requires service.Valid()
    modifies service
    ensures service.Valid()
    ensures r == (if id in old(service.rows) then NoContent else NotFound)
    ensures service.rows == Table.DeleteWhereId(old(service.rows), id)
  {
    var deleted := service.DeleteTodoTask(id);
    r := if deleted then NoContent else NotFound;
  }
}
