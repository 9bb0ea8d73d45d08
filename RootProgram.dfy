/** The request handlers of the root variant, written as lambdas in its
    Program.cs. Create overwrites four fields of the body after validating it;
    Update refuses a body whose Id differs from the path before validating. */
module RootProgram {
  import opened Model
  import opened Http
  import Table
  import RootValidator
  import RootTaskService

  /** POST tasks: 400 with the validator's failures; otherwise the body gets a
      new Id, LastModified = now, Started = MinValue and Completed = MaxValue,
      and the result is 400 with an error message when that Id is taken, or 201
      at /tasks/{id} with the task as stored. */
  method PostTask(service: RootTaskService.TodoTaskService, task: TodoTask, newId: string, now: Ticks)
    returns (r: Response)
    requires service.Valid()
    modifies service
    ensures service.Valid()
    ensures r.Status() in {201, 400}
    ensures !RootValidator.IsValid(task) ==>
      r == BadRequest(RootValidator.Failures(task)) && service.rows == old(service.rows)
    ensures RootValidator.IsValid(task) && newId in old(service.rows) ==>
      r == BadRequestMessage(DuplicateIdMessage) && service.rows == old(service.rows)
    ensures RootValidator.IsValid(task) && newId !in old(service.rows) ==>
      && r == Created(TaskLocation(newId),
                      task.(id := newId, lastModified := now, started := MinValue, completed := MaxValue))
      && service.rows == Table.Insert(old(service.rows), r.created)
    ensures r.Created? ==> r.created.started < r.created.completed
  {
    var failures := RootValidator.Failures(task);
    if failures != [] {
      return BadRequest(failures);
    }
    var stored := task.(id := newId, lastModified := now, started := MinValue, completed := MaxValue);
    var created := service.Create(stored);
    if !created {
      return BadRequestMessage(DuplicateIdMessage);
    }
    r := Created(TaskLocation(stored.id), stored);
  }

  /** GET tasks: always 200 with every stored task. */
  method GetTasks(service: RootTaskService.TodoTaskService) returns (r: Response)
    requires service.Valid()
    ensures r == OkTasks(service.rows.Values)
    ensures r.Status() == 200 && |r.tasks| == |service.rows|
  {
    var tasks := service.GetAll();
    r := OkTasks(tasks);
  }

  /** GET tasks/{id}: 200 with the task, or 404. */
  method GetTask(service: RootTaskService.TodoTaskService, id: string) returns (r: Response)
    requires service.Valid()
    ensures id in service.rows ==> r == OkTask(service.rows[id])
    ensures id !in service.rows ==> r == NotFound
    ensures r.Status() == 200 <==> id in service.rows
  {
    var task := service.GetTodoTaskById(id);
    r := if task.Some? then OkTask(task.value) else NotFound;
  }

  /** PUT tasks/{id}: 404 when the path id differs from the body's Id, before
      validation; then 400 with the validator's failures; then 404 when the Id
      is not a key, or 200 with the task as written (every row rewritten). */
  method PutTask(service: RootTaskService.TodoTaskService, id: string, task: TodoTask, now: Ticks)
    returns (r: Response)
    requires service.Valid()
    modifies service
    ensures service.Valid()
    ensures r.Status() in {200, 400, 404}
    ensures id != task.id ==> r == NotFound && service.rows == old(service.rows)
    ensures id == task.id && !RootValidator.IsValid(task) ==>
      r == BadRequest(RootValidator.Failures(task)) && service.rows == old(service.rows)
    ensures id == task.id && RootValidator.IsValid(task) && id !in old(service.rows) ==>
      r == NotFound && service.rows == old(service.rows)
    ensures id == task.id && RootValidator.IsValid(task) && id in old(service.rows) ==>
      && r == OkTask(task.(lastModified := now))
      && service.rows == Table.UpdateAll(old(service.rows), r.task)
  {
    if id != task.id {
      return NotFound;
    }
    var failures := RootValidator.Failures(task);
    if failures != [] {
      return BadRequest(failures);
    }
    var updated, written := service.Update(task, now);
    r := if updated then OkTask(written) else NotFound;
  }

  /** DELETE tasks/{id}: 204 when a row was removed, 404 otherwise. */
  method DeleteTask(service: RootTaskService.TodoTaskService, id: string) returns (r: Response)
    requires service.Valid()
    modifies service
    ensures service.Valid()
    ensures r == (if id in old(service.rows) then NoContent else NotFound)
    ensures service.rows == Table.DeleteWhereId(old(service.rows), id)
  {
    var deleted := service.Delete(id);
    r := if deleted then NoContent else NotFound;
  }
}
