/** Request sequences of the integration tests, applied to a fresh service
    whose table starts empty. The generated ids and clock readings are
    parameters. */
module Scenarios {
  import opened Model
  import opened Http
  import SrcValidator
  import SrcTaskService
  import SrcEndpoints
  import RootTaskService
  import RootProgram

  /** The body the tests post: empty Id, Started = MinValue, Completed = MaxValue. */
  function TestTask(): (t: TodoTask)
    ensures t.id == "" && SrcValidator.IsValid(t)
  {
    var t := TodoTask("", "Test Title", "Test Details yayayaya", "Michael Jordan", MinValue, MaxValue, MaxValue);
    NonBlankIsNotEmpty(t.title, 0);
    NonBlankIsNotEmpty(t.details, 0);
    NonBlankIsNotEmpty(t.author, 0);
    t
  }

  /** Create: 201, a server-assigned id different from the client's empty one,
      LastModified set to now, the other fields as sent. */
  method CreateReturnsCreated(newId: string, now: Ticks) returns (r: Response)
    requires IsGuidString(newId)
    ensures r.Status() == 201
    ensures r.Created? && r.created.id == newId && r.created.id != TestTask().id
    ensures r.Created? && r.created.lastModified == now
    ensures r.Created? && r.created.(id := "", lastModified := MaxValue) == TestTask()
  {
    var service := new SrcTaskService.TodoTaskService();
    GuidIsNotEmpty(newId);
    r := SrcEndpoints.CreateTodoTask(service, TestTask(), newId, now);
  }

  /** Two creates then GET /tasks: two tasks when the two generated ids differ;
      when they collide the second create is refused with 400 and one task
      remains. */
  method TwoCreatesThenGetAll(first: string, second: string, now: Ticks)
    returns (r1: Response, r2: Response, all: Response)
    ensures r1.Status() == 201
    ensures r2.Status() == if first == second then 400 else 201
    ensures all.Status() == 200 && all.OkTasks?
    ensures |all.tasks| == if first == second then 1 else 2
  {
    var service := new SrcTaskService.TodoTaskService();
    r1 := SrcEndpoints.CreateTodoTask(service, TestTask(), first, now);
    r2 := SrcEndpoints.CreateTodoTask(service, TestTask(), second, now);
    all := SrcEndpoints.GetAllTodoTasks(service);
  }

  /** Create then GET /tasks/{id}: 200 with the stored task. */
  method CreateThenGet(newId: string, now: Ticks) returns (got: Response)
    ensures got.Status() == 200
    ensures got.OkTask? && got.task == TestTask().(id := newId, lastModified := now)
  {
    var service := new SrcTaskService.TodoTaskService();
    var created := SrcEndpoints.CreateTodoTask(service, TestTask(), newId, now);
    got := SrcEndpoints.GetTodoTaskById(service, newId);
  }

  /** Create, then PUT the created task back with Started = now and Completed
      five days earlier: 400, because of the temporal rule. */
  method UpdateWithReversedTimestamps(newId: string, created: Ticks, now: Ticks) returns (r: Response)
    requires now >= 5 * 864000000000
    ensures r == BadRequest([StartedNotBeforeCompleted])
  {
    var service := new SrcTaskService.TodoTaskService();
    var c := SrcEndpoints.CreateTodoTask(service, TestTask(), newId, created);
    var body := c.created.(started := now, completed := now - 5 * 864000000000);
    r := SrcEndpoints.UpdateTodoTask(service, newId, body, now);
  }

  /** PUT to an id that was never created: 404. */
  method UpdateMissing(id: string, now: Ticks) returns (r: Response)
    requires now < MaxValue
    ensures r == NotFound
  {
    var service := new SrcTaskService.TodoTaskService();
    var body := TestTask().(started := now, completed := MaxValue);
    r := SrcEndpoints.UpdateTodoTask(service, id, body, now);
  }

  /** Create, DELETE, then DELETE and GET again: 204, then 404 twice. */
  method DeleteThenGet(newId: string, now: Ticks) returns (d1: Response, d2: Response, got: Response)
    ensures d1 == NoContent && d2 == NotFound && got == NotFound
  {
    var service := new SrcTaskService.TodoTaskService();
    var created := SrcEndpoints.CreateTodoTask(service, TestTask(), newId, now);
    d1 := SrcEndpoints.DeleteTodoTask(service, newId);
    d2 := SrcEndpoints.DeleteTodoTask(service, newId);
    got := SrcEndpoints.GetTodoTaskById(service, newId);
  }

  /** Two tasks, then PUT on the first with a new title: GET on the second
      also returns the new title, because the UPDATE has no WHERE clause. */
  method UpdateRewritesOtherTask(first: string, second: string, now: Ticks) returns (got: Response)
    requires first != second
    ensures got.OkTask? && got.task.id == second && got.task.title == "Renamed"
  {
    var service := new SrcTaskService.TodoTaskService();
    var c1 := SrcEndpoints.CreateTodoTask(service, TestTask(), first, now);
    var c2 := SrcEndpoints.CreateTodoTask(service, TestTask(), second, now);
    NonBlankIsNotEmpty("Renamed", 0);
    var u := SrcEndpoints.UpdateTodoTask(service, first, c1.created.(title := "Renamed"), now);
    got := SrcEndpoints.GetTodoTaskById(service, second);
  }

  /** In the root variant, create accepts a body with Started after Completed
      and stores MinValue and MaxValue instead of the client's timestamps. */
  method RootCreateDiscardsTimestamps(newId: string, now: Ticks) returns (r: Response)
    ensures r.Status() == 201
    ensures r.Created? && r.created.started == MinValue && r.created.completed == MaxValue
  {
    var service := new RootTaskService.TodoTaskService();
    var body := TestTask().(started := MaxValue, completed := MinValue);
    r := RootProgram.PostTask(service, body, newId, now);
  }

  /** In the root variant, PUT with a body whose Id differs from the path is
      404 even when that body's Id is stored. */
  method RootUpdateIdMismatch(newId: string, otherId: string, now: Ticks) returns (r: Response)
    requires newId != otherId
    ensures r == NotFound
  {
    var service := new RootTaskService.TodoTaskService();
    var c := RootProgram.PostTask(service, TestTask(), newId, now);
    r := RootProgram.PutTask(service, otherId, c.created, now);
  }
}
