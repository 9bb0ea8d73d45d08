/** The results the handlers return: Results.Ok, Created, NoContent, BadRequest
    and NotFound, with the body each carries. */
module Http {
  import opened Model

  datatype Response =
    | OkTask(task: TodoTask)
    | OkTasks(tasks: set<TodoTask>)
    | Created(location: string, created: TodoTask)
    | NoContent
    | BadRequest(failures: seq<Failure>)
    | BadRequestMessage(errorMessage: string)
    | NotFound
  {
    /** The HTTP status code of the result. */
    function Status(): (code: int)
      ensures code in {200, 201, 204, 400, 404}
      ensures code == 200 <==> OkTask? || OkTasks?
      ensures code == 400 <==> BadRequest? || BadRequestMessage?
    {
      match this
      case OkTask(_) => 200
      case OkTasks(_) => 200
      case Created(_, _) => 201
      case NoContent => 204
      case BadRequest(_) => 400
      case BadRequestMessage(_) => 400
      case NotFound => 404
    }
  }

  /** The Location header of a created task: /tasks/{id}. */
  function TaskLocation(id: string): (loc: string)
    ensures |loc| == |id| + 7 && loc[..7] == "/tasks/" && loc[7..] == id
  {
    "/tasks/" + id
  }
}
