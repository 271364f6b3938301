/**
 * The HTTP actions of Controllers/TasksController.cs: the checks each action makes
 * before it calls the service, and how each service outcome becomes a response.
 *
 * An exception that an action does not catch reaches the host, which answers 500;
 * the model writes that answer out as `InternalServerError`.
 */
module TasksControllers {

  import opened Wrappers
  import opened TaskItems
  import opened TaskServices

  /** The responses the actions produce, one constructor per status code and body shape. */
  datatype Response =
    | OkTasks(tasks: seq<TaskItem>)           // 200 with a list
    | OkTask(task: TaskItem)                  // 200 with one record
    | Created(location: int, task: TaskItem)  // 201, Location naming GetTask with this id
    | NoContent                               // 204
    | BadRequest                              // 400
    | NotFound                                // 404
    | InternalServerError                     // 500

  function StatusCode(r: Response): int
  {
    match r
    case OkTasks(_) => 200
    case OkTask(_) => 200
    case Created(_, _) => 201
    case NoContent => 204
    case BadRequest => 400
    case NotFound => 404
    case InternalServerError => 500
  }

  /** GetTasks: null or empty is 404, anything thrown is 500. */
  function GetTasksResponse(r: Result<seq<TaskItem>>): (resp: Response)
    ensures StatusCode(resp) == 500 <==> r.Failure?
    ensures StatusCode(resp) == 404 <==> r.Success? && |r.value| == 0
    ensures StatusCode(resp) == 200 <==> r.Success? && |r.value| > 0
    ensures resp.OkTasks? ==> resp.tasks == r.value
  {
    match r
    case Failure(_) => InternalServerError
    case Success(ts) => if |ts| == 0 then NotFound else OkTasks(ts)
  }

  /** GetTask: only `ArgumentException` (and its subclass `ArgumentNullException`) is caught, as 400. */
  function GetTaskResponse(r: Result<Option<TaskItem>>): (resp: Response)
    ensures StatusCode(resp) == 400 <==> r == Failure(NullArgument) || r == Failure(InvalidArgument)
    ensures StatusCode(resp) == 500 <==> r.Failure? && r.error !in {NullArgument, InvalidArgument}
    ensures StatusCode(resp) == 404 <==> r == Success(None)
    ensures StatusCode(resp) == 200 <==> r.Success? && r.value.Some?
    ensures resp.OkTask? ==> r == Success(Some(resp.task))
  {
    match r
    case Failure(NullArgument) => BadRequest
    case Failure(InvalidArgument) => BadRequest
    case Failure(_) => InternalServerError
    case Success(None) => NotFound
    case Success(Some(t)) => OkTask(t)
  }

  /** PostTask: only `ArgumentNullException` is caught, as 400. */
  function PostTaskResponse(r: Result<TaskItem>): (resp: Response)
    ensures StatusCode(resp) == 400 <==> r == Failure(NullArgument)
    ensures StatusCode(resp) == 500 <==> r.Failure? && r.error != NullArgument
    ensures StatusCode(resp) == 201 <==> r.Success?
    ensures resp.Created? ==> r == Success(resp.task) && resp.location == resp.task.id
  {
    match r
    case Failure(NullArgument) => BadRequest
    case Failure(_) => InternalServerError
    case Success(t) => Created(t.id, t)
  }

  /** PutTask: every exception, the service's `ArgumentException` included, is 500. */
  function PutTaskResponse(r: Result<Option<TaskItem>>): (resp: Response)
    ensures StatusCode(resp) == 500 <==> r.Failure?
    ensures StatusCode(resp) == 404 <==> r == Success(None)
    ensures StatusCode(resp) == 200 <==> r.Success? && r.value.Some?
    ensures StatusCode(resp) != 400
    ensures resp.OkTask? ==> r == Success(Some(resp.task))
  {
    match r
    case Failure(_) => InternalServerError
    case Success(None) => NotFound
    case Success(Some(t)) => OkTask(t)
  }

  /** DeleteTask: `false` is 404, `true` is 204, every exception is 500. */
  function DeleteTaskResponse(r: Result<bool>): (resp: Response)
    ensures StatusCode(resp) == 500 <==> r.Failure?
    ensures StatusCode(resp) == 404 <==> r == Success(false)
    ensures StatusCode(resp) == 204 <==> r == Success(true)
  {
    match r
    case Failure(_) => InternalServerError
    case Success(false) => NotFound
    case Success(true) => NoContent
  }

  /** Every record in the table has a non-empty title and a non-default due date. */
  ghost predicate AllHaveRequiredFields(s: seq<TaskItem>)
  {
    forall t :: t in s ==> HasRequiredFields(t)
  }

  /** An update from a record that passed the field check keeps every record valid. */
  lemma ReplaceIdKeepsRequiredFields(s: seq<TaskItem>, id: int, src: TaskItem)
    requires AllHaveRequiredFields(s) && HasRequiredFields(src)
    ensures AllHaveRequiredFields(ReplaceId(s, id, src))
  {
  }

  class TasksController {

    const service: TaskService

    /** The service is consistent, and every record reached the table through a check
        of its required fields (POST checks them here, PUT in the service). */
    ghost predicate Valid()
      reads this, service
    {
      service.Valid() && AllHaveRequiredFields(service.tasks)
    }

    constructor (service: TaskService)
      requires service.Valid() && AllHaveRequiredFields(service.tasks)
      ensures Valid() && this.service == service
    {
      this.service := service;
    }

    /** GET api/Tasks: the page of matching records, or 404 when it is empty. */
    method GetTasks(status: Option<TaskStatus>, dueDate: Option<int>, page: int, pageSize: int) returns (resp: Response)
      ensures resp == NotFound || resp.OkTasks?
      ensures resp == NotFound <==> |service.GetTasks(status, dueDate, page, pageSize)| == 0
      ensures resp.OkTasks? ==>
        resp.tasks == service.GetTasks(status, dueDate, page, pageSize) &&
        0 < |resp.tasks| <= Clamp(pageSize) &&
        forall t :: t in resp.tasks ==> t in service.tasks && Matches(t, status, dueDate)
    {
      var tasks := service.GetTasks(status, dueDate, page, pageSize);
      resp := GetTasksResponse(Success(tasks));
    }

    /** GET api/Tasks/{id}: 400 for a non-positive id, else the record or 404. */
    method GetTask(id: int) returns (resp: Response)
      ensures id <= 0 ==> resp == BadRequest
      ensures id > 0 && (forall t :: t in service.tasks ==> t.id != id) ==> resp == NotFound
      ensures id > 0 && Find(service.tasks, id).Some? ==> resp == OkTask(Find(service.tasks, id).value)
      ensures resp.OkTask? ==> resp.task in service.tasks && resp.task.id == id
    {
      var task := service.GetTaskById(id);
      resp := GetTaskResponse(task);
    }

    /** POST api/Tasks: 400 before any service call when the title is empty or the due
        date is the default; otherwise 201 with the stored record and its new key. */
    method PostTask(task: TaskItem, saveFails: bool) returns (resp: Response)
      requires Valid()
      modifies service
      ensures Valid()
      ensures !HasRequiredFields(task) ==>
        resp == BadRequest && service.tasks == old(service.tasks) && service.nextId == old(service.nextId)
      ensures HasRequiredFields(task) && saveFails ==>
        resp == InternalServerError && service.tasks == old(service.tasks) &&
        service.nextId == old(service.nextId)
      ensures HasRequiredFields(task) && !saveFails ==>
        resp == Created(old(service.nextId), task.(id := old(service.nextId))) &&
        service.tasks == old(service.tasks) + [resp.task] &&
        service.nextId == old(service.nextId) + 1
    {
      if !HasRequiredFields(task) {
        return BadRequest;
      }
      var created := service.CreateTask(Some(task), saveFails);
      resp := PostTaskResponse(created);
    }

    /** PUT api/Tasks/{id}: 400 before any service call when the route id and the body's
        id differ; then 404 for an absent record, 200 with the updated one, and 500 for
        any exception, the service's own argument check included. */
    method PutTask(id: int, task: TaskItem, saveFails: bool) returns (resp: Response)
      requires Valid()
      modifies service
      ensures Valid() && service.nextId == old(service.nextId)
      ensures id != task.id ==> resp == BadRequest && service.tasks == old(service.tasks)
      ensures id == task.id && !HasRequiredFields(task) ==>
        resp == InternalServerError && service.tasks == old(service.tasks)
      ensures id == task.id && HasRequiredFields(task) && Find(old(service.tasks), id).None? ==>
        resp == NotFound && service.tasks == old(service.tasks)
      ensures id == task.id && HasRequiredFields(task) && Find(old(service.tasks), id).Some? && saveFails ==>
        resp == InternalServerError && service.tasks == old(service.tasks)
      ensures id == task.id && HasRequiredFields(task) && Find(old(service.tasks), id).Some? && !saveFails ==>
        resp == OkTask(task) && service.tasks == ReplaceId(old(service.tasks), id, task)
    {
      if id != task.id {
        return BadRequest;
      }
      var updated := service.UpdateTask(id, Some(task), saveFails);
      resp := PutTaskResponse(updated);
      if updated.Success? && updated.value.Some? {
        ReplaceIdKeepsRequiredFields(old(service.tasks), id, task);
      }
    }

    /** DELETE api/Tasks/{id}: 400 before any service call for a non-positive id; then
        404 when nothing was removed, 204 when the record was removed. */
    method DeleteTask(id: int, saveFails: bool) returns (resp: Response)
      requires Valid()
      modifies service
      ensures Valid() && service.nextId == old(service.nextId)
      ensures id <= 0 ==> resp == BadRequest && service.tasks == old(service.tasks)
      ensures id > 0 && Find(old(service.tasks), id).None? ==> resp == NotFound && service.tasks == old(service.tasks)
      ensures id > 0 && Find(old(service.tasks), id).Some? && saveFails ==>
        resp == InternalServerError && service.tasks == old(service.tasks)
      ensures id > 0 && Find(old(service.tasks), id).Some? && !saveFails ==>
        resp == NoContent && service.tasks == WithoutId(old(service.tasks), id) &&
        Find(service.tasks, id).None?
    {
      if id <= 0 {
        return BadRequest;
      }
      var deleted := service.DeleteTask(id, saveFails);
      resp := DeleteTaskResponse(deleted);
    }
  }

  /** The lifecycle of one record through the API, from an empty table: create, read,
      update, delete, read again, delete again; then an invalid create and an invalid id. */
  method Lifecycle(tomorrow: int)
    requires tomorrow != DefaultDueDate
  {
    var service := new TaskService();
    var api := new TasksController(service);

    var created := api.PostTask(NewTaskItem("A", "", tomorrow), false);
    assert created == Created(1, TaskItem(1, "A", "", Pending, tomorrow));
    IndexOfAt(service.tasks, 0);

    var read := api.GetTask(1);
    assert read == OkTask(TaskItem(1, "A", "", Pending, tomorrow));

    var changed := TaskItem(1, "B", "", InProgress, tomorrow);
    var put := api.PutTask(1, changed, false);
    assert put == OkTask(changed);
    IndexOfAt(service.tasks, 0);

    var listed := api.GetTasks(Some(InProgress), None, 1, 10);
    assert service.tasks == [changed];
    assert listed == OkTasks([changed]);

    var deleted := api.DeleteTask(1, false);
    assert deleted == NoContent;

    var gone := api.GetTask(1);
    assert gone == NotFound;
    var again := api.DeleteTask(1, false);
    assert again == NotFound;

    var invalid := api.PostTask(NewTaskItem("", "", tomorrow), false);
    assert invalid == BadRequest && service.tasks == [];
    var negative := api.GetTask(-1);
    assert negative == BadRequest;
  }

  /** Keys are never reused: create key 1, delete it, fail a create, and the next
      create gets key 2. */
  method KeysNotReused(tomorrow: int)
    requires tomorrow != DefaultDueDate
  {
    var service := new TaskService();
    var api := new TasksController(service);

    var created := api.PostTask(NewTaskItem("A", "", tomorrow), false);
    assert created.Created? && created.location == 1;
    IndexOfAt(service.tasks, 0);
    var deleted := api.DeleteTask(1, false);
    assert deleted == NoContent;

    var failed := api.PostTask(NewTaskItem("C", "", tomorrow), true);
    assert failed == InternalServerError;
    var recreated := api.PostTask(NewTaskItem("C", "", tomorrow), false);
    assert recreated.Created? && recreated.location == 2;
  }
}
