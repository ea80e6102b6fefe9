/** The task use cases (packages/api/src/modules/tasks/application/use-cases/index.ts)
    over the database repository they are wired to. They forward to the
    repository, map tasks to DTOs, and turn "no row of yours" into
    TASK_NOT_FOUND. */
module TaskUseCases {
  import opened Wrappers
  import opened Json
  import opened HttpErrors
  import opened TaskDomain
  import opened TaskListing
  import opened TaskRepository
  import ErrorHandler

  /** `{ ok: true }` */
  datatype Ack = Ack

  const TaskNotFoundError := AppError(TaskNotFound, 404, "Task not found", Undefined)

  /** A failed request as the error handler reports it. */
  function Reported(e: AppError): Mapping {
    Mapping(e.status, e.code, e.message)
  }

  /** The PATCH body checked against the schema as written. */
  function ValidateUpdateBodyAsWritten(patch: TaskPatch): (r: Result<TaskPatch, Mapping>)
    ensures r.Ok? <==> UpdateBodyAccepted(patch)
    ensures r.Ok? ==> r.value == patch
    ensures r.Err? ==> r.error == MapFrameworkError(FwStr("VALIDATION"))
  {
    if UpdateBodyAccepted(patch) then Ok(patch) else Err(MapFrameworkError(FwStr("VALIDATION")))
  }

  /** The PATCH body checked with the rule that at least one field is given. */
  function ValidateUpdateBody(patch: TaskPatch): (r: Result<TaskPatch, Mapping>)
    ensures r.Ok? <==> UpdateBodyValid(patch)
    ensures r.Ok? ==> r.value == patch && r.value != TaskPatch(None, None)
    ensures r.Err? ==> r.error == Mapping(400, ValidationError, "Invalid request")
  {
    if UpdateBodyValid(patch) then Ok(patch) else Err(MapFrameworkError(FwStr("VALIDATION")))
  }

  /** The empty body gets through the schema as written, and is refused with
      400 VALIDATION_ERROR by the corrected check. */
  lemma {:induction false} EmptyBodyValidation()
    ensures ValidateUpdateBodyAsWritten(TaskPatch(None, None)) == Ok(TaskPatch(None, None))
    ensures ValidateUpdateBody(TaskPatch(None, None)) == Err(Mapping(400, ValidationError, "Invalid request"))
  {
  }

  /** What the repository throws when it reads `query.status` of an undefined
      query: a `TypeError`, which is no application or database error. */
  const ReadOfUndefined := ErrObj(Some("TypeError"), None, None)

  /** The error handler's answer to that `TypeError`: 500 INTERNAL_ERROR. */
  function UndefinedQueryFailure(requestId: string): (h: ErrorHandler.Handled)
    ensures h.status == 500 && h.body.code == InternalError && h.body.message == "Internal server error"
    ensures h.body.requestId == requestId && h.body.details.None?
  {
    DatabaseErrorExactly(ReadOfUndefined);
    DatabaseUnavailableExactly(ReadOfUndefined);
    ErrorHandler.OnError(FwStr("UNKNOWN"), ReadOfUndefined, Some(requestId))
  }

  class TaskUseCases {
    const repo: PrismaTaskRepository

    constructor (repo: PrismaTaskRepository)
      ensures this.repo == repo
    {
      this.repo := repo;
    }

    /** `list`: the repository's page for the caller, as DTOs. */
    method List(userId: string, q: ListQuery, iso: int -> string) returns (dto: TaskListPageDto)
      requires repo.Valid() && ValidQuery(q)
      ensures dto == ToTaskListPageDto(repo.ListByUser(userId, q), iso)
      ensures ListingMeets(repo.rows, userId, q, repo.ListByUser(userId, q))
    {
      var page := repo.ListByUser(userId, q);
      dto := ToTaskListPageDto(page, iso);
    }

    /** `list` reached with a query that may be undefined: the repository's
        first read, `query.status`, throws on an undefined one. */
    method ListWithQuery(userId: string, query: Option<ListQuery>, requestId: string, iso: int -> string)
      returns (r: Result<TaskListPageDto, ErrorHandler.Handled>)
      requires repo.Valid() && (query.Some? ==> ValidQuery(query.value))
      ensures query.None? ==> r == Err(UndefinedQueryFailure(requestId))
      ensures query.Some? ==>
        && r == Ok(ToTaskListPageDto(repo.ListByUser(userId, query.value), iso))
        && ListingMeets(repo.rows, userId, query.value, repo.ListByUser(userId, query.value))
    {
      if query.None? {
        return Err(UndefinedQueryFailure(requestId));
      }
      var dto := List(userId, query.value, iso);
      r := Ok(dto);
    }

    /** GET /todos as routed: `list(auth.userId)` passes no query, so every
        listing fails with 500 INTERNAL_ERROR. */
    method ListRouteAsWritten(userId: string, requestId: string, iso: int -> string)
      returns (r: Result<TaskListPageDto, ErrorHandler.Handled>)
      requires repo.Valid()
      ensures r.Err? && r.error.status == 500 && r.error.body.code == InternalError
      ensures r.error.body.requestId == requestId
    {
      r := ListWithQuery(userId, None, requestId, iso);
    }

    /** GET /todos with the query's defaults applied first: a correct listing
        for the defaulted query, and page 1 of 10 rows when nothing is asked. */
    method ListRoute(userId: string, input: ListQueryInput, requestId: string, iso: int -> string)
      returns (r: Result<TaskListPageDto, ErrorHandler.Handled>)
      requires repo.Valid()
      requires input.page.Some? ==> input.page.value >= 1
      requires input.pageSize.Some? ==> input.pageSize.value >= 1
      ensures var q := WithTaskListDefaults(input);
        && r.Ok?
        && r.value == ToTaskListPageDto(repo.ListByUser(userId, q), iso)
        && ListingMeets(repo.rows, userId, q, repo.ListByUser(userId, q))
        && r.value.page == q.page && r.value.pageSize == q.pageSize
        && r.value.total == |MatchingIds(repo.rows, userId, q.status)|
      ensures input == ListQueryInput(None, None, None, None, None) ==>
        r.Ok? && r.value.page == 1 && r.value.pageSize == 10 && r.value.sortBy == CreatedAt && r.value.sortOrder == Desc
    {
      var q := WithTaskListDefaults(input);
      r := ListWithQuery(userId, Some(q), requestId, iso);
      ListingGuarantees(repo.rows, userId, q, repo.ListByUser(userId, q));
    }

    /** `create`: the new task as a DTO. */
    method Create(userId: string, title: string, freshId: string, now: int, iso: int -> string)
      returns (dto: TaskDto)
      requires repo.Valid() && freshId !in repo.rows
      modifies repo
      ensures repo.Valid()
      ensures CreateMeets(old(repo.rows), repo.rows, userId, title, Task(freshId, title, false, now, now))
      ensures dto == ToTaskDto(Task(freshId, title, false, now, now), iso)
    {
      var task := repo.Create(userId, title, freshId, now);
      dto := ToTaskDto(task, iso);
    }

    /** `update`: TASK_NOT_FOUND (404) unless the caller owns the task. A
        missing task and another user's task are refused alike. */
    method Update(userId: string, taskId: string, patch: TaskPatch, now: int) returns (r: Result<Ack, AppError>)
      requires repo.Valid()
      modifies repo
      ensures repo.Valid()
      ensures r.Ok? <==> Owns(old(repo.rows), userId, taskId)
      ensures r.Err? ==> r.error == TaskNotFoundError
      ensures UpdateMeets(old(repo.rows), repo.rows, userId, taskId, patch, r.Ok?)
      ensures r.Ok? ==>
        && repo.rows[taskId].task == PatchData(old(repo.rows)[taskId].task, patch, now)
        && repo.rows[taskId].task.updatedAt == now
    {
      var updated := repo.UpdateForUser(userId, taskId, patch, now);
      if !updated {
        return Err(TaskNotFoundError);
      }
      r := Ok(Ack);
    }

    /** `delete`: TASK_NOT_FOUND (404) unless the caller owns the task. */
    method Delete(userId: string, taskId: string) returns (r: Result<Ack, AppError>)
      requires repo.Valid()
      modifies repo
      ensures repo.Valid()
      ensures r.Ok? <==> Owns(old(repo.rows), userId, taskId)
      ensures r.Err? ==> r.error == TaskNotFoundError
      ensures DeleteMeets(old(repo.rows), repo.rows, userId, taskId, r.Ok?)
    {
      var deleted := repo.DeleteForUser(userId, taskId);
      if !deleted {
        return Err(TaskNotFoundError);
      }
      r := Ok(Ack);
    }

    /** A PATCH request: the body is checked (at least one field), then the
        update runs. A refused body leaves the table as it was. */
    method Patch(userId: string, taskId: string, patch: TaskPatch, now: int) returns (r: Result<Ack, Mapping>)
      requires repo.Valid()
      modifies repo
      ensures repo.Valid()
      ensures !UpdateBodyValid(patch) ==> r == Err(Mapping(400, ValidationError, "Invalid request")) && repo.rows == old(repo.rows)
      ensures UpdateBodyValid(patch) ==>
        && (r.Ok? <==> Owns(old(repo.rows), userId, taskId))
        && (r.Err? ==> r.error == Reported(TaskNotFoundError))
        && UpdateMeets(old(repo.rows), repo.rows, userId, taskId, patch, r.Ok?)
        && (r.Ok? ==> repo.rows[taskId].task.updatedAt == now)
    {
      var body := ValidateUpdateBody(patch);
      if body.Err? {
        return Err(body.error);
      }
      var result := Update(userId, taskId, body.value, now);
      if result.Err? {
        return Err(Reported(result.error));
      }
      r := Ok(Ack);
    }
  }
}
