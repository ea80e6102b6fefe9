/** The superseded todo service (packages/api/src/modules/todos/service.ts)
    over the thin Prisma wrapper it calls (packages/api/src/modules/todos/repo.ts).
    The store is the table plus its physical row order, as for the task
    repository; the clock, the id generator and `toISOString` are parameters.
    A todo is shown with `TaskDomain.ToTaskDto`, which is `formatTodo`. */
module LegacyTodos {
  import opened Wrappers
  import opened Json
  import opened TaskDomain
  import opened TaskListing
  import opened TaskRepository
  import HttpErrors
  import LegacyErrors
  import TaskUseCases

  /** The order `listByUser` asks for: every status, newest first (the page
      fields play no part in the order). */
  const NewestFirst := ListQuery(1, 1, CreatedAt, Desc, All)

  /** `tasks` is a correct answer to `listByUser(userId)`: each of the
      caller's rows exactly once, newest first, ties in any order. */
  ghost predicate LegacyListing(rows: Table, userId: string, tasks: seq<Task>) {
    exists ordered :: IsListingOrder(rows, userId, NewestFirst, ordered) && tasks == Tasks(ordered)
  }

  /** What a correct legacy listing guarantees. */
  lemma {:induction false} LegacyListingGuarantees(rows: Table, userId: string, tasks: seq<Task>)
    requires LegacyListing(rows, userId, tasks)
    ensures |tasks| == |MatchingIds(rows, userId, All)|
    ensures forall i :: 0 <= i < |tasks| ==> tasks[i].id in rows && rows[tasks[i].id] == Row(userId, tasks[i])
    ensures TasksSorted(tasks, CreatedAt, Desc)
  {
    var ordered :| IsListingOrder(rows, userId, NewestFirst, ordered) && tasks == Tasks(ordered);
    forall i | 0 <= i < |tasks|
      ensures tasks[i].id in rows && rows[tasks[i].id] == Row(userId, tasks[i])
    {
      assert ordered[i] in ordered;
    }
  }

  /** The `todo` table behind `todoRepo`. */
  class TodoStore {
    var rows: Table
    /** The physical order of the rows; it decides how ties are ordered. */
    var order: seq<string>

    ghost predicate Valid()
      reads this
    {
      TableValid(rows) && OrderValid(rows, order)
    }

    constructor ()
      ensures Valid() && rows == map[] && order == []
    {
      rows := map[];
      order := [];
    }

    /** `listByUser`: `findMany` where `{userId}`, ordered by `createdAt` descending. */
    function ListByUser(userId: string): (tasks: seq<Task>)
      reads this
      requires Valid()
      ensures LegacyListing(rows, userId, tasks)
    {
      var ordered := SortRows(Filter(InOrder(rows, order), WhereFilter(Where(userId, None))), CreatedAt, Desc);
      InOrderEnumerates(rows, order);
      WhereIsSelection(InOrder(rows, order), userId, All);
      ListingOfEnumeration(rows, InOrder(rows, order), userId, NewestFirst);
      Tasks(ordered)
    }

    /** `create`: the database fills in the id, `isDone = false` and both
        timestamps. */
    method Create(userId: string, title: string, freshId: string, now: int) returns (t: Task)
      requires Valid() && freshId !in rows
      modifies this
      ensures Valid()
      ensures CreateMeets(old(rows), rows, userId, title, t)
      ensures t == Task(freshId, title, false, now, now)
      ensures order == old(order) + [freshId]
    {
      t := Task(freshId, title, false, now, now);
      OrderAfterChange(rows, order, freshId, Row(userId, t));
      rows := rows[freshId := Row(userId, t)];
      order := order + [freshId];
    }

    /** `findById`: `findFirst` where `{id, userId}`. */
    function FindById(id: string, userId: string): (r: Option<Task>)
      reads this
      requires Valid()
      ensures r.Some? <==> Owns(rows, userId, id)
      ensures r.Some? ==> r.value == rows[id].task && r.value.id == id
    {
      if id in rows && rows[id].userId == userId then Some(rows[id].task) else None
    }

    /** `update`: where `{id}` alone, the given fields and `updatedAt: now`.
        A missing row makes Prisma throw, which is `None` here. */
    method Update(id: string, patch: TaskPatch, now: int) returns (r: Option<Task>)
      requires Valid()
      modifies this
      ensures Valid()
      ensures r == StoreUpdate(old(rows), id, patch, now)
      ensures rows == (if r.Some? then old(rows)[id := Row(old(rows)[id].userId, r.value)] else old(rows))
      ensures order == old(order)
    {
      if id !in rows {
        return None;
      }
      var row := Row(rows[id].userId, PatchData(rows[id].task, patch, now));
      OrderAfterChange(rows, order, id, row);
      rows := rows[id := row];
      r := Some(row.task);
    }

    /** `deleteById`: `deleteMany` where `{id, userId}`; the count removed. */
    method DeleteById(id: string, userId: string) returns (count: nat)
      requires Valid()
      modifies this
      ensures Valid()
      ensures count == (if Owns(old(rows), userId, id) then 1 else 0)
      ensures DeleteMeets(old(rows), rows, userId, id, count > 0)
    {
      if !Owns(rows, userId, id) {
        return 0;
      }
      OrderAfterChange(rows, order, id, rows[id]);
      rows := rows - {id};
      order := RemoveId(order, id);
      count := 1;
    }
  }

  /** The row `update` writes: any row with that id, whoever owns it. */
  function StoreUpdate(rows: Table, id: string, patch: TaskPatch, now: int): (r: Option<Task>)
    ensures r.Some? <==> id in rows
    ensures r.Some? ==> r.value == PatchData(rows[id].task, patch, now)
  {
    if id in rows then Some(PatchData(rows[id].task, patch, now)) else None
  }

  const TodoNotFoundError := LegacyErrors.LegacyAppErr(LegacyErrors.LegacyAppError(LegacyErrors.TodoNotFound, 404, "Todo not found"))
  const NoUpdatesError := LegacyErrors.LegacyAppErr(LegacyErrors.LegacyAppError(LegacyErrors.NoUpdates, 400, "No updates provided"))

  /** The `update` object: the title only if it is a string, `isDone` only if
      it is a boolean; anything else in the body is dropped. */
  function ReadPatch(data: Value): (r: TaskPatch)
    ensures r.title.Some? <==> Get(data, "title").Str?
    ensures r.title.Some? ==> r.title.value == Get(data, "title").s
    ensures r.isDone.Some? <==> Get(data, "isDone").Bool?
    ensures r.isDone.Some? ==> r.isDone.value == Get(data, "isDone").b
  {
    var title := Get(data, "title");
    var isDone := Get(data, "isDone");
    TaskPatch(if title.Str? then Some(title.s) else None, if isDone.Bool? then Some(isDone.b) else None)
  }

  /** A patch as a request body: only its supplied fields. */
  function PatchJson(p: TaskPatch): Value {
    var title := if p.title.Some? then [Field("title", Str(p.title.value))] else [];
    var isDone := if p.isDone.Some? then [Field("isDone", Bool(p.isDone.value))] else [];
    Obj(title + isDone)
  }

  /** Reading a patch's own body gives the patch back. */
  lemma {:induction false} ReadPatchOfPatchJson(p: TaskPatch)
    ensures ReadPatch(PatchJson(p)) == p
  {
    PatchJsonTitle(p);
    PatchJsonIsDone(p);
    assert Get(PatchJson(p), "title") == (if p.title.Some? then Str(p.title.value) else Undefined);
    assert Get(PatchJson(p), "isDone") == (if p.isDone.Some? then Bool(p.isDone.value) else Undefined);
  }

  /** The body's `title` is the patch's title, or undefined. */
  lemma {:induction false} PatchJsonTitle(p: TaskPatch)
    ensures Get(PatchJson(p), "title") == (if p.title.Some? then Str(p.title.value) else Undefined)
  {
    var isDone := if p.isDone.Some? then [Field("isDone", Bool(p.isDone.value))] else [];
    if p.title.Some? {
      GetFront("title", Str(p.title.value), isDone);
    } else {
      assert PatchJson(p) == Obj(isDone);
      if p.isDone.Some? {
        GetSkip(Field("isDone", Bool(p.isDone.value)), [], "title");
        assert [Field("isDone", Bool(p.isDone.value))] + [] == isDone;
      }
    }
  }

  /** The body's `isDone` is the patch's status, or undefined. */
  lemma {:induction false} PatchJsonIsDone(p: TaskPatch)
    ensures Get(PatchJson(p), "isDone") == (if p.isDone.Some? then Bool(p.isDone.value) else Undefined)
  {
    var isDone := if p.isDone.Some? then [Field("isDone", Bool(p.isDone.value))] else [];
    var title := if p.title.Some? then [Field("title", Str(p.title.value))] else [];
    assert PatchJson(p) == Obj(title + isDone);
    if p.title.Some? {
      GetSkip(Field("title", Str(p.title.value)), isDone, "isDone");
      assert title + isDone == [Field("title", Str(p.title.value))] + isDone;
    } else {
      assert title + isDone == isDone;
    }
    if p.isDone.Some? {
      GetFront("isDone", Bool(p.isDone.value), []);
      assert isDone + [] == isDone;
    }
  }

  /** What `update` does when the existence check reads `atCheck` and the
      write meets `atWrite`: the two are separate store calls, and the write
      is keyed by the id alone. A write that finds no row throws a Prisma
      error, which is not an `AppError`. */
  function UpdateOutcome(atCheck: Table, atWrite: Table, userId: string, id: string, data: Value, now: int)
    : (r: Result<(Table, Task), LegacyErrors.LegacyCaught>)
    ensures !Owns(atCheck, userId, id) ==> r == Err(TodoNotFoundError)
    ensures Owns(atCheck, userId, id) && ReadPatch(data) == TaskPatch(None, None) ==> r == Err(NoUpdatesError)
    ensures r.Ok? ==>
      && Owns(atCheck, userId, id) && ReadPatch(data) != TaskPatch(None, None) && id in atWrite
      && r.value.1 == PatchData(atWrite[id].task, ReadPatch(data), now)
      && r.value.0 == atWrite[id := Row(atWrite[id].userId, r.value.1)]
    ensures Owns(atCheck, userId, id) && ReadPatch(data) != TaskPatch(None, None) && id !in atWrite ==>
      r == Err(LegacyErrors.OtherThrown)
  {
    if !Owns(atCheck, userId, id) then Err(TodoNotFoundError)
    else
      var patch := ReadPatch(data);
      if patch == TaskPatch(None, None) then Err(NoUpdatesError)
      else
        match StoreUpdate(atWrite, id, patch, now)
        case None => Err(LegacyErrors.OtherThrown)
        case Some(t) => Ok((atWrite[id := Row(atWrite[id].userId, t)], t))
  }

  /** With nothing in between the check and the write, an update that
      succeeds meets the repository contract of the new API, and one that
      fails changes nothing; a non-empty patch succeeds exactly when the new
      use case's update does. */
  lemma {:induction false} UpdateWithoutInterleaving(rows: Table, userId: string, id: string, data: Value, now: int)
    requires TableValid(rows)
    ensures var r := UpdateOutcome(rows, rows, userId, id, data, now);
      && (r.Ok? ==> UpdateMeets(rows, r.value.0, userId, id, ReadPatch(data), true) && TableValid(r.value.0))
      && (ReadPatch(data) != TaskPatch(None, None) ==> (r.Ok? <==> Owns(rows, userId, id)))
      && (r.Err? ==> r.error == TodoNotFoundError || r.error == NoUpdatesError)
  {
    var r := UpdateOutcome(rows, rows, userId, id, data, now);
    if r.Ok? {
      var after := r.value.0;
      assert after.Keys == rows.Keys;
      forall k | k in after
        ensures after[k].task.id == k
      {
        if k == id {
          assert after[k].task == PatchData(rows[id].task, ReadPatch(data), now);
        }
      }
    }
  }

  /** The existence check does not protect the write: when the row is deleted
      between the two store calls, the write throws, and the error hook
      answers 500 INTERNAL_ERROR rather than 404 TODO_NOT_FOUND. The new
      API's single guarded write answers 404 in the same case. */
  lemma {:induction false} DeletedBetweenCheckAndWrite(rows: Table, userId: string, id: string, data: Value, now: int,
                                    fc: HttpErrors.FrameworkCode, requestId: Option<string>)
    requires Owns(rows, userId, id) && ReadPatch(data) != TaskPatch(None, None)
    requires fc !in {HttpErrors.FwStr("VALIDATION"), HttpErrors.FwStr("PARSE"), HttpErrors.FwStr("NOT_FOUND")}
    ensures UpdateOutcome(rows, rows - {id}, userId, id, data, now) == Err(LegacyErrors.OtherThrown)
    ensures LegacyErrors.LegacyOnError(fc, LegacyErrors.OtherThrown, requestId).0 == 500
    ensures !Owns(rows - {id}, userId, id)
  {
  }

  /** An empty body: the service refuses it with NO_UPDATES (400) once the
      row is found, which the new API's schema as written lets through; an
      id that is not the caller's is refused with 404 first, whatever the body. */
  lemma {:induction false} EmptyBodyRefused(rows: Table, userId: string, id: string, now: int)
    ensures Owns(rows, userId, id) ==> UpdateOutcome(rows, rows, userId, id, Obj([]), now) == Err(NoUpdatesError)
    ensures !Owns(rows, userId, id) ==> UpdateOutcome(rows, rows, userId, id, Obj([]), now) == Err(TodoNotFoundError)
    ensures TaskUseCases.ValidateUpdateBodyAsWritten(ReadPatch(Obj([]))).Ok?
  {
    assert ReadPatch(Obj([])) == TaskPatch(None, None);
  }

  /** `{ ok: true }` */
  datatype Ack = Ack

  /** `todoService.list`: every listed row as a todo response, in order. */
  method List(store: TodoStore, userId: string, iso: int -> string) returns (r: seq<TaskDto>)
    requires store.Valid()
    ensures |r| == |store.ListByUser(userId)|
    ensures forall i :: 0 <= i < |r| ==> r[i] == ToTaskDto(store.ListByUser(userId)[i], iso)
    ensures LegacyListing(store.rows, userId, store.ListByUser(userId))
  {
    var todos := store.ListByUser(userId);
    r := MapToTaskDto(todos, iso);
  }

  /** `todoService.create` */
  method Create(store: TodoStore, userId: string, title: string, freshId: string, now: int, iso: int -> string)
    returns (r: TaskDto)
    requires store.Valid() && freshId !in store.rows
    modifies store
    ensures store.Valid()
    ensures CreateMeets(old(store.rows), store.rows, userId, title, Task(freshId, title, false, now, now))
    ensures r == ToTaskDto(Task(freshId, title, false, now, now), iso)
  {
    var todo := store.Create(userId, title, freshId, now);
    r := ToTaskDto(todo, iso);
  }

  /** `todoService.update`: the row must be the caller's (404 otherwise,
      before the body is looked at); the body must supply a field (400
      otherwise); then the write by id. */
  method Update(store: TodoStore, userId: string, id: string, data: Value, now: int, iso: int -> string)
    returns (r: Result<TaskDto, LegacyErrors.LegacyCaught>)
    requires store.Valid()
    modifies store
    ensures store.Valid() && store.order == old(store.order)
    ensures var o := UpdateOutcome(old(store.rows), old(store.rows), userId, id, data, now);
      && (o.Ok? ==> r == Ok(ToTaskDto(o.value.1, iso)) && store.rows == o.value.0)
      && (o.Err? ==> r == Err(o.error) && store.rows == old(store.rows))
  {
    var existing := store.FindById(id, userId);
    if existing.None? {
      return Err(TodoNotFoundError);
    }
    var title: Option<string> := None;
    var isDone: Option<bool> := None;
    if Get(data, "title").Str? {
      title := Some(Get(data, "title").s);
    }
    if Get(data, "isDone").Bool? {
      isDone := Some(Get(data, "isDone").b);
    }
    if title.None? && isDone.None? {
      return Err(NoUpdatesError);
    }
    var todo := store.Update(existing.value.id, TaskPatch(title, isDone), now);
    r := if todo.Some? then Ok(ToTaskDto(todo.value, iso)) else Err(LegacyErrors.OtherThrown);
  }

  /** `todoService.delete`: 404 when no row of the caller's was removed. */
  method Delete(store: TodoStore, userId: string, id: string) returns (r: Result<Ack, LegacyErrors.LegacyCaught>)
    requires store.Valid()
    modifies store
    ensures store.Valid()
    ensures r.Ok? <==> Owns(old(store.rows), userId, id)
    ensures r.Err? ==> r.error == TodoNotFoundError
    ensures DeleteMeets(old(store.rows), store.rows, userId, id, r.Ok?)
  {
    var count := store.DeleteById(id, userId);
    if count == 0 {
      return Err(TodoNotFoundError);
    }
    r := Ok(Ack);
  }
}
