/** The task entity, its patch, the list query with its defaults, the DTO
    mappers and the immutable task model
    (packages/api/src/modules/tasks/domain/task.ts). Timestamps are integer
    milliseconds; `toISOString` is the parameter `iso`. */
module TaskDomain {
  import opened Wrappers

  datatype Task = Task(id: string, title: string, isDone: bool, createdAt: int, updatedAt: int)

  /** `{title?, isDone?}` */
  datatype TaskPatch = TaskPatch(title: Option<string>, isDone: Option<bool>)

  datatype SortBy = CreatedAt | UpdatedAt | Title
  datatype SortOrder = Asc | Desc
  datatype StatusFilter = All | Todo | Done

  datatype ListQuery = ListQuery(page: int, pageSize: int, sortBy: SortBy, sortOrder: SortOrder, status: StatusFilter)

  /** `Partial<TaskListQuery>` */
  datatype ListQueryInput = ListQueryInput(
    page: Option<int>, pageSize: Option<int>, sortBy: Option<SortBy>,
    sortOrder: Option<SortOrder>, status: Option<StatusFilter>)

  const DefaultListQuery := ListQuery(1, 10, CreatedAt, Desc, All)

  /** `withTaskListDefaults`: each supplied field is kept and each missing one
      is filled from the default query, independently of the others. */
  function WithTaskListDefaults(q: ListQueryInput): (r: ListQuery)
    ensures r.page == q.page.GetOr(1) && r.pageSize == q.pageSize.GetOr(10)
    ensures r.sortBy == q.sortBy.GetOr(CreatedAt) && r.sortOrder == q.sortOrder.GetOr(Desc)
    ensures r.status == q.status.GetOr(All)
  {
    ListQuery(
      q.page.GetOr(DefaultListQuery.page),
      q.pageSize.GetOr(DefaultListQuery.pageSize),
      q.sortBy.GetOr(DefaultListQuery.sortBy),
      q.sortOrder.GetOr(DefaultListQuery.sortOrder),
      q.status.GetOr(DefaultListQuery.status))
  }

  /** A complete query seen as an input with every field supplied. */
  function AsInput(q: ListQuery): ListQueryInput {
    ListQueryInput(Some(q.page), Some(q.pageSize), Some(q.sortBy), Some(q.sortOrder), Some(q.status))
  }

  /** A fully specified query is left unchanged, so defaulting twice is
      defaulting once; the empty input gives the default query. */
  lemma {:induction false} WithTaskListDefaultsIdempotent(q: ListQueryInput, full: ListQuery)
    ensures WithTaskListDefaults(AsInput(full)) == full
    ensures WithTaskListDefaults(AsInput(WithTaskListDefaults(q))) == WithTaskListDefaults(q)
    ensures WithTaskListDefaults(ListQueryInput(None, None, None, None, None)) == DefaultListQuery
  {
  }

  /** The page a listing returns. */
  datatype TaskListPage = TaskListPage(
    items: seq<Task>, total: int, page: int, pageSize: int, totalPages: int,
    sortBy: SortBy, sortOrder: SortOrder, status: StatusFilter)

  datatype TaskDto = TaskDto(id: string, title: string, isDone: bool, createdAt: string, updatedAt: string)

  datatype TaskListPageDto = TaskListPageDto(
    items: seq<TaskDto>, total: int, page: int, pageSize: int, totalPages: int,
    sortBy: SortBy, sortOrder: SortOrder, status: StatusFilter)

  /** `toISOString`, which is one-to-one on instants. */
  ghost predicate Injective(iso: int -> string) {
    forall a: int, b: int :: iso(a) == iso(b) ==> a == b
  }

  function ToTaskDto(t: Task, iso: int -> string): TaskDto {
    TaskDto(t.id, t.title, t.isDone, iso(t.createdAt), iso(t.updatedAt))
  }

  /** The DTO loses nothing: with an injective serialisation, equal DTOs come
      from equal tasks, and the identity fields are kept as they are. */
  lemma {:induction false} ToTaskDtoFaithful(a: Task, b: Task, iso: int -> string)
    requires Injective(iso)
    ensures ToTaskDto(a, iso).id == a.id && ToTaskDto(a, iso).title == a.title && ToTaskDto(a, iso).isDone == a.isDone
    ensures ToTaskDto(a, iso) == ToTaskDto(b, iso) ==> a == b
  {
    if ToTaskDto(a, iso) == ToTaskDto(b, iso) {
      assert iso(a.createdAt) == iso(b.createdAt);
      assert iso(a.updatedAt) == iso(b.updatedAt);
    }
  }

  /** `items.map(toTaskDto)` */
  function MapToTaskDto(items: seq<Task>, iso: int -> string): (r: seq<TaskDto>)
    ensures |r| == |items|
    ensures forall i :: 0 <= i < |items| ==> r[i] == ToTaskDto(items[i], iso)
  {
    if items == [] then [] else [ToTaskDto(items[0], iso)] + MapToTaskDto(items[1..], iso)
  }

  function ToTaskListPageDto(p: TaskListPage, iso: int -> string): (r: TaskListPageDto)
    ensures |r.items| == |p.items|
    ensures forall i :: 0 <= i < |p.items| ==> r.items[i] == ToTaskDto(p.items[i], iso)
    ensures r.total == p.total && r.page == p.page && r.pageSize == p.pageSize && r.totalPages == p.totalPages
    ensures r.sortBy == p.sortBy && r.sortOrder == p.sortOrder && r.status == p.status
  {
    TaskListPageDto(MapToTaskDto(p.items, iso), p.total, p.page, p.pageSize, p.totalPages,
                    p.sortBy, p.sortOrder, p.status)
  }

  // ---------------------------------------------------------------------------
  // TaskModel: every operation returns a new task; `new Date()` is a parameter

  /** `rename`: only the title and the update time change. */
  function Rename(t: Task, title: string, now: int): (r: Task)
    ensures r.id == t.id && r.createdAt == t.createdAt && r.isDone == t.isDone
    ensures r.title == title && r.updatedAt == now
  {
    t.(title := title, updatedAt := now)
  }

  /** `markDone`: only the status (now done) and the update time change. */
  function MarkDone(t: Task, now: int): (r: Task)
    ensures r.id == t.id && r.createdAt == t.createdAt && r.title == t.title
    ensures r.isDone && r.updatedAt == now
  {
    t.(isDone := true, updatedAt := now)
  }

  /** `markTodo`: only the status (now open) and the update time change. */
  function MarkTodo(t: Task, now: int): (r: Task)
    ensures r.id == t.id && r.createdAt == t.createdAt && r.title == t.title
    ensures !r.isDone && r.updatedAt == now
  {
    t.(isDone := false, updatedAt := now)
  }

  /** The transitions of a task: the last rename or status change wins, a
      rename and a status change touch different fields, and marking a task
      with the status it already has only moves its update time. */
  lemma {:induction false} TaskModelTransitions(t: Task, x: string, y: string, a: int, b: int)
    ensures Rename(Rename(t, x, a), y, b) == Rename(t, y, b)
    ensures MarkTodo(MarkDone(t, a), b) == MarkTodo(t, b) && MarkDone(MarkTodo(t, a), b) == MarkDone(t, b)
    ensures MarkDone(MarkDone(t, a), b) == MarkDone(t, b) && MarkTodo(MarkTodo(t, a), b) == MarkTodo(t, b)
    ensures MarkDone(Rename(t, x, a), b) == Rename(MarkDone(t, a), x, b)
    ensures t.isDone ==> MarkDone(t, t.updatedAt) == t
    ensures !t.isDone ==> MarkTodo(t, t.updatedAt) == t
  {
    var r1, r2 := Rename(Rename(t, x, a), y, b), Rename(t, y, b);
    assert r1.id == r2.id && r1.title == r2.title && r1.isDone == r2.isDone;
    var d1, d2 := MarkDone(Rename(t, x, a), b), Rename(MarkDone(t, a), x, b);
    assert d1.title == d2.title && d1.isDone == d2.isDone && d1.updatedAt == d2.updatedAt;
  }

  /** `applyPatch`. The rename and the status change each read the clock;
      `renameAt` and `markAt` are those two readings. */
  function ApplyPatch(t: Task, patch: TaskPatch, renameAt: int, markAt: int): Task {
    var next := if patch.title.Some? then Rename(t, patch.title.value, renameAt) else t;
    if patch.isDone.Some? then (if patch.isDone.value then MarkDone(next, markAt) else MarkTodo(next, markAt))
    else next
  }

  /** What a patch does: the supplied fields are taken, the others kept; id
      and creation time never change; `updatedAt` moves to the last clock
      reading taken, and an empty patch changes nothing at all. */
  lemma {:induction false} ApplyPatchEffect(t: Task, patch: TaskPatch, renameAt: int, markAt: int)
    ensures var r := ApplyPatch(t, patch, renameAt, markAt);
      && r.id == t.id && r.createdAt == t.createdAt
      && r.title == patch.title.GetOr(t.title)
      && r.isDone == patch.isDone.GetOr(t.isDone)
      && r.updatedAt == (if patch.isDone.Some? then markAt else if patch.title.Some? then renameAt else t.updatedAt)
      && (patch == TaskPatch(None, None) ==> r == t)
  {
  }

  /** Applying a patch whose values the task already has, at the time the
      task was last updated, gives the task back. */
  lemma {:induction false} ApplyPatchOwnValues(t: Task)
    ensures ApplyPatch(t, TaskPatch(Some(t.title), Some(t.isDone)), t.updatedAt, t.updatedAt) == t
  {
  }

  // ---------------------------------------------------------------------------
  // The PATCH body schema

  const MaxTitleLength := 200

  predicate ValidTitle(title: string) {
    1 <= |title| <= MaxTitleLength
  }

  /** The update body schema as written: an optional title of 1 to 200
      characters and an optional boolean; nothing requires either field. */
  predicate UpdateBodyAccepted(patch: TaskPatch) {
    patch.title.Some? ==> ValidTitle(patch.title.value)
  }

  /** The empty body `{}` passes the schema as written. */
  lemma {:induction false} EmptyPatchAcceptedAsWritten()
    ensures UpdateBodyAccepted(TaskPatch(None, None))
  {
  }

  /** The update body with the rule the integration test expects: at least one
      field must be present. */
  predicate UpdateBodyValid(patch: TaskPatch) {
    && UpdateBodyAccepted(patch)
    && (patch.title.Some? || patch.isDone.Some?)
  }

  /** A valid update body is never empty, and `updatedAt` moves to the last
      clock reading taken. With clock readings later than the task's last
      update, the update time strictly increases, so the task changes. */
  lemma {:induction false} ValidPatchIsNotEmpty(t: Task, patch: TaskPatch, renameAt: int, markAt: int)
    requires UpdateBodyValid(patch)
    ensures patch != TaskPatch(None, None)
    ensures UpdateBodyAccepted(patch)
    ensures var r := ApplyPatch(t, patch, renameAt, markAt);
      r.updatedAt == (if patch.isDone.Some? then markAt else renameAt)
    ensures var r := ApplyPatch(t, patch, renameAt, markAt);
      renameAt > t.updatedAt && markAt > t.updatedAt ==> r.updatedAt > t.updatedAt && r != t
  {
  }
}
