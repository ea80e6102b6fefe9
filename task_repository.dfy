/** The task repository port
    (packages/api/src/modules/tasks/application/ports/task-repository.ts) as
    one contract over the table of rows, and its database realisation
    (packages/api/src/modules/tasks/infrastructure/prisma-task-repository.ts).
    The database is the table plus the physical order of its rows, which
    decides the order of ties; its clock and id generator are parameters. */
module TaskRepository {
  import opened Wrappers
  import opened TaskDomain
  import opened TaskListing

  /** The caller may touch the row: it exists and is theirs. */
  predicate Owns(rows: Table, userId: string, taskId: string) {
    taskId in rows && rows[taskId].userId == userId
  }

  /** `create`: one new row under an unused id; the task is open and was
      created and updated at the same instant. */
  predicate CreateMeets(before: Table, after: Table, userId: string, title: string, t: Task) {
    && t.id !in before
    && t.title == title && !t.isDone && t.createdAt == t.updatedAt
    && after == before[t.id := Row(userId, t)]
  }

  /** `updateForUser`: true exactly when the caller owns the row. Then the
      supplied fields are taken and the others kept, with id, owner and
      creation time unchanged and every other row untouched; otherwise nothing
      changes. The new update time is left to each realisation. */
  predicate UpdateMeets(before: Table, after: Table, userId: string, taskId: string, patch: TaskPatch, updated: bool) {
    && (updated <==> Owns(before, userId, taskId))
    && (!updated ==> after == before)
    && (updated ==>
          && after.Keys == before.Keys
          && (forall id :: id in before && id != taskId ==> after[id] == before[id])
          && var t := before[taskId].task;
             var n := after[taskId];
             && n.userId == userId && n.task.id == taskId && n.task.createdAt == t.createdAt
             && n.task.title == patch.title.GetOr(t.title)
             && n.task.isDone == patch.isDone.GetOr(t.isDone))
  }

  /** `deleteForUser`: true exactly when the caller owns the row, which is
      then removed; otherwise nothing changes. */
  predicate DeleteMeets(before: Table, after: Table, userId: string, taskId: string, deleted: bool) {
    && (deleted <==> Owns(before, userId, taskId))
    && after == (if deleted then before - {taskId} else before)
  }

  /** No operation of one user changes another user's rows, and each keeps
      every row stored under its own id. */
  lemma {:induction false} TenantIsolation(before: Table, after: Table, userId: string, taskId: string, patch: TaskPatch,
                        title: string, t: Task, ok: bool)
    requires TableValid(before)
    requires || UpdateMeets(before, after, userId, taskId, patch, ok)
             || DeleteMeets(before, after, userId, taskId, ok)
             || CreateMeets(before, after, userId, title, t)
    ensures forall id :: id in before && before[id].userId != userId ==> id in after && after[id] == before[id]
    ensures forall id :: id in after && after[id].userId != userId ==> id in before && after[id] == before[id]
    ensures TableValid(after)
  {
  }

  /** A created task is counted once more in its owner's unfiltered listing;
      a deleted one once less; no create, update or delete by one user
      changes what another user's listing covers, whatever its status filter. */
  lemma {:induction false} ListingCountsFollowChanges(before: Table, after: Table, userId: string, title: string, t: Task,
                                   taskId: string, deleted: bool, patch: TaskPatch, other: string, s: StatusFilter)
    ensures CreateMeets(before, after, userId, title, t) ==>
      MatchingIds(after, userId, All) == MatchingIds(before, userId, All) + {t.id} &&
      t.id !in MatchingIds(before, userId, All)
    ensures DeleteMeets(before, after, userId, taskId, deleted) && deleted ==>
      MatchingIds(after, userId, All) == MatchingIds(before, userId, All) - {taskId} &&
      taskId in MatchingIds(before, userId, All)
    ensures TableValid(before) && other != userId &&
            (|| CreateMeets(before, after, userId, title, t)
             || UpdateMeets(before, after, userId, taskId, patch, deleted)
             || DeleteMeets(before, after, userId, taskId, deleted)) ==>
      MatchingIds(after, other, s) == MatchingIds(before, other, s)
  {
    if TableValid(before) && other != userId &&
       (|| CreateMeets(before, after, userId, title, t)
        || UpdateMeets(before, after, userId, taskId, patch, deleted)
        || DeleteMeets(before, after, userId, taskId, deleted)) {
      TenantIsolation(before, after, userId, taskId, patch, title, t, deleted);
    }
  }

  // ---------------------------------------------------------------------------
  // The database query

  /** `where`: the owner, and `isDone` only when the status filter asks. */
  datatype Where = Where(userId: string, isDone: Option<bool>)

  function BuildWhere(userId: string, status: StatusFilter): (w: Where)
    ensures w.userId == userId
    ensures w.isDone == (match status case Done => Some(true) case Todo => Some(false) case All => None)
  {
    var isDone := if status == Done then Some(true) else if status == Todo then Some(false) else None;
    Where(userId, isDone)
  }

  predicate WhereMatches(w: Where, e: Row) {
    e.userId == w.userId && (w.isDone.Some? ==> e.task.isDone == w.isDone.value)
  }

  function WhereFilter(w: Where): Row -> bool {
    (e: Row) => WhereMatches(w, e)
  }

  /** The `where` object selects exactly the caller's rows with the status. */
  lemma {:induction false} WhereIsSelection(s: seq<Row>, userId: string, status: StatusFilter)
    ensures Filter(s, WhereFilter(BuildWhere(userId, status))) == Selection(s, userId, status)
  {
    if s != [] {
      WhereIsSelection(s[1..], userId, status);
      assert WhereMatches(BuildWhere(userId, status), s[0]) <==> Selected(s[0], userId, status);
    }
  }

  /** `{...patch, updatedAt: now}`: the supplied fields and the clock. */
  function PatchData(t: Task, patch: TaskPatch, now: int): (r: Task)
    ensures r.id == t.id && r.createdAt == t.createdAt && r.updatedAt == now
    ensures r.title == patch.title.GetOr(t.title) && r.isDone == patch.isDone.GetOr(t.isDone)
  {
    t.(title := patch.title.GetOr(t.title), isDone := patch.isDone.GetOr(t.isDone), updatedAt := now)
  }

  /** The database update agrees with the task model's `applyPatch` for any
      non-empty patch; an empty one still moves `updatedAt`, which
      `applyPatch` does not. */
  lemma {:induction false} PatchDataAgreesWithApplyPatch(t: Task, patch: TaskPatch, now: int)
    ensures patch != TaskPatch(None, None) ==> PatchData(t, patch, now) == ApplyPatch(t, patch, now, now)
    ensures patch == TaskPatch(None, None) ==>
      ApplyPatch(t, patch, now, now) == t && PatchData(t, patch, now) == t.(updatedAt := now)
  {
  }

  class PrismaTaskRepository {
    var rows: Table
    /** The physical order of the rows; it decides how ties are ordered. */
    var order: seq<string>

    ghost predicate Valid()
      reads this
    {
      TableValid(rows) && OrderValid(rows, order)
    }

    constructor ()
      ensures Valid() && rows == map[] && order == []
    {
      rows := map[];
      order := [];
    }

    /** `listByUser`: one count and one page read under the same `where`, in
        one transaction, so total and items come from the same table. */
    function ListByUser(userId: string, q: ListQuery): (page: TaskListPage)
      reads this
      requires Valid() && ValidQuery(q)
      ensures ListingMeets(rows, userId, q, page)
    {
      var w := BuildWhere(userId, q.status);
      var matching := Filter(InOrder(rows, order), WhereFilter(w));
      var skip := Skip(q);
      var total := |matching|;
      var tasks := Window(SortRows(matching, q.sortBy, q.sortOrder), skip, q.pageSize);
      InOrderEnumerates(rows, order);
      WhereIsSelection(InOrder(rows, order), userId, q.status);
      ListingOfEnumeration(rows, InOrder(rows, order), userId, q);
      TaskListPage(Tasks(tasks), total, q.page, q.pageSize, TotalPages(total, q.pageSize),
                   q.sortBy, q.sortOrder, q.status)
    }

    /** `create`: the database fills in the id, `isDone = false` and both
        timestamps. */
    method Create(userId: string, title: string, freshId: string, now: int) returns (t: Task)
      requires Valid() && freshId !in rows
      modifies this
      ensures Valid()
      ensures CreateMeets(old(rows), rows, userId, title, t)
      ensures t == Task(freshId, title, false, now, now)
      ensures order == old(order) + [freshId]
    {
      t := Task(freshId, title, false, now, now);
      OrderAfterChange(rows, order, freshId, Row(userId, t));
      rows := rows[freshId := Row(userId, t)];
      order := order + [freshId];
    }

    /** `updateForUser`: `updateMany` on id and owner, then `count > 0`. */
    method UpdateForUser(userId: string, taskId: string, patch: TaskPatch, now: int) returns (updated: bool)
      requires Valid()
      modifies this
      ensures Valid()
      ensures UpdateMeets(old(rows), rows, userId, taskId, patch, updated)
      ensures updated ==> rows[taskId].task == PatchData(old(rows)[taskId].task, patch, now)
      ensures order == old(order)
    {
      var count := if Owns(rows, userId, taskId) then 1 else 0;
      if count > 0 {
        var row := Row(userId, PatchData(rows[taskId].task, patch, now));
        OrderAfterChange(rows, order, taskId, row);
        rows := rows[taskId := row];
      }
      updated := count > 0;
    }

    /** `deleteForUser`: `deleteMany` on id and owner, then `count > 0`. */
    method DeleteForUser(userId: string, taskId: string) returns (deleted: bool)
      requires Valid()
      modifies this
      ensures Valid()
      ensures DeleteMeets(old(rows), rows, userId, taskId, deleted)
    {
      var count := if Owns(rows, userId, taskId) then 1 else 0;
      if count > 0 {
        OrderAfterChange(rows, order, taskId, rows[taskId]);
        rows := rows - {taskId};
        order := RemoveId(order, taskId);
      }
      deleted := count > 0;
    }
  }
}
