/** The in-memory task repository of the use-case tests
    (packages/api/test/tasks.use-cases.unit.test.ts:25-108): a `Map` from id
    to record, iterated in insertion order, and a counter that names the
    tasks and spaces their creation times one second apart. */
module InMemoryTaskRepository {
  import opened Wrappers
  import Text
  import opened TaskDomain
  import opened TaskListing
  import opened TaskRepository

  /** 2026-02-09T00:00:00.000Z in milliseconds. */
  const BaseTime := 1770595200000

  /** The id of the task created when the counter is at `n`. */
  function TaskId(userId: string, n: nat): string {
    userId + "-" + Text.NatToString(n)
  }

  /** Ids made from different counter values differ, whoever the users are. */
  lemma {:induction false} TaskIdsDiffer(u: string, m: nat, v: string, n: nat)
    requires m != n
    ensures TaskId(u, m) != TaskId(v, n)
  {
    if TaskId(u, m) == TaskId(v, n) {
      Text.DashSuffixUnique(u, Text.NatToString(m), v, Text.NatToString(n));
      Text.NatToStringInjective(m, n);
    }
  }

  class InMemoryRepository {
    var tasksById: Table
    /** The `Map`'s insertion order. */
    var insertion: seq<string>
    var counter: nat
    /** The counter value each stored id was made from. */
    ghost var issued: map<string, nat>

    ghost predicate Valid()
      reads this
    {
      && TableValid(tasksById)
      && OrderValid(tasksById, insertion)
      && counter >= 1
      && (forall id :: id in tasksById ==>
            && id in issued && issued[id] < counter
            && id == TaskId(tasksById[id].userId, issued[id])
            && tasksById[id].task.createdAt <= BaseTime + counter * 1000)
    }

    constructor ()
      ensures Valid() && tasksById == map[] && insertion == [] && counter == 1
    {
      tasksById := map[];
      insertion := [];
      counter := 1;
      issued := map[];
    }

    /** `listByUser`: the caller's records in insertion order, then the status
        filter, a stable sort, and the slice. */
    method ListByUser(userId: string, q: ListQuery) returns (page: TaskListPage)
      requires Valid() && ValidQuery(q)
      ensures page == PageOf(SortRows(Selection(InOrder(tasksById, insertion), userId, q.status), q.sortBy, q.sortOrder), q)
      ensures ListingMeets(tasksById, userId, q, page)
    {
      page := ListRecords(tasksById, insertion, userId, q);
    }

    /** `create`: the id takes the counter, which then moves on before the
        creation time is computed. The new id is unused, and the new task is
        created strictly after every stored one. */
    method Create(userId: string, title: string) returns (t: Task)
      requires Valid()
      modifies this
      ensures Valid()
      ensures CreateMeets(old(tasksById), tasksById, userId, title, t)
      ensures t.id == TaskId(userId, old(counter)) && counter == old(counter) + 1
      ensures t.createdAt == BaseTime + counter * 1000
      ensures forall id :: id in old(tasksById) ==> old(tasksById)[id].task.createdAt < t.createdAt
      ensures insertion == old(insertion) + [t.id]
    {
      var id := TaskId(userId, counter);
      if id in tasksById {
        TaskIdsDiffer(tasksById[id].userId, issued[id], userId, counter);
        assert false;
      }
      counter := counter + 1;
      var createdAt := BaseTime + counter * 1000;
      t := Task(id, title, false, createdAt, createdAt);
      OrderAfterChange(tasksById, insertion, id, Row(userId, t));
      tasksById := tasksById[id := Row(userId, t)];
      insertion := insertion + [id];
      issued := issued[id := counter - 1];
    }

    /** `updateForUser`: a missing or foreign record is refused; otherwise the
        supplied fields are taken and `updatedAt` moves one second on. The
        record keeps its place in the iteration order. */
    method UpdateForUser(userId: string, taskId: string, patch: TaskPatch) returns (updated: bool)
      requires Valid()
      modifies this
      ensures Valid()
      ensures UpdateMeets(old(tasksById), tasksById, userId, taskId, patch, updated)
      ensures updated ==> tasksById[taskId].task.updatedAt == old(tasksById)[taskId].task.updatedAt + 1000
      ensures insertion == old(insertion) && counter == old(counter)
    {
      if taskId !in tasksById || tasksById[taskId].userId != userId {
        return false;
      }
      var task := tasksById[taskId];
      var next := task.task.(title := patch.title.GetOr(task.task.title),
                             isDone := patch.isDone.GetOr(task.task.isDone),
                             updatedAt := task.task.updatedAt + 1000);
      var row := Row(task.userId, next);
      OrderAfterChange(tasksById, insertion, taskId, row);
      var rows := tasksById[taskId := row];
      assert rows.Keys == tasksById.Keys;
      assert forall id :: id in rows ==>
        rows[id].userId == tasksById[id].userId && rows[id].task.id == tasksById[id].task.id
        && rows[id].task.createdAt == tasksById[id].task.createdAt;
      tasksById := rows;
      updated := true;
    }

    /** `deleteForUser`: a missing or foreign record is refused; otherwise it
        is removed. */
    method DeleteForUser(userId: string, taskId: string) returns (deleted: bool)
      requires Valid()
      modifies this
      ensures Valid()
      ensures DeleteMeets(old(tasksById), tasksById, userId, taskId, deleted)
      ensures counter == old(counter)
    {
      if taskId !in tasksById || tasksById[taskId].userId != userId {
        return false;
      }
      OrderAfterChange(tasksById, insertion, taskId, tasksById[taskId]);
      tasksById := tasksById - {taskId};
      insertion := RemoveId(insertion, taskId);
      deleted := true;
    }
  }

  /** The body of `listByUser`, on the map's contents and insertion order. */
  method ListRecords(tasksById: Table, insertion: seq<string>, userId: string, q: ListQuery)
    returns (page: TaskListPage)
    requires TableValid(tasksById) && OrderValid(tasksById, insertion) && ValidQuery(q)
    ensures page == PageOf(SortRows(Selection(InOrder(tasksById, insertion), userId, q.status), q.sortBy, q.sortOrder), q)
    ensures ListingMeets(tasksById, userId, q, page)
  {
    var values := InOrder(tasksById, insertion);
    var items := FilterOwned(values, userId);
    items := FilterStatus(items, q.status);
    assert items == Selection(values, userId, q.status);
    items := StableSort(items, q.sortBy, q.sortOrder);
    ghost var ordered := items;
    var total := |items|;
    var skip := Skip(q);
    var pageItems := Window(items, skip, q.pageSize);
    page := TaskListPage(Tasks(pageItems), total, q.page, q.pageSize, TotalPages(total, q.pageSize),
                         q.sortBy, q.sortOrder, q.status);
    assert page == PageOf(ordered, q);
    ListingOfOrder(tasksById, insertion, userId, q);
  }

  /** The status filter: `todo` and `done` filter on `isDone`, `all` leaves
      the records as they are. */
  method FilterStatus(items: seq<Row>, status: StatusFilter) returns (r: seq<Row>)
    ensures r == Filter(items, HasStatus(status))
  {
    r := items;
    if status == Todo {
      r := Filter(r, HasStatus(Todo));
    } else if status == Done {
      r := Filter(r, HasStatus(Done));
    } else {
      FilterAll(r);
    }
  }

  /** `Array.from(values).filter(task => task.userId === userId)` */
  method FilterOwned(values: seq<Row>, userId: string) returns (items: seq<Row>)
    ensures items == Filter(values, OwnedBy(userId))
  {
    items := [];
    var i := 0;
    while i < |values|
      invariant 0 <= i <= |values|
      invariant items == Filter(values[..i], OwnedBy(userId))
    {
      FilterSnoc(values[..i], values[i], OwnedBy(userId));
      if values[i].userId == userId {
        items := items + [values[i]];
      }
      i := i + 1;
      assert values[..i] == values[..i - 1] + [values[i - 1]];
    }
    assert values[..i] == values;
  }

  /** `items.sort(comparator)`: each element, from the last to the first, is
      inserted into the sorted suffix, so ties keep their input order. */
  method StableSort(items: seq<Row>, key: SortBy, order: SortOrder) returns (sorted: seq<Row>)
    ensures sorted == SortRows(items, key, order)
  {
    sorted := [];
    var k := |items|;
    while k > 0
      invariant 0 <= k <= |items|
      invariant sorted == SortRows(items[k..], key, order)
    {
      k := k - 1;
      assert items[k..][1..] == items[k + 1..];
      sorted := Insert(items[k], sorted, key, order);
    }
    assert items[0..] == items;
  }

  /** Filtering a sequence extended by one element. */
  lemma {:induction false} FilterSnoc(s: seq<Row>, x: Row, keep: Row -> bool)
    ensures Filter(s + [x], keep) == Filter(s, keep) + (if keep(x) then [x] else [])
  {
    if s != [] {
      assert (s + [x])[1..] == s[1..] + [x];
      FilterSnoc(s[1..], x, keep);
    } else {
      assert s + [x] == [x];
    }
  }

  /** The `all` filter keeps everything. */
  lemma {:induction false} FilterAll(s: seq<Row>)
    ensures Filter(s, HasStatus(All)) == s
  {
    if s != [] {
      FilterAll(s[1..]);
    }
  }
}
