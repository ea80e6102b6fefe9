/** The listing both task repositories implement: keep the caller's rows that
    match the status filter, order them by one key, and cut out one page
    (packages/api/src/modules/tasks/infrastructure/prisma-task-repository.ts
    and the in-memory repository of packages/api/test/tasks.use-cases.unit.test.ts).
    Titles are ordered by Unicode code point; the collation of `localeCompare` and of
    the database is not modelled. */
module TaskListing {
  import opened TaskDomain
  import Text

  /** A stored task together with its owner. */
  datatype Row = Row(userId: string, task: Task)

  /** The table, keyed by task id. */
  type Table = map<string, Row>

  /** Each row is stored under its own id. */
  predicate TableValid(rows: Table) {
    forall id :: id in rows ==> rows[id].task.id == id
  }

  // ---------------------------------------------------------------------------
  // Ordering

  /** Strictly smaller sort key, ascending. */
  predicate KeyLess(a: Task, b: Task, key: SortBy) {
    match key
    case Title => Text.LexLess(a.title, b.title)
    case CreatedAt => a.createdAt < b.createdAt
    case UpdatedAt => a.updatedAt < b.updatedAt
  }

  /** `a` must come before `b`: the comparator is negative; `desc` reverses
      the key order. */
  predicate Precedes(a: Task, b: Task, key: SortBy, order: SortOrder) {
    if order == Asc then KeyLess(a, b, key) else KeyLess(b, a, key)
  }

  /** The key order is a strict weak order: irreflexive, transitive, and
      "not before" is transitive too (ties are an equivalence). */
  lemma {:induction false} KeyLessOrder(a: Task, b: Task, c: Task, key: SortBy)
    ensures !KeyLess(a, a, key)
    ensures KeyLess(a, b, key) && KeyLess(b, c, key) ==> KeyLess(a, c, key)
    ensures !KeyLess(a, b, key) && !KeyLess(b, c, key) ==> !KeyLess(a, c, key)
  {
    if key == Title {
      var x, y, z := a.title, b.title, c.title;
      Text.LexLessIrreflexive(x);
      if Text.LexLess(x, y) && Text.LexLess(y, z) {
        Text.LexLessTransitive(x, y, z);
      }
      Text.LexLessTotal(x, y);
      Text.LexLessTotal(y, z);
      if Text.LexLess(y, x) && Text.LexLess(x, z) {
        Text.LexLessTransitive(y, x, z);
      }
      if Text.LexLess(y, x) && Text.LexLess(z, y) {
        Text.LexLessTransitive(z, y, x);
        if Text.LexLess(x, z) {
          Text.LexLessTransitive(x, z, x);
        }
      }
    }
  }

  lemma {:induction false} PrecedesOrder(a: Task, b: Task, c: Task, key: SortBy, order: SortOrder)
    ensures !Precedes(a, a, key, order)
    ensures Precedes(a, b, key, order) && Precedes(b, c, key, order) ==> Precedes(a, c, key, order)
    ensures !Precedes(a, b, key, order) && !Precedes(b, c, key, order) ==> !Precedes(a, c, key, order)
  {
    KeyLessOrder(a, b, c, key);
    KeyLessOrder(c, b, a, key);
  }

  /** No element comes strictly before an earlier one. */
  predicate Sorted(s: seq<Row>, key: SortBy, order: SortOrder) {
    forall i, j :: 0 <= i < j < |s| ==> !Precedes(s[j].task, s[i].task, key, order)
  }

  /** The same, for the tasks of a page. */
  predicate TasksSorted(s: seq<Task>, key: SortBy, order: SortOrder) {
    forall i, j :: 0 <= i < j < |s| ==> !Precedes(s[j], s[i], key, order)
  }

  // ---------------------------------------------------------------------------
  // Ids of a sequence of rows

  function IdSet(s: seq<Row>): (r: set<string>)
    ensures |r| <= |s|
    ensures forall i :: 0 <= i < |s| ==> s[i].task.id in r
  {
    if s == [] then {} else {s[0].task.id} + IdSet(s[1..])
  }

  /** Every id in the set is the id of some element. */
  lemma {:induction false} IdSetMember(s: seq<Row>, id: string)
    requires id in IdSet(s)
    ensures exists i :: 0 <= i < |s| && s[i].task.id == id
  {
    if s[0].task.id != id {
      IdSetMember(s[1..], id);
      var i :| 0 <= i < |s[1..]| && s[1..][i].task.id == id;
      assert s[i + 1].task.id == id;
    }
  }

  /** No id occurs twice. */
  predicate Distinct(s: seq<Row>) {
    |IdSet(s)| == |s|
  }

  lemma {:induction false} DistinctTail(s: seq<Row>)
    requires s != []
    ensures Distinct(s) ==> Distinct(s[1..]) && s[0].task.id !in IdSet(s[1..])
  {
    assert IdSet(s) == {s[0].task.id} + IdSet(s[1..]);
  }

  lemma {:induction false} DistinctCons(x: Row, s: seq<Row>)
    ensures Distinct(s) && x.task.id !in IdSet(s) ==> Distinct([x] + s)
  {
    assert ([x] + s)[1..] == s;
  }

  // ---------------------------------------------------------------------------
  // Filtering (`filter` in the in-memory repository, `where` in the database)

  function Filter(s: seq<Row>, keep: Row -> bool): (r: seq<Row>)
    ensures |r| <= |s|
  {
    if s == [] then []
    else
      var rest := Filter(s[1..], keep);
      if keep(s[0]) then [s[0]] + rest else rest
  }

  /** A filter keeps exactly the elements it accepts, and no id twice if
      there was none twice before. */
  lemma {:induction false} FilterFacts(s: seq<Row>, keep: Row -> bool)
    ensures forall e :: e in Filter(s, keep) <==> e in s && keep(e)
    ensures IdSet(Filter(s, keep)) <= IdSet(s)
    ensures Distinct(s) ==> Distinct(Filter(s, keep))
  {
    if s != [] {
      var rest := Filter(s[1..], keep);
      FilterFacts(s[1..], keep);
      DistinctTail(s);
      DistinctCons(s[0], rest);
      IdSetCons(s[0], rest);
      IdSetCons(s[0], s[1..]);
      assert s == [s[0]] + s[1..];
    }
  }

  function OwnedBy(userId: string): Row -> bool {
    (e: Row) => e.userId == userId
  }

  /** `todo` keeps the open tasks, `done` the finished ones, `all` every one. */
  predicate MatchesStatus(t: Task, status: StatusFilter) {
    match status
    case All => true
    case Todo => !t.isDone
    case Done => t.isDone
  }

  function HasStatus(status: StatusFilter): Row -> bool {
    (e: Row) => MatchesStatus(e.task, status)
  }

  predicate Selected(e: Row, userId: string, status: StatusFilter) {
    e.userId == userId && MatchesStatus(e.task, status)
  }

  /** The caller's rows with the requested status, in the order given. */
  function Selection(s: seq<Row>, userId: string, status: StatusFilter): (r: seq<Row>)
    ensures forall e :: e in r <==> e in s && Selected(e, userId, status)
    ensures Distinct(s) ==> Distinct(r)
  {
    FilterFacts(s, OwnedBy(userId));
    FilterFacts(Filter(s, OwnedBy(userId)), HasStatus(status));
    Filter(Filter(s, OwnedBy(userId)), HasStatus(status))
  }

  /** The ids the listing must cover. */
  ghost function MatchingIds(rows: Table, userId: string, status: StatusFilter): set<string> {
    set id | id in rows && Selected(rows[id], userId, status)
  }

  // ---------------------------------------------------------------------------
  // Stable insertion sort (`Array.prototype.sort` is stable)

  /** `x` goes in front of the first element that does not come strictly
      before it, so it stays ahead of the elements it ties with. */
  function Insert(x: Row, s: seq<Row>, key: SortBy, order: SortOrder): (r: seq<Row>)
    ensures |r| == |s| + 1
    ensures multiset(r) == multiset(s) + multiset{x}
  {
    if s == [] then [x]
    else if Precedes(s[0].task, x.task, key, order) then
      assert s == [s[0]] + s[1..];
      [s[0]] + Insert(x, s[1..], key, order)
    else
      [x] + s
  }

  /** Inserting adds exactly the inserted row's id. */
  lemma {:induction false} InsertIds(x: Row, s: seq<Row>, key: SortBy, order: SortOrder)
    ensures IdSet(Insert(x, s, key, order)) == IdSet(s) + {x.task.id}
  {
    if s == [] {
      IdSetCons(x, []);
    } else if Precedes(s[0].task, x.task, key, order) {
      InsertIds(x, s[1..], key, order);
      InsertIdsBehind(x, s, Insert(x, s[1..], key, order));
    } else {
      IdSetCons(x, s);
    }
  }

  lemma {:induction false} InsertIdsBehind(x: Row, s: seq<Row>, rest: seq<Row>)
    requires s != [] && IdSet(rest) == IdSet(s[1..]) + {x.task.id}
    ensures IdSet([s[0]] + rest) == IdSet(s) + {x.task.id}
  {
    assert s == [s[0]] + s[1..];
    IdSetCons(s[0], s[1..]);
    IdSetCons(s[0], rest);
  }

  lemma {:induction false} IdSetCons(x: Row, s: seq<Row>)
    ensures IdSet([x] + s) == {x.task.id} + IdSet(s)
  {
    assert ([x] + s)[1..] == s;
  }

  lemma {:induction false} InsertSorted(x: Row, s: seq<Row>, key: SortBy, order: SortOrder)
    requires Sorted(s, key, order)
    ensures Sorted(Insert(x, s, key, order), key, order)
  {
    if s == [] {
    } else if Precedes(s[0].task, x.task, key, order) {
      var rest := Insert(x, s[1..], key, order);
      InsertSorted(x, s[1..], key, order);
      forall j | 0 <= j < |rest|
        ensures !Precedes(rest[j].task, s[0].task, key, order)
      {
        assert rest[j] in multiset(rest);
        PrecedesOrder(x.task, s[0].task, x.task, key, order);
        if rest[j] != x {
          assert rest[j] in multiset(s[1..]);
          var k :| 0 <= k < |s[1..]| && s[1..][k] == rest[j];
          assert s[k + 1] == rest[j];
        }
      }
      InsertSortedFront(s[0], rest, key, order);
    } else {
      forall j | 0 <= j < |s|
        ensures !Precedes(s[j].task, x.task, key, order)
      {
        PrecedesOrder(s[j].task, s[0].task, x.task, key, order);
      }
      InsertSortedFront(x, s, key, order);
    }
  }

  /** Putting an element in front of a sorted sequence that has nothing
      coming strictly before it keeps it sorted. */
  lemma {:induction false} InsertSortedFront(y: Row, rest: seq<Row>, key: SortBy, order: SortOrder)
    requires Sorted(rest, key, order)
    requires forall j :: 0 <= j < |rest| ==> !Precedes(rest[j].task, y.task, key, order)
    ensures Sorted([y] + rest, key, order)
  {
    var r := [y] + rest;
    forall i, j | 0 <= i < j < |r|
      ensures !Precedes(r[j].task, r[i].task, key, order)
    {
      if i > 0 {
        assert r[i] == rest[i - 1] && r[j] == rest[j - 1];
      } else {
        assert r[j] == rest[j - 1];
      }
    }
  }

  /** `items.sort(comparator)` */
  function SortRows(s: seq<Row>, key: SortBy, order: SortOrder): (r: seq<Row>)
    ensures |r| == |s|
    ensures multiset(r) == multiset(s)
    ensures IdSet(r) == IdSet(s)
    ensures Distinct(s) ==> Distinct(r)
    ensures Sorted(r, key, order)
  {
    if s == [] then []
    else
      var rest := SortRows(s[1..], key, order);
      SortStep(s, rest, key, order);
      Insert(s[0], rest, key, order)
  }

  /** One step of the sort: the head inserted into the sorted tail. */
  lemma {:induction false} SortStep(s: seq<Row>, rest: seq<Row>, key: SortBy, order: SortOrder)
    requires s != [] && |rest| == |s| - 1
    requires multiset(rest) == multiset(s[1..]) && IdSet(rest) == IdSet(s[1..])
    requires Distinct(s[1..]) ==> Distinct(rest)
    requires Sorted(rest, key, order)
    ensures var r := Insert(s[0], rest, key, order);
      && |r| == |s| && multiset(r) == multiset(s) && IdSet(r) == IdSet(s)
      && (Distinct(s) ==> Distinct(r)) && Sorted(r, key, order)
  {
    assert s == [s[0]] + s[1..];
    IdSetCons(s[0], s[1..]);
    InsertIds(s[0], rest, key, order);
    InsertSorted(s[0], rest, key, order);
    SortStepDistinct(s, rest, key, order);
  }

  /** Inserting the head of a distinct sequence into a sorted copy of its
      tail keeps the ids distinct. */
  lemma {:induction false} SortStepDistinct(s: seq<Row>, rest: seq<Row>, key: SortBy, order: SortOrder)
    requires s != [] && IdSet(rest) == IdSet(s[1..])
    requires Distinct(s[1..]) ==> Distinct(rest)
    ensures Distinct(s) ==> Distinct(Insert(s[0], rest, key, order))
  {
    if Distinct(s) {
      DistinctTail(s);
      var r := Insert(s[0], rest, key, order);
      InsertIds(s[0], rest, key, order);
      assert |IdSet(r)| == |IdSet(rest)| + 1;
    }
  }

  // ---------------------------------------------------------------------------
  // Paging

  /** What the listing needs of a query: pages count from 1 and hold at
      least one row. */
  predicate ValidQuery(q: ListQuery) {
    q.page >= 1 && q.pageSize >= 1
  }

  /** `(page - 1) * pageSize` */
  function Skip(q: ListQuery): nat
    requires ValidQuery(q)
  {
    (q.page - 1) * q.pageSize
  }

  /** `slice(skip, skip + take)` for a non-negative offset. */
  function Window(s: seq<Row>, skip: nat, take: nat): (r: seq<Row>)
    ensures |r| <= take
    ensures skip >= |s| ==> r == []
    ensures skip < |s| ==> |r| == (if skip + take <= |s| then take else |s| - skip)
    ensures forall i :: 0 <= i < |r| ==> skip + i < |s| && r[i] == s[skip + i]
  {
    if skip >= |s| then [] else s[skip..if skip + take <= |s| then skip + take else |s|]
  }

  /** The rows with their owner dropped. */
  function Tasks(s: seq<Row>): (r: seq<Task>)
    ensures |r| == |s|
    ensures forall i :: 0 <= i < |s| ==> r[i] == s[i].task
  {
    if s == [] then [] else [s[0].task] + Tasks(s[1..])
  }

  /** `Math.max(1, Math.ceil(total / pageSize))`: the fewest pages, and at
      least one, that hold `total` rows. */
  function TotalPages(total: nat, pageSize: int): (r: int)
    requires pageSize >= 1
    ensures r >= 1 && total <= r * pageSize
    ensures r == 1 || (r - 1) * pageSize < total
  {
    if total == 0 then 1
    else
      var n := total + pageSize - 1;
      assert n == (n / pageSize) * pageSize + n % pageSize;
      n / pageSize
  }

  /** Row `k` of the listing is on page `k / pageSize + 1`, which is one of
      the `TotalPages` pages; the pages after the last are empty. */
  lemma {:induction false} PagesCoverListing(total: nat, pageSize: int, k: nat, page: int)
    requires pageSize >= 1
    ensures k < total ==>
      var p := k / pageSize + 1;
      && 1 <= p <= TotalPages(total, pageSize)
      && (p - 1) * pageSize <= k < (p - 1) * pageSize + pageSize
    ensures page > TotalPages(total, pageSize) ==> (page - 1) * pageSize >= total
  {
    var r := TotalPages(total, pageSize);
    var d := k / pageSize;
    assert k == d * pageSize + k % pageSize;
    MulMonotone(d, r, pageSize);
    MulMonotone(page - 1, r, pageSize);
  }

  lemma {:induction false} MulMonotone(a: int, b: int, c: int)
    requires c >= 1
    ensures a >= b ==> a * c >= b * c
  {
    if a >= b {
      assert a * c - b * c == (a - b) * c;
    }
  }

  // ---------------------------------------------------------------------------
  // The listing contract

  /** `ordered` lists each of the caller's rows that match the status filter
      exactly once, in key order. Ties may come in any order: the database
      leaves it open. */
  ghost predicate IsListingOrder(rows: Table, userId: string, q: ListQuery, ordered: seq<Row>) {
    && (forall e :: e in ordered ==> e.task.id in rows && rows[e.task.id] == e && Selected(e, userId, q.status))
    && Distinct(ordered)
    && IdSet(ordered) == MatchingIds(rows, userId, q.status)
    && Sorted(ordered, q.sortBy, q.sortOrder)
  }

  /** The page of an ordering: the window at the query's offset, the count of
      all rows in the ordering, and the query fields echoed. */
  function PageOf(ordered: seq<Row>, q: ListQuery): TaskListPage
    requires ValidQuery(q)
  {
    TaskListPage(Tasks(Window(ordered, Skip(q), q.pageSize)), |ordered|, q.page, q.pageSize,
                 TotalPages(|ordered|, q.pageSize), q.sortBy, q.sortOrder, q.status)
  }

  /** `page` is a correct answer to `listByUser(userId, q)` on `rows`. */
  ghost predicate ListingMeets(rows: Table, userId: string, q: ListQuery, page: TaskListPage)
    requires ValidQuery(q)
  {
    exists ordered :: IsListingOrder(rows, userId, q, ordered) && page == PageOf(ordered, q)
  }

  /** What a correct listing guarantees: only the caller's rows with the
      requested status, in key order, at most a page of them; `total` counts
      every match whatever the sort and page; the query is echoed. */
  lemma {:induction false} ListingGuarantees(rows: Table, userId: string, q: ListQuery, page: TaskListPage)
    requires ValidQuery(q) && ListingMeets(rows, userId, q, page)
    ensures page.total == |MatchingIds(rows, userId, q.status)|
    ensures page.totalPages == TotalPages(page.total, q.pageSize)
    ensures |page.items| <= q.pageSize
    ensures forall i :: 0 <= i < |page.items| ==>
      var t := page.items[i];
      t.id in rows && rows[t.id] == Row(userId, t) && MatchesStatus(t, q.status)
    ensures TasksSorted(page.items, q.sortBy, q.sortOrder)
    ensures page.page == q.page && page.pageSize == q.pageSize
    ensures page.sortBy == q.sortBy && page.sortOrder == q.sortOrder && page.status == q.status
  {
    var ordered: seq<Row> :| IsListingOrder(rows, userId, q, ordered) && page == PageOf(ordered, q);
    var w := Window(ordered, Skip(q), q.pageSize);
    forall i | 0 <= i < |page.items|
      ensures var t := page.items[i];
        t.id in rows && rows[t.id] == Row(userId, t) && MatchesStatus(t, q.status)
    {
      assert page.items[i] == w[i].task;
      assert w[i] in ordered;
    }
    forall i, j | 0 <= i < j < |page.items|
      ensures !Precedes(page.items[j], page.items[i], q.sortBy, q.sortOrder)
    {
      assert page.items[i] == ordered[Skip(q) + i].task;
      assert page.items[j] == ordered[Skip(q) + j].task;
    }
  }

  /** Two correct listings under the same status filter report the same
      total and page count, whatever their sort and page. */
  lemma {:induction false} ListingTotalIndependent(rows: Table, userId: string, q1: ListQuery, p1: TaskListPage,
                                q2: ListQuery, p2: TaskListPage)
    requires ValidQuery(q1) && ListingMeets(rows, userId, q1, p1)
    requires ValidQuery(q2) && ListingMeets(rows, userId, q2, p2)
    requires q1.status == q2.status && q1.pageSize == q2.pageSize
    ensures p1.total == p2.total && p1.totalPages == p2.totalPages
  {
    ListingGuarantees(rows, userId, q1, p1);
    ListingGuarantees(rows, userId, q2, p2);
  }

  /** `base` enumerates the table: every row once, as stored. */
  ghost predicate Enumerates(rows: Table, base: seq<Row>) {
    && Distinct(base)
    && IdSet(base) == rows.Keys
    && (forall e :: e in base ==> e.task.id in rows && rows[e.task.id] == e)
  }

  /** Filtering an enumeration of the table and sorting the result gives a
      correct listing, whatever order the enumeration is in. */
  lemma {:induction false} ListingOfEnumeration(rows: Table, base: seq<Row>, userId: string, q: ListQuery)
    requires Enumerates(rows, base)
    ensures IsListingOrder(rows, userId, q, SortRows(Selection(base, userId, q.status), q.sortBy, q.sortOrder))
    ensures ValidQuery(q) ==>
      ListingMeets(rows, userId, q, PageOf(SortRows(Selection(base, userId, q.status), q.sortBy, q.sortOrder), q))
  {
    var sel := Selection(base, userId, q.status);
    var ordered := SortRows(sel, q.sortBy, q.sortOrder);
    SortedRowsAreStored(rows, base, userId, q.status, q.sortBy, q.sortOrder);
    SelectionIds(rows, base, userId, q.status);
    assert IsListingOrder(rows, userId, q, ordered);
  }

  lemma {:induction false} SortedRowsAreStored(rows: Table, base: seq<Row>, userId: string, status: StatusFilter,
                            key: SortBy, order: SortOrder)
    requires forall e :: e in base ==> e.task.id in rows && rows[e.task.id] == e
    ensures var ordered := SortRows(Selection(base, userId, status), key, order);
      forall e :: e in ordered ==> e.task.id in rows && rows[e.task.id] == e && Selected(e, userId, status)
  {
    var sel := Selection(base, userId, status);
    var ordered := SortRows(sel, key, order);
    forall e | e in ordered
      ensures e.task.id in rows && rows[e.task.id] == e && Selected(e, userId, status)
    {
      assert e in multiset(ordered);
      assert e in multiset(sel);
    }
  }

  lemma {:induction false} SelectionIds(rows: Table, base: seq<Row>, userId: string, status: StatusFilter)
    requires Enumerates(rows, base)
    ensures IdSet(Selection(base, userId, status)) == MatchingIds(rows, userId, status)
  {
    var sel := Selection(base, userId, status);
    forall id | id in IdSet(sel)
      ensures id in MatchingIds(rows, userId, status)
    {
      IdSetMember(sel, id);
      var i :| 0 <= i < |sel| && sel[i].task.id == id;
      assert sel[i] in sel;
    }
    forall id | id in MatchingIds(rows, userId, status)
      ensures id in IdSet(sel)
    {
      IdSetMember(base, id);
      var i :| 0 <= i < |base| && base[i].task.id == id;
      assert base[i] in base;
      assert base[i] in sel;
    }
  }

  // ---------------------------------------------------------------------------
  // A table read in a stored order

  /** `order` lists each id of the table exactly once. */
  predicate OrderValid(rows: Table, order: seq<string>) {
    && (forall i :: 0 <= i < |order| ==> order[i] in rows)
    && (forall id :: id in rows ==> id in order)
    && (forall i, j :: 0 <= i < j < |order| ==> order[i] != order[j])
  }

  /** The table's rows in the given order (`Map.prototype.values()` for the
      in-memory repository, the physical row order for the database). */
  function InOrder(rows: Table, order: seq<string>): (r: seq<Row>)
    requires forall i :: 0 <= i < |order| ==> order[i] in rows
    ensures |r| == |order|
    ensures forall i :: 0 <= i < |order| ==> r[i] == rows[order[i]]
  {
    if order == [] then [] else [rows[order[0]]] + InOrder(rows, order[1..])
  }

  lemma {:induction false} InOrderIds(rows: Table, order: seq<string>)
    requires TableValid(rows)
    requires forall i :: 0 <= i < |order| ==> order[i] in rows
    requires forall i, j :: 0 <= i < j < |order| ==> order[i] != order[j]
    ensures Distinct(InOrder(rows, order))
    ensures IdSet(InOrder(rows, order)) == set id | id in order
  {
    if order != [] {
      var rest := InOrder(rows, order[1..]);
      InOrderIds(rows, order[1..]);
      assert InOrder(rows, order) == [rows[order[0]]] + rest;
      IdSetCons(rows[order[0]], rest);
      SetOfCons(order);
      DistinctCons(rows[order[0]], rest);
    }
  }

  lemma {:induction false} SetOfCons(order: seq<string>)
    requires order != []
    ensures (set id | id in order) == {order[0]} + (set id | id in order[1..])
  {
    assert order == [order[0]] + order[1..];
  }

  /** A valid order enumerates the table. */
  lemma {:induction false} InOrderEnumerates(rows: Table, order: seq<string>)
    requires TableValid(rows) && OrderValid(rows, order)
    ensures Enumerates(rows, InOrder(rows, order))
  {
    InOrderIds(rows, order);
    var base := InOrder(rows, order);
    forall e | e in base
      ensures e.task.id in rows && rows[e.task.id] == e
    {
      var i :| 0 <= i < |base| && base[i] == e;
      var id := order[i];
      assert e == rows[id];
      assert rows[id].task.id == id;
    }
  }

  /** `order` without `id` (a deleted key leaves the iteration order). */
  function RemoveId(order: seq<string>, id: string): (r: seq<string>)
    ensures forall x :: x in r <==> x in order && x != id
    ensures (forall i, j :: 0 <= i < j < |order| ==> order[i] != order[j]) ==>
              forall i, j :: 0 <= i < j < |r| ==> r[i] != r[j]
  {
    if order == [] then []
    else if order[0] == id then RemoveId(order[1..], id)
    else
      var rest := RemoveId(order[1..], id);
      assert forall x :: x in rest ==> x in order[1..];
      assert (forall i, j :: 0 <= i < j < |order| ==> order[i] != order[j]) ==> order[0] !in order[1..];
      assert forall j :: 0 < j < |rest| + 1 ==> ([order[0]] + rest)[j] in rest;
      [order[0]] + rest
  }

  /** Every way the repositories change the table keeps its order valid. */
  lemma {:induction false} OrderAfterChange(rows: Table, order: seq<string>, id: string, row: Row)
    requires OrderValid(rows, order)
    ensures id !in rows ==> OrderValid(rows[id := row], order + [id])
    ensures id in rows ==> OrderValid(rows[id := row], order)
    ensures OrderValid(rows - {id}, RemoveId(order, id))
  {
    var r := RemoveId(order, id);
    forall i | 0 <= i < |r|
      ensures r[i] in rows - {id}
    {
      assert r[i] in r;
    }
  }

  /** The listing of a table read in any valid stored order is correct. */
  lemma {:induction false} ListingOfOrder(rows: Table, order: seq<string>, userId: string, q: ListQuery)
    requires TableValid(rows) && OrderValid(rows, order) && ValidQuery(q)
    ensures ListingMeets(rows, userId, q,
      PageOf(SortRows(Selection(InOrder(rows, order), userId, q.status), q.sortBy, q.sortOrder), q))
  {
    InOrderEnumerates(rows, order);
    ListingOfEnumeration(rows, InOrder(rows, order), userId, q);
  }
}
