/** The todos table: an in-memory model of the repository that the todo
    service drives. The table maps row ids to rows; Create hands out fresh,
    increasing ids. The list query is built the way the repository builds it:
    WHERE conditions for the filter fields that are present, a count taken
    before paging, the ORDER BY clause, then OFFSET and LIMIT. */
module TodoRepository {
  import opened Wrappers
  import opened Text
  import opened Store
  import opened TodoModels

  // ---------------------------------------------------------------------
  // The WHERE clause
  // ---------------------------------------------------------------------

  /** One condition of the list query's WHERE clause. */
  datatype Criterion =
    | TitleOrDescriptionLike(text: string)   // the title or the description contains text, ignoring case
    | CategoryIs(categoryId: nat)            // the category column equals the id
    | CompletedIs(completed: bool)           // the completed column equals the flag
    | PriorityIs(priority: Priority)         // the priority column equals the string

  predicate Holds(c: Criterion, t: Todo) {
    match c
    case TitleOrDescriptionLike(text) => ContainsFold(t.title, text) || ContainsFold(t.description, text)
    case CategoryIs(id) => t.categoryId == Some(id)
    case CompletedIs(b) => t.completed == b
    case PriorityIs(p) => t.priority == p
  }

  /** The conditions are joined with AND. */
  predicate HoldsAll(where: seq<Criterion>, t: Todo) {
    forall i :: 0 <= i < |where| ==> Holds(where[i], t)
  }

  /** What a filter means, stated field by field: a row matches when every
      criterion that is present matches it. A NULL category_id equals no id. */
  predicate Matches(f: TodoFilter, t: Todo)
    ensures f.search == "" && f.categoryId.None? && f.completed.None? && f.priority == "" ==> Matches(f, t)
  {
    SearchMatches(f, t) && CategoryMatches(f, t) && CompletedMatches(f, t) && PriorityMatches(f, t)
  }

  predicate SearchMatches(f: TodoFilter, t: Todo) {
    f.search == "" || ContainsFold(t.title, f.search) || ContainsFold(t.description, f.search)
  }

  predicate CategoryMatches(f: TodoFilter, t: Todo) {
    f.categoryId.None? || t.categoryId == f.categoryId
  }

  predicate CompletedMatches(f: TodoFilter, t: Todo) {
    f.completed.None? || t.completed == f.completed.value
  }

  predicate PriorityMatches(f: TodoFilter, t: Todo) {
    f.priority == "" || t.priority == f.priority
  }

  lemma HoldsAllAppend(where: seq<Criterion>, c: Criterion, t: Todo)
    ensures HoldsAll(where + [c], t) <==> HoldsAll(where, t) && Holds(c, t)
  {
    assert forall i :: 0 <= i < |where| ==> (where + [c])[i] == where[i];
    assert (where + [c])[|where|] == c;
  }

  /** Two filters that agree on the four criteria select the same rows. */
  predicate SameCriteria(f: TodoFilter, g: TodoFilter) {
    f.search == g.search && f.categoryId == g.categoryId && f.completed == g.completed && f.priority == g.priority
  }

  /** Builds the WHERE clause one condition at a time, adding a condition only
      for a filter field that is present. */
  method WhereClause(f: TodoFilter) returns (where: seq<Criterion>)
    ensures forall t :: HoldsAll(where, t) <==> Matches(f, t)
    ensures |where| <= 4
  {
    where := [];
    if f.search != "" {
      forall t { HoldsAllAppend(where, TitleOrDescriptionLike(f.search), t); }
      where := where + [TitleOrDescriptionLike(f.search)];
    }
    assert forall t :: HoldsAll(where, t) <==> SearchMatches(f, t);
    if f.categoryId.Some? {
      forall t { HoldsAllAppend(where, CategoryIs(f.categoryId.value), t); }
      where := where + [CategoryIs(f.categoryId.value)];
    }
    assert forall t :: HoldsAll(where, t) <==> SearchMatches(f, t) && CategoryMatches(f, t);
    if f.completed.Some? {
      forall t { HoldsAllAppend(where, CompletedIs(f.completed.value), t); }
      where := where + [CompletedIs(f.completed.value)];
    }
    assert forall t :: HoldsAll(where, t) <==>
      SearchMatches(f, t) && CategoryMatches(f, t) && CompletedMatches(f, t);
    if f.priority != "" {
      forall t { HoldsAllAppend(where, PriorityIs(f.priority), t); }
      where := where + [PriorityIs(f.priority)];
    }
  }

  // ---------------------------------------------------------------------
  // ORDER BY
  // ---------------------------------------------------------------------

  datatype OrderBy = OrderBy(column: string, direction: string)

  const DefaultOrder := OrderBy("created_at", "DESC")

  /** The ORDER BY clause: each of the column and the direction falls back to
      its default on its own when the filter leaves it empty. */
  function OrderClause(sortBy: string, sortOrder: string): (o: OrderBy)
    ensures sortBy == "" ==> o.column == DefaultOrder.column
    ensures sortBy != "" ==> o.column == sortBy
    ensures sortOrder == "" ==> o.direction == DefaultOrder.direction
    ensures sortOrder != "" ==> o.direction == sortOrder
    ensures sortBy == "" && sortOrder == "" ==> o == DefaultOrder
  {
    OrderBy(if sortBy == "" then "created_at" else sortBy,
            if sortOrder == "" then "DESC" else sortOrder)
  }

  function FilterOrder(f: TodoFilter): OrderBy {
    OrderClause(f.sortBy, f.sortOrder)
  }

  /** What the model knows of the order the database returns rows in. It
      assumes that created_at strictly increases with the id, so that
      newest-first is decreasing id; any other column and direction is left to
      the database. */
  predicate SortedAs(order: seq<nat>, o: OrderBy) {
    o == DefaultOrder ==> forall i, j :: 0 <= i < j < |order| ==> order[i] > order[j]
  }

  // ---------------------------------------------------------------------
  // The rows a query selects, and OFFSET / LIMIT
  // ---------------------------------------------------------------------

  /** The rows, in the given order, that match the filter. */
  function Selected(rows: map<nat, Todo>, order: seq<nat>, f: TodoFilter): (s: seq<Todo>)
    requires forall i :: 0 <= i < |order| ==> order[i] in rows
    ensures |s| <= |order|
    ensures forall k :: 0 <= k < |s| ==> Matches(f, s[k])
  {
    if order == [] then []
    else
      var rest := Selected(rows, order[..|order| - 1], f);
      var t := rows[order[|order| - 1]];
      if Matches(f, t) then rest + [t] else rest
  }

  function Min(a: int, b: int): int {
    if a <= b then a else b
  }

  /** The row offset of a page. The ORM leaves out an OFFSET that is not
      positive, which is what a page below 1 gives. */
  function PageOffset(page: int, limit: int): (off: nat)
    ensures page >= 1 && limit >= 0 ==> off == (page - 1) * limit
  {
    if (page - 1) * limit > 0 then (page - 1) * limit else 0
  }

  /** OFFSET (page-1)*limit LIMIT limit, applied only when limit is positive. */
  function Window<T>(rows: seq<T>, page: int, limit: int): (w: seq<T>)
    ensures limit <= 0 ==> w == rows
    ensures limit > 0 ==> |w| <= limit && |w| <= |rows|
    ensures limit > 0 && PageOffset(page, limit) < |rows| ==>
      |w| == Min(limit, |rows| - PageOffset(page, limit))
    ensures limit > 0 && PageOffset(page, limit) >= |rows| ==> w == []
    ensures limit > 0 ==> forall k :: 0 <= k < |w| ==>
      PageOffset(page, limit) + k < |rows| && w[k] == rows[PageOffset(page, limit) + k]
  {
    if limit <= 0 then rows
    else
      var off := PageOffset(page, limit);
      if off >= |rows| then [] else rows[off..Min(off + limit, |rows|)]
  }

  // ---------------------------------------------------------------------
  // The table
  // ---------------------------------------------------------------------

  class TodoTable {
    var rows: map<nat, Todo>
    var nextId: nat

    /** Every row is stored under its own id, below the next id to hand out,
        and fits its columns. */
    ghost predicate Valid()
      reads this
    {
      && nextId >= 1
      && forall id :: id in rows ==> 1 <= id < nextId && rows[id].id == id && FitsTodoColumns(rows[id])
    }

    constructor ()
      ensures Valid() && rows == map[] && nextId == 1
    {
      rows := map[];
      nextId := 1;
    }

    /** INSERT: applies the column defaults, assigns a fresh id, and fails with
        a storage error when a value is too wide for its column. */
    method Create(t: Todo) returns (r: Result<nat, StoreError>)
      requires Valid()
      modifies this
      ensures Valid()
      ensures var row := WithTodoColumnDefaults(t).(id := old(nextId));
        if FitsTodoColumns(row) then
          && r == Ok(old(nextId)) && old(nextId) !in old(rows)
          && rows == old(rows)[old(nextId) := row] && nextId == old(nextId) + 1
        else
          r == Err(ValueTooLong) && rows == old(rows) && nextId == old(nextId)
    {
      var row := WithTodoColumnDefaults(t).(id := nextId);
      if !FitsTodoColumns(row) {
        return Err(ValueTooLong);
      }
      rows := rows[nextId := row];
      r := Ok(nextId);
      nextId := nextId + 1;
    }

    /** SELECT by primary key: fails exactly when no row has the id. */
    method GetByID(id: nat) returns (r: Result<Todo, StoreError>)
      requires Valid()
      ensures r.Err? <==> id !in rows
      ensures r.Ok? ==> r.value == rows[id] && r.value.id == id
      ensures r.Err? ==> r.error == RecordNotFound
    {
      if id in rows {
        r := Ok(rows[id]);
      } else {
        r := Err(RecordNotFound);
      }
    }

    /** Save: writes every field of the given row over the stored row with the
        same id; no other row changes. */
    method Update(t: Todo) returns (err: Option<StoreError>)
      requires Valid() && t.id in rows
      modifies this
      ensures Valid() && nextId == old(nextId)
      ensures FitsTodoColumns(t) ==> err.None? && rows == old(rows)[t.id := t]
      ensures !FitsTodoColumns(t) ==> err == Some(ValueTooLong) && rows == old(rows)
    {
      if !FitsTodoColumns(t) {
        return Some(ValueTooLong);
      }
      rows := rows[t.id := t];
      err := None;
    }

    /** DELETE by primary key: removes that row, if any, and no other. */
    method Delete(id: nat) returns (err: Option<StoreError>)
      requires Valid()
      modifies this
      ensures Valid() && nextId == old(nextId)
      ensures err.None? && rows == old(rows) - {id}
    {
      rows := rows - {id};
      err := None;
    }

    /** The list query. sorted lists the table's ids in the order the database
        returns rows for the filter's ORDER BY clause. The total counts every
        matching row before OFFSET and LIMIT apply. */
    method GetAll(f: TodoFilter, sorted: seq<nat>) returns (todos: seq<Todo>, total: nat)
      requires Valid()
      requires IsListing(sorted, rows)
      requires SortedAs(sorted, FilterOrder(f))
      ensures total == |Selected(rows, sorted, f)|
      ensures todos == Window(Selected(rows, sorted, f), f.page, f.limit)
    {
      var where := WhereClause(f);
      var matching: seq<Todo> := [];
      var i := 0;
      while i < |sorted|
        invariant 0 <= i <= |sorted|
        invariant matching == Selected(rows, sorted[..i], f)
      {
        assert sorted[..i + 1][..i] == sorted[..i];
        var t := rows[sorted[i]];
        if HoldsAll(where, t) {
          matching := matching + [t];
        }
        i := i + 1;
      }
      assert sorted[..i] == sorted;
      total := |matching|;
      todos := matching;
      if f.limit > 0 {
        var offset := PageOffset(f.page, f.limit);
        todos := if offset >= |matching| then [] else matching[offset..Min(offset + f.limit, |matching|)];
      }
    }
  }

  // ---------------------------------------------------------------------
  // Properties of the list query
  // ---------------------------------------------------------------------

  /** Only matching rows of the table are selected. */
  lemma {:induction false} SelectedOnlyMatches(rows: map<nat, Todo>, order: seq<nat>, f: TodoFilter, k: nat)
    requires forall i :: 0 <= i < |order| ==> order[i] in rows
    requires k < |Selected(rows, order, f)|
    ensures Matches(f, Selected(rows, order, f)[k])
    ensures exists i :: 0 <= i < |order| && Selected(rows, order, f)[k] == rows[order[i]]
  {
    var init := order[..|order| - 1];
    var rest := Selected(rows, init, f);
    if k < |rest| {
      SelectedOnlyMatches(rows, init, f, k);
      var i :| 0 <= i < |init| && rest[k] == rows[init[i]];
      assert order[i] == init[i];
    } else {
      assert Selected(rows, order, f)[k] == rows[order[|order| - 1]];
    }
  }

  /** Every matching row of the listing is selected. */
  lemma {:induction false} SelectedHasEveryMatch(rows: map<nat, Todo>, order: seq<nat>, f: TodoFilter, i: nat)
    requires forall j :: 0 <= j < |order| ==> order[j] in rows
    requires i < |order| && Matches(f, rows[order[i]])
    ensures rows[order[i]] in Selected(rows, order, f)
  {
    var init := order[..|order| - 1];
    if i < |order| - 1 {
      SelectedHasEveryMatch(rows, init, f, i);
    }
  }

  /** Over a full listing of the table, a row is selected exactly when it is
      in the table and matches every present criterion. */
  lemma SelectedIffMatches(rows: map<nat, Todo>, order: seq<nat>, f: TodoFilter, t: Todo)
    requires IsListing(order, rows)
    ensures t in Selected(rows, order, f) <==> t in rows.Values && Matches(f, t)
  {
    if t in Selected(rows, order, f) {
      var k :| 0 <= k < |Selected(rows, order, f)| && Selected(rows, order, f)[k] == t;
      SelectedOnlyMatches(rows, order, f, k);
    }
    if t in rows.Values && Matches(f, t) {
      var id :| id in rows && rows[id] == t;
      var i :| 0 <= i < |order| && order[i] == id;
      SelectedHasEveryMatch(rows, order, f, i);
    }
  }

  /** The selection reads only the four criteria of the filter, so paging and
      sorting fields do not change which rows match. */
  lemma {:induction false} SelectedReadsOnlyCriteria(rows: map<nat, Todo>, order: seq<nat>, f: TodoFilter, g: TodoFilter)
    requires forall i :: 0 <= i < |order| ==> order[i] in rows
    requires SameCriteria(f, g)
    ensures Selected(rows, order, f) == Selected(rows, order, g)
  {
    if order != [] {
      SelectedReadsOnlyCriteria(rows, order[..|order| - 1], f, g);
    }
  }

  /** The selection keeps the listing's order: when the listing is newest
      first, so is every selection from it. */
  lemma {:induction false} SelectedKeepsDescendingIds(rows: map<nat, Todo>, order: seq<nat>, f: TodoFilter)
    requires forall i :: 0 <= i < |order| ==> order[i] in rows && rows[order[i]].id == order[i]
    requires forall i, j :: 0 <= i < j < |order| ==> order[i] > order[j]
    ensures forall i, j :: 0 <= i < j < |Selected(rows, order, f)| ==>
      Selected(rows, order, f)[i].id > Selected(rows, order, f)[j].id
    ensures forall k :: 0 <= k < |Selected(rows, order, f)| ==>
      Selected(rows, order, f)[k].id in order
  {
    if order != [] {
      var init := order[..|order| - 1];
      var last := order[|order| - 1];
      SelectedKeepsDescendingIds(rows, init, f);
      var rest := Selected(rows, init, f);
      forall k | 0 <= k < |rest| ensures rest[k].id > last {
        var i :| 0 <= i < |init| && init[i] == rest[k].id;
        assert order[i] == init[i];
      }
    }
  }

  /** The ids among ids whose rows match the filter. */
  function MatchingIds(rows: map<nat, Todo>, ids: set<nat>, f: TodoFilter): set<nat> {
    set id | id in ids && id in rows && Matches(f, rows[id])
  }

  /** Over a list of distinct ids, the selection has one row per matching id. */
  lemma {:induction false} SelectedCountsMatchingIds(rows: map<nat, Todo>, order: seq<nat>, f: TodoFilter)
    requires forall i :: 0 <= i < |order| ==> order[i] in rows
    requires Distinct(order)
    ensures |Selected(rows, order, f)| == |MatchingIds(rows, Elements(order), f)|
  {
    if order == [] {
      assert Elements(order) == {};
      assert MatchingIds(rows, Elements(order), f) == {};
    } else {
      var init := order[..|order| - 1];
      var last := order[|order| - 1];
      assert order == init + [last];
      assert Distinct(init);
      SelectedCountsMatchingIds(rows, init, f);
      forall j | 0 <= j < |init| ensures init[j] != last {
        assert order[j] != order[|order| - 1];
      }
      assert Elements(order) == Elements(init) + {last};
      var before := MatchingIds(rows, Elements(init), f);
      assert last !in before;
      if Matches(f, rows[last]) {
        assert MatchingIds(rows, Elements(order), f) == before + {last};
      } else {
        assert MatchingIds(rows, Elements(order), f) == before;
      }
    }
  }

  /** The total is the number of rows of the table that match the filter: each
      matching row is counted exactly once. */
  lemma SelectedCountsMatches(rows: map<nat, Todo>, order: seq<nat>, f: TodoFilter)
    requires IsListing(order, rows)
    ensures |Selected(rows, order, f)| == |set id | id in rows && Matches(f, rows[id])|
  {
    SelectedCountsMatchingIds(rows, order, f);
    assert MatchingIds(rows, Elements(order), f) == set id | id in rows && Matches(f, rows[id]);
  }

  /** With no criterion set, the total is the number of rows in the table. */
  lemma UnfilteredTotalIsTableSize(rows: map<nat, Todo>, order: seq<nat>, f: TodoFilter)
    requires IsListing(order, rows)
    requires f.search == "" && f.categoryId.None? && f.completed.None? && f.priority == ""
    ensures |Selected(rows, order, f)| == |rows|
  {
    SelectedCountsMatches(rows, order, f);
    assert (set id | id in rows && Matches(f, rows[id])) == rows.Keys;
  }

  // ---------------------------------------------------------------------
  // Pages
  // ---------------------------------------------------------------------

  lemma MulMonotone(a: int, b: int, c: int)
    requires a <= b && c >= 0
    ensures a * c <= b * c
  {
  }

  /** The pages of a result partition it: the k-th matching row is on page
      k / limit + 1, at position k % limit. */
  lemma PagesPartition<T>(rows: seq<T>, limit: int, k: nat)
    requires limit > 0 && k < |rows|
    ensures var page := k / limit + 1;
      k % limit < |Window(rows, page, limit)| && Window(rows, page, limit)[k % limit] == rows[k]
  {
    var page := k / limit + 1;
    assert (page - 1) * limit + k % limit == k;
    assert PageOffset(page, limit) == (page - 1) * limit;
  }

  // ---------------------------------------------------------------------
  // The offset as written: Go's int is 64 bits wide
  // ---------------------------------------------------------------------

  const TwoTo64: int := 0x1_0000_0000_0000_0000

  /** Two's-complement wrap-around of a 64-bit signed integer. */
  function WrapInt64(x: int): (r: int)
    ensures MinInt64 <= r <= MaxInt64
    ensures MinInt64 <= x <= MaxInt64 ==> r == x
  {
    (x - MinInt64) % TwoTo64 + MinInt64
  }

  /** The offset of backend/internal/repository/todo.go:71: page minus one,
      times the limit, each step evaluated in Go's 64-bit int. */
  function AsWrittenOffset(page: int, limit: int): (off: int)
    ensures MinInt64 <= off <= MaxInt64
  {
    WrapInt64(WrapInt64(page - 1) * limit)
  }

  /** OFFSET / LIMIT with the wrapped offset; as in Window, an offset that is
      not positive is left out. */
  function AsWrittenWindow<T>(rows: seq<T>, page: int, limit: int): (w: seq<T>)
    ensures limit <= 0 ==> w == rows
    ensures limit > 0 ==> |w| <= limit && |w| <= |rows|
  {
    if limit <= 0 then rows
    else
      var off := AsWrittenOffset(page, limit);
      var start := if off > 0 then off else 0;
      if start >= |rows| then [] else rows[start..Min(start + limit, |rows|)]
  }

  /** Within the int64 range the two offsets agree. */
  lemma AsWrittenOffsetAgreesInRange(page: int, limit: int)
    requires 1 <= page <= MaxInt64 && 0 < limit && (page - 1) * limit <= MaxInt64
    ensures AsWrittenOffset(page, limit) == PageOffset(page, limit)
  {
    assert WrapInt64(page - 1) == page - 1;
    MulMonotone(0, page - 1, limit);
  }

  /** Page 2^62 + 1 with limit 4 is accepted by Atoi and left alone by the
      service, but (page - 1) * 4 = 2^64 wraps to 0: the query returns the
      first rows instead of nothing. */
  lemma AsWrittenOffsetWrapsToFirstPage<T>(rows: seq<T>)
    requires 0 < |rows| < TwoTo64
    ensures var page := 0x4000_0000_0000_0001;
      && page <= MaxInt64
      && AsWrittenOffset(page, 4) == 0
      && AsWrittenWindow(rows, page, 4) == rows[..Min(4, |rows|)] != []
      && Window(rows, page, 4) == []
  {
    var page := 0x4000_0000_0000_0001;
    assert WrapInt64(page - 1) == page - 1;
    assert (page - 1) * 4 == TwoTo64;
    assert WrapInt64(TwoTo64) == 0;
    assert PageOffset(page, 4) == TwoTo64;
  }
}
