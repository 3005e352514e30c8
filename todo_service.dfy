/** The todo service: validation, the priority default, paging normalisation,
    the partial-update merge, the completion toggle, and the translation of
    failed lookups into "todo not found", over the todos table. */
module TodoServices {
  import opened Wrappers
  import opened Store
  import opened TodoModels
  import opened TodoRepository

  datatype TodoError =
    | TodoNotFound
    | TodoTitleRequired
    | InvalidPriority
    | Storage(cause: StoreError)   // a repository failure, passed on unchanged

  /** The text a handler shows for an error. */
  function ErrorMessage(e: TodoError): (m: string)
    ensures m != ""
  {
    match e
    case TodoNotFound => "todo not found"
    case TodoTitleRequired => "todo title is required"
    case InvalidPriority => "invalid priority value"
    case Storage(cause) => StoreErrorMessage(cause)
  }

  /** Different errors have different texts, so the text identifies the error. */
  lemma ErrorMessagesIdentifyErrors(e1: TodoError, e2: TodoError)
    ensures ErrorMessage(e1) == ErrorMessage(e2) ==> e1 == e2
  {
  }

  /** One of the three enumerated values; every valid priority fits its
      column. */
  predicate IsValidPriority(p: Priority)
    ensures IsValidPriority(p) ==> p != "" && |p| <= PriorityColumnSize
  {
    p == PriorityHigh || p == PriorityMedium || p == PriorityLow
  }

  lemma ValidPrioritiesAreTheEnumeration(p: Priority)
    ensures IsValidPriority(p) <==> p in Priorities
  {
  }

  /** What the service keeps true of every todo it stores: a non-empty title
      and one of the three priorities. */
  predicate WellFormed(t: Todo) {
    t.title != "" && IsValidPriority(t.priority)
  }

  predicate AllWellFormed(rows: map<nat, Todo>) {
    forall id :: id in rows ==> WellFormed(rows[id])
  }

  // ---------------------------------------------------------------------
  // Create
  // ---------------------------------------------------------------------

  /** The first rule a create request breaks, in the order the service checks
      them: the title first, then the priority. */
  function CreateRejection(req: CreateTodoRequest): (e: Option<TodoError>)
    ensures e == Some(TodoTitleRequired) <==> req.title == ""
    ensures e == Some(InvalidPriority) <==> req.title != "" && req.priority != "" && !IsValidPriority(req.priority)
    ensures e.None? <==> req.title != "" && (req.priority == "" || IsValidPriority(req.priority))
  {
    if req.title == "" then Some(TodoTitleRequired)
    else if req.priority != "" && !IsValidPriority(req.priority) then Some(InvalidPriority)
    else None
  }

  /** The row the service asks the table to insert for an accepted request,
      before the table assigns its id. */
  function NewTodo(req: CreateTodoRequest): (t: Todo)
    ensures t.title == req.title && t.description == req.description
    ensures t.dueDate == req.dueDate && t.categoryId == req.categoryId
    ensures t.completed == DefaultCompleted
    ensures req.priority == "" ==> t.priority == PriorityMedium
    ensures req.priority != "" ==> t.priority == req.priority
    ensures CreateRejection(req).None? ==> WellFormed(t) && WithTodoColumnDefaults(t) == t
    ensures CreateRejection(req).None? && CreateTodoRequestBinds(req) ==> FitsTodoColumns(t)
  {
    Todo(0, req.title, req.description, false,
         if req.priority == "" then PriorityMedium else req.priority,
         req.dueDate, req.categoryId)
  }

  // ---------------------------------------------------------------------
  // Update and ToggleComplete
  // ---------------------------------------------------------------------

  /** The partial-update merge. An empty string field and a None field keep the
      stored value; a present completed flag is written even when false; a
      present priority must be one of the three. */
  function MergeUpdate(t: Todo, req: UpdateTodoRequest): (r: Result<Todo, TodoError>)
    ensures r.Err? <==> req.priority != "" && !IsValidPriority(req.priority)
    ensures r.Err? ==> r.error == InvalidPriority
    ensures r.Ok? ==> r.value.id == t.id
    ensures r.Ok? ==> r.value.title == (if req.title == "" then t.title else req.title)
    ensures r.Ok? ==> r.value.description == (if req.description == "" then t.description else req.description)
    ensures r.Ok? ==> r.value.completed == req.completed.GetOr(t.completed)
    ensures r.Ok? ==> r.value.priority == (if req.priority == "" then t.priority else req.priority)
    ensures r.Ok? ==> r.value.dueDate == (if req.dueDate.None? then t.dueDate else req.dueDate)
    ensures r.Ok? ==> r.value.categoryId == (if req.categoryId.None? then t.categoryId else req.categoryId)
  {
    if req.priority != "" && !IsValidPriority(req.priority) then Err(InvalidPriority)
    else
      Ok(Todo(t.id,
              if req.title != "" then req.title else t.title,
              if req.description != "" then req.description else t.description,
              if req.completed.Some? then req.completed.value else t.completed,
              if req.priority != "" then req.priority else t.priority,
              if req.dueDate.Some? then req.dueDate else t.dueDate,
              if req.categoryId.Some? then req.categoryId else t.categoryId))
  }

  /** What Update returns for a stored todo: the merged row when it fits its
      columns, the merge's error, or the storage error the save reports. */
  function UpdateOutcome(t: Todo, req: UpdateTodoRequest): (r: Result<Todo, TodoError>)
    ensures r.Ok? <==> MergeUpdate(t, req).Ok? && FitsTodoColumns(MergeUpdate(t, req).value)
    ensures r.Ok? ==> r == MergeUpdate(t, req)
    ensures r.Err? ==> r.error == InvalidPriority || r.error == Storage(ValueTooLong)
  {
    match MergeUpdate(t, req)
    case Err(e) => Err(e)
    case Ok(merged) => if FitsTodoColumns(merged) then Ok(merged) else Err(Storage(ValueTooLong))
  }

  const EmptyUpdate := UpdateTodoRequest("", "", None, "", None, None)

  /** A request with every field absent changes nothing. */
  lemma EmptyUpdateChangesNothing(t: Todo)
    ensures MergeUpdate(t, EmptyUpdate) == Ok(t)
  {
  }

  /** Applying the same update twice is the same as applying it once. */
  lemma MergeIsIdempotent(t: Todo, req: UpdateTodoRequest)
    requires MergeUpdate(t, req).Ok?
    ensures MergeUpdate(MergeUpdate(t, req).value, req) == MergeUpdate(t, req)
  {
  }

  /** The merge keeps the service's invariant, and with a request that passed
      binding it keeps a row that fits its columns fitting them. */
  lemma MergeKeepsInvariants(t: Todo, req: UpdateTodoRequest)
    requires MergeUpdate(t, req).Ok?
    ensures WellFormed(t) ==> WellFormed(MergeUpdate(t, req).value)
    ensures WellFormed(t) && FitsTodoColumns(t) && UpdateTodoRequestBinds(req) ==>
      FitsTodoColumns(MergeUpdate(t, req).value)
  {
  }

  function Toggled(t: Todo): (r: Todo)
    ensures r.completed == !t.completed
    ensures r.(completed := t.completed) == t
    ensures WellFormed(t) ==> WellFormed(r)
    ensures FitsTodoColumns(t) ==> FitsTodoColumns(r)
  {
    t.(completed := !t.completed)
  }

  /** Toggling twice restores the todo. */
  lemma ToggleTwiceRestores(t: Todo)
    ensures Toggled(Toggled(t)) == t
  {
  }

  // ---------------------------------------------------------------------
  // GetAll
  // ---------------------------------------------------------------------

  const DefaultPage := 1
  const DefaultLimit := 10
  const MaxLimit := 100

  /** The page the service uses: 0 or less becomes 1. */
  function EffectivePage(page: int): (p: int)
    ensures p >= 1
    ensures page >= 1 ==> p == page
    ensures page < 1 ==> p == DefaultPage
  {
    if page <= 0 then DefaultPage else page
  }

  /** The page size the service uses: 0 or less becomes 10, above 100 becomes 100. */
  function EffectiveLimit(limit: int): (l: int)
    ensures 1 <= l <= MaxLimit
    ensures 1 <= limit <= MaxLimit ==> l == limit
    ensures limit < 1 ==> l == DefaultLimit
    ensures limit > MaxLimit ==> l == MaxLimit
  {
    if limit <= 0 then DefaultLimit else if limit > MaxLimit then MaxLimit else limit
  }

  /** The number of pages: the least n with n * limit >= total. */
  function CeilDiv(total: nat, limit: int): (n: nat)
    requires limit > 0
    ensures n * limit >= total
    ensures n == 0 || (n - 1) * limit < total
    ensures n == 0 <==> total == 0
  {
    if total % limit == 0 then total / limit else total / limit + 1
  }

  /** A page of a result is non-empty exactly when its number is between 1
      and the total page count. */
  lemma NonEmptyPagesAreCounted<T>(rows: seq<T>, page: int, limit: int)
    requires page >= 1 && limit > 0
    ensures Window(rows, page, limit) != [] <==> page <= CeilDiv(|rows|, limit)
  {
    var n := CeilDiv(|rows|, limit);
    if page <= n {
      MulMonotone(page - 1, n - 1, limit);
    } else {
      MulMonotone(n, page - 1, limit);
    }
  }

  /** The response GetAll promises for a filter: the page of matching rows at
      the effective page and page size, and the pagination figures. */
  function ListPage(rows: map<nat, Todo>, sorted: seq<nat>, f: TodoFilter): (p: PaginatedResponse)
    requires forall i :: 0 <= i < |sorted| ==> sorted[i] in rows
    ensures p.pagination.currentPage == EffectivePage(f.page)
    ensures p.pagination.perPage == EffectiveLimit(f.limit)
    ensures p.pagination.total == |Selected(rows, sorted, f)|
    ensures p.pagination.totalPages == CeilDiv(p.pagination.total, p.pagination.perPage)
    ensures p.pagination.totalPages * p.pagination.perPage >= p.pagination.total
    ensures |p.data| <= p.pagination.perPage && |p.data| <= p.pagination.total
    ensures forall k :: 0 <= k < |p.data| ==> Matches(f, p.data[k])
    ensures p.data != [] <==> p.pagination.currentPage <= p.pagination.totalPages
  {
    var page := EffectivePage(f.page);
    var limit := EffectiveLimit(f.limit);
    var matching := Selected(rows, sorted, f);
    var data := Window(matching, page, limit);
    NonEmptyPagesAreCounted(matching, page, limit);
    forall k | 0 <= k < |data| ensures Matches(f, data[k]) {
      SelectedOnlyMatches(rows, sorted, f, PageOffset(page, limit) + k);
    }
    PaginatedResponse(data, Pagination(page, limit, |matching|, CeilDiv(|matching|, limit)))
  }

  // ---------------------------------------------------------------------
  // The service
  // ---------------------------------------------------------------------

  /** The field-by-field merge, performed in place on a copy of the stored
      todo; an invalid non-empty priority stops it. */
  method ApplyUpdate(stored: Todo, req: UpdateTodoRequest) returns (r: Result<Todo, TodoError>)
    ensures r == MergeUpdate(stored, req)
  {
    var todo := stored;
    if req.title != "" {
      todo := todo.(title := req.title);
    }
    if req.description != "" {
      todo := todo.(description := req.description);
    }
    if req.completed.Some? {
      todo := todo.(completed := req.completed.value);
    }
    if req.priority != "" {
      if !IsValidPriority(req.priority) {
        return Err(InvalidPriority);
      }
      todo := todo.(priority := req.priority);
    }
    if req.dueDate.Some? {
      todo := todo.(dueDate := req.dueDate);
    }
    if req.categoryId.Some? {
      todo := todo.(categoryId := req.categoryId);
    }
    r := Ok(todo);
  }

  class TodoService {
    const repo: TodoTable

    constructor (repo: TodoTable)
      ensures this.repo == repo
    {
      this.repo := repo;
    }

    method Create(req: CreateTodoRequest) returns (r: Result<Todo, TodoError>)
      requires repo.Valid()
      modifies repo
      ensures repo.Valid()
      ensures CreateRejection(req).Some? ==> r == Err(CreateRejection(req).value) && unchanged(repo)
      ensures CreateRejection(req).None? ==>
        var row := NewTodo(req).(id := old(repo.nextId));
        if FitsTodoColumns(row) then
          && r == Ok(row) && row.id !in old(repo.rows)
          && repo.rows == old(repo.rows)[row.id := row] && repo.nextId == old(repo.nextId) + 1
        else
          r == Err(Storage(ValueTooLong)) && repo.rows == old(repo.rows) && repo.nextId == old(repo.nextId)
      ensures AllWellFormed(old(repo.rows)) ==> AllWellFormed(repo.rows)
    {
      if req.title == "" {
        return Err(TodoTitleRequired);
      }
      if req.priority != "" && !IsValidPriority(req.priority) {
        return Err(InvalidPriority);
      }
      var todo := Todo(0, req.title, req.description, false, req.priority, req.dueDate, req.categoryId);
      if todo.priority == "" {
        todo := todo.(priority := PriorityMedium);
      }
      assert todo == NewTodo(req) && WithTodoColumnDefaults(todo) == todo;
      var created := repo.Create(todo);
      if created.Err? {
        return Err(Storage(created.error));
      }
      // reload the row under the id the table assigned
      var reloaded := repo.GetByID(created.value);
      match reloaded {
        case Err(e) => r := Err(Storage(e));
        case Ok(t) => r := Ok(t);
      }
    }

    method GetAll(filter: TodoFilter, sorted: seq<nat>) returns (r: Result<PaginatedResponse, TodoError>)
      requires repo.Valid()
      requires IsListing(sorted, repo.rows)
      requires SortedAs(sorted, FilterOrder(filter))
      ensures r == Ok(ListPage(repo.rows, sorted, filter))
    {
      var f := filter;
      if f.page <= 0 {
        f := f.(page := DefaultPage);
      }
      if f.limit <= 0 {
        f := f.(limit := DefaultLimit);
      }
      if f.limit > MaxLimit {
        f := f.(limit := MaxLimit);
      }
      var todos, total := repo.GetAll(f, sorted);
      SelectedReadsOnlyCriteria(repo.rows, sorted, f, filter);
      var totalPages := CeilDiv(total, f.limit);
      r := Ok(PaginatedResponse(todos, Pagination(f.page, f.limit, total, totalPages)));
    }

    method GetByID(id: nat) returns (r: Result<Todo, TodoError>)
      requires repo.Valid()
      ensures id !in repo.rows ==> r == Err(TodoNotFound)
      ensures id in repo.rows ==> r == Ok(repo.rows[id])
    {
      var found := repo.GetByID(id);
      if found.Err? {
        return Err(TodoNotFound);
      }
      r := Ok(found.value);
    }

    method Update(id: nat, req: UpdateTodoRequest) returns (r: Result<Todo, TodoError>)
      requires repo.Valid()
      modifies repo
      ensures repo.Valid() && repo.nextId == old(repo.nextId)
      ensures id !in old(repo.rows) ==> r == Err(TodoNotFound) && unchanged(repo)
      ensures id in old(repo.rows) ==> r == UpdateOutcome(old(repo.rows[id]), req)
      ensures id in old(repo.rows) && r.Ok? ==> repo.rows == old(repo.rows)[id := r.value]
      ensures r.Err? ==> repo.rows == old(repo.rows)
      ensures AllWellFormed(old(repo.rows)) ==> AllWellFormed(repo.rows)
    {
      var found := repo.GetByID(id);
      if found.Err? {
        return Err(TodoNotFound);
      }
      var merged := ApplyUpdate(found.value, req);
      if merged.Err? {
        return Err(merged.error);
      }
      var todo := merged.value;
      MergeKeepsInvariants(found.value, req);
      var err := repo.Update(todo);
      if err.Some? {
        return Err(Storage(err.value));
      }
      // reload the saved row
      var reloaded := repo.GetByID(todo.id);
      match reloaded {
        case Err(e) => r := Err(Storage(e));
        case Ok(t) => r := Ok(t);
      }
    }

    method Delete(id: nat) returns (err: Option<TodoError>)
      requires repo.Valid()
      modifies repo
      ensures repo.Valid() && repo.nextId == old(repo.nextId)
      ensures id !in old(repo.rows) ==> err == Some(TodoNotFound) && unchanged(repo)
      ensures id in old(repo.rows) ==> err.None? && repo.rows == old(repo.rows) - {id}
      ensures AllWellFormed(old(repo.rows)) ==> AllWellFormed(repo.rows)
    {
      var found := repo.GetByID(id);
      if found.Err? {
        return Some(TodoNotFound);
      }
      var deleted := repo.Delete(id);
      match deleted {
        case Some(e) => err := Some(Storage(e));
        case None => err := None;
      }
    }

    method ToggleComplete(id: nat) returns (r: Result<Todo, TodoError>)
      requires repo.Valid()
      modifies repo
      ensures repo.Valid() && repo.nextId == old(repo.nextId)
      ensures id !in old(repo.rows) ==> r == Err(TodoNotFound) && unchanged(repo)
      ensures id in old(repo.rows) ==>
        r == Ok(Toggled(old(repo.rows[id]))) && repo.rows == old(repo.rows)[id := Toggled(old(repo.rows[id]))]
      ensures AllWellFormed(old(repo.rows)) ==> AllWellFormed(repo.rows)
    {
      var found := repo.GetByID(id);
      if found.Err? {
        return Err(TodoNotFound);
      }
      var todo := found.value;
      todo := todo.(completed := !todo.completed);
      var saved := repo.Update(todo);
      match saved {
        case Some(e) => r := Err(Storage(e));
        case None => r := Ok(todo);
      }
    }
  }
}
