/** The todo records of the backend's model package: the priority strings, the
    stored row with its column widths and defaults, the two request bodies with
    their binding rules, the list filter and the pagination envelope. */
module TodoModels {
  import opened Wrappers

  /** Priority is a string type: a request may carry any string in it. */
  type Priority = string

  const PriorityHigh: Priority := "high"
  const PriorityMedium: Priority := "medium"
  const PriorityLow: Priority := "low"

  /** The three priorities the enumeration declares. */
  const Priorities: set<Priority> := {PriorityHigh, PriorityMedium, PriorityLow}

  /** A point in time; only its identity matters here. */
  type Timestamp = int

  /** Column widths and defaults of the todos table. */
  const TitleColumnSize := 255
  const PriorityColumnSize := 20
  const DefaultCompleted := false
  const DefaultPriority := PriorityMedium

  /** A stored todo. dueDate and categoryId are nullable columns. The eager-loaded
      category and the two timestamps are not part of this model. */
  datatype Todo = Todo(
    id: nat,
    title: string,
    description: string,
    completed: bool,
    priority: Priority,
    dueDate: Option<Timestamp>,
    categoryId: Option<nat>)

  /** Body of POST /todos. There is no completed field: a new todo is never done. */
  datatype CreateTodoRequest = CreateTodoRequest(
    title: string,
    description: string,
    priority: Priority,
    dueDate: Option<Timestamp>,
    categoryId: Option<nat>)

  /** Body of PUT /todos/:id. An empty string means "absent" for the string
      fields; completed, dueDate and categoryId are absent exactly when None. */
  datatype UpdateTodoRequest = UpdateTodoRequest(
    title: string,
    description: string,
    completed: Option<bool>,
    priority: Priority,
    dueDate: Option<Timestamp>,
    categoryId: Option<nat>)

  /** The list query. An empty search or priority, and a None category or
      completed flag, mean "no constraint". */
  datatype TodoFilter = TodoFilter(
    search: string,
    categoryId: Option<nat>,
    completed: Option<bool>,
    priority: Priority,
    page: int,
    limit: int,
    sortBy: string,
    sortOrder: string)

  datatype Pagination = Pagination(currentPage: int, perPage: int, total: nat, totalPages: int)

  datatype PaginatedResponse = PaginatedResponse(data: seq<Todo>, pagination: Pagination)

  /** The binder accepts a create request only when its title has 1 to 255
      characters (backend/internal/models/todo.go:29); no other field is
      checked. Such a title always fits its column. */
  predicate CreateTodoRequestBinds(req: CreateTodoRequest)
    ensures CreateTodoRequestBinds(req) ==>
      && req.title != ""
      && FitsTodoColumns(Todo(0, req.title, req.description, DefaultCompleted, DefaultPriority, req.dueDate, req.categoryId))
  {
    1 <= |req.title| <= TitleColumnSize
  }

  /** The update rule is the create rule made optional: an omitted (empty)
      title is accepted, any other must have 1 to 255 characters
      (backend/internal/models/todo.go:37). */
  predicate UpdateTodoRequestBinds(req: UpdateTodoRequest)
    ensures UpdateTodoRequestBinds(req) <==>
      req.title == "" || CreateTodoRequestBinds(CreateTodoRequest(req.title, req.description, req.priority, req.dueDate, req.categoryId))
  {
    req.title == "" || 1 <= |req.title| <= TitleColumnSize
  }

  /** The row fits the 255-character title and 20-character priority columns.
      A Go string is never NULL, so the non-null title constraint always holds;
      the description is unbounded text. */
  predicate FitsTodoColumns(t: Todo) {
    |t.title| <= TitleColumnSize && |t.priority| <= PriorityColumnSize
  }

  /** The column defaults an insert applies to zero-valued fields: an empty
      priority becomes 'medium'; a false completed flag stays false. */
  function WithTodoColumnDefaults(t: Todo): (r: Todo)
    ensures r.priority != ""
    ensures t.priority != "" ==> r == t
    ensures t.priority == "" ==> r == t.(priority := DefaultPriority)
    ensures r.completed == t.completed
  {
    if t.priority == "" then t.(priority := DefaultPriority) else t
  }

  /** The enumeration has exactly three members. */
  lemma PrioritiesHaveThreeMembers()
    ensures |Priorities| == 3
  {
    assert PriorityHigh[0] != PriorityMedium[0] && PriorityHigh[0] != PriorityLow[0];
    assert PriorityMedium[0] != PriorityLow[0];
    assert PriorityHigh != PriorityMedium && PriorityHigh != PriorityLow && PriorityMedium != PriorityLow;
  }
}
