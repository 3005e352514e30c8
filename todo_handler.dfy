/** The HTTP handlers for todos: how a request's path, query string and JSON
    body become a call into the todo service, and how the outcome becomes a
    status code and a response body. */
module TodoHandlers {
  import opened Wrappers
  import opened Text
  import opened TodoModels
  import opened TodoRepository
  import opened TodoServices

  const StatusOK := 200
  const StatusCreated := 201
  const StatusBadRequest := 400
  const StatusNotFound := 404
  const StatusInternalServerError := 500

  const InvalidTodoID := "invalid todo ID"
  const TodoDeleted := "todo deleted successfully"

  /** The JSON a handler writes: a todo, a page of todos, {"error": ...}, the
      binder's own validation error (its text is not modelled), or
      {"message": ...}. */
  datatype Body =
    | TodoBody(todo: Todo)
    | PageBody(page: PaginatedResponse)
    | ErrorBody(error: string)
    | BindingErrorBody
    | MessageBody(message: string)

  datatype Response = Response(status: int, body: Body)

  /** A query string, one value per key. */
  type Query = map<string, string>

  /** A query parameter as gin reads it: the value of the key, or "" when the
      key is absent. */
  function QueryValue(q: Query, key: string): (v: string)
    ensures key in q ==> v == q[key]
    ensures key !in q ==> v == ""
  {
    if key in q then q[key] else ""
  }

  /** The filter the list handler builds from a query string: page and limit
      are Atoi-parsed (0 when absent or malformed), category_id is a 32-bit
      unsigned number (no filter when absent or malformed), completed is
      present-and-"true", and the text parameters are passed verbatim. */
  function FilterOf(q: Query): (f: TodoFilter)
    ensures ParseInt(QueryValue(q, "page")).None? ==> f.page == 0
    ensures ParseInt(QueryValue(q, "page")).Some? ==> f.page == ParseInt(QueryValue(q, "page")).value
    ensures ParseInt(QueryValue(q, "limit")).None? ==> f.limit == 0
    ensures ParseInt(QueryValue(q, "limit")).Some? ==> f.limit == ParseInt(QueryValue(q, "limit")).value
    ensures f.categoryId == ParseUint32(QueryValue(q, "category_id"))
    ensures f.completed.None? <==> QueryValue(q, "completed") == ""
    ensures f.completed.Some? ==> (f.completed.value <==> QueryValue(q, "completed") == "true")
    ensures f.search == QueryValue(q, "search") && f.priority == QueryValue(q, "priority")
    ensures f.sortBy == QueryValue(q, "sort_by") && f.sortOrder == QueryValue(q, "sort_order")
  {
    var completed := QueryValue(q, "completed");
    TodoFilter(
      QueryValue(q, "search"),
      ParseUint32(QueryValue(q, "category_id")),
      if completed == "" then None else Some(completed == "true"),
      QueryValue(q, "priority"),
      ParseInt(QueryValue(q, "page")).GetOr(0),
      ParseInt(QueryValue(q, "limit")).GetOr(0),
      QueryValue(q, "sort_by"),
      QueryValue(q, "sort_order"))
  }

  /** The query string a client writes for a filter. */
  function QueryOf(f: TodoFilter): Query {
    map[
      "search" := f.search,
      "category_id" := (match f.categoryId case Some(id) => Decimal(id) case None => ""),
      "completed" := (match f.completed case Some(b) => if b then "true" else "false" case None => ""),
      "priority" := f.priority,
      "page" := FormatInt(f.page),
      "limit" := FormatInt(f.limit),
      "sort_by" := f.sortBy,
      "sort_order" := f.sortOrder]
  }

  /** A filter whose numbers fit the types the handler parses them into. */
  predicate Representable(f: TodoFilter) {
    && MinInt64 <= f.page <= MaxInt64
    && MinInt64 <= f.limit <= MaxInt64
    && (f.categoryId.Some? ==> f.categoryId.value <= MaxUint32)
  }

  /** Every representable filter survives the trip through a query string. */
  lemma FilterOfQueryOf(f: TodoFilter)
    requires Representable(f)
    ensures FilterOf(QueryOf(f)) == f
  {
    var q := QueryOf(f);
    ParseIntOfFormatInt(f.page);
    ParseIntOfFormatInt(f.limit);
    assert QueryValue(q, "page") == FormatInt(f.page);
    assert QueryValue(q, "limit") == FormatInt(f.limit);
    match f.categoryId {
      case Some(id) =>
        ParseUint32OfDecimal(id);
        assert QueryValue(q, "category_id") == Decimal(id);
      case None =>
        assert QueryValue(q, "category_id") == "";
    }
  }

  /** Whatever the query string, the page and page size the service uses are
      in range: a page or limit the handler cannot parse falls back to the
      defaults. */
  lemma ParsedPagingIsNormalised(q: Query)
    ensures EffectivePage(FilterOf(q).page) >= 1
    ensures 1 <= EffectiveLimit(FilterOf(q).limit) <= MaxLimit
    ensures ParseInt(QueryValue(q, "page")).None? ==> EffectivePage(FilterOf(q).page) == DefaultPage
    ensures ParseInt(QueryValue(q, "limit")).None? ==> EffectiveLimit(FilterOf(q).limit) == DefaultLimit
  {
  }

  /** The list handler's filter, filled in field by field from the query
      string. */
  method ParseFilter(query: Query) returns (filter: TodoFilter)
    ensures filter == FilterOf(query)
  {
    filter := TodoFilter(QueryValue(query, "search"), None, None, "", 0, 0,
                         QueryValue(query, "sort_by"), QueryValue(query, "sort_order"));
    var page := QueryValue(query, "page");
    if page != "" {
      var p := ParseInt(page);
      if p.Some? {
        filter := filter.(page := p.value);
      }
    }
    var limit := QueryValue(query, "limit");
    if limit != "" {
      var l := ParseInt(limit);
      if l.Some? {
        filter := filter.(limit := l.value);
      }
    }
    var categoryId := QueryValue(query, "category_id");
    if categoryId != "" {
      var id := ParseUint32(categoryId);
      if id.Some? {
        filter := filter.(categoryId := Some(id.value));
      }
    }
    var completed := QueryValue(query, "completed");
    if completed != "" {
      filter := filter.(completed := Some(completed == "true"));
    }
    var priority := QueryValue(query, "priority");
    if priority != "" {
      filter := filter.(priority := priority);
    }
  }

  class TodoHandler {
    const service: TodoService

    constructor (service: TodoService)
      ensures this.service == service
    {
      this.service := service;
    }

    /** POST /todos. body is None when the JSON does not decode. */
    method Create(body: Option<CreateTodoRequest>) returns (resp: Response)
      requires service.repo.Valid()
      modifies service.repo
      ensures service.repo.Valid()
      ensures body.None? || !CreateTodoRequestBinds(body.value) ==>
        resp == Response(StatusBadRequest, BindingErrorBody) && unchanged(service.repo)
      ensures body.Some? && CreateTodoRequestBinds(body.value) && CreateRejection(body.value).Some? ==>
        resp == Response(StatusBadRequest, ErrorBody(ErrorMessage(CreateRejection(body.value).value)))
        && unchanged(service.repo)
      ensures body.Some? && CreateTodoRequestBinds(body.value) && CreateRejection(body.value).None? ==>
        var row := NewTodo(body.value).(id := old(service.repo.nextId));
        && resp == Response(StatusCreated, TodoBody(row))
        && row.id !in old(service.repo.rows)
        && service.repo.rows == old(service.repo.rows)[row.id := row]
        && service.repo.nextId == old(service.repo.nextId) + 1
      ensures resp.status == StatusCreated <==>
        body.Some? && CreateTodoRequestBinds(body.value) && CreateRejection(body.value).None?
    {
      if body.None? || !CreateTodoRequestBinds(body.value) {
        return Response(StatusBadRequest, BindingErrorBody);
      }
      var req := body.value;
      assert CreateRejection(req).None? ==> FitsTodoColumns(NewTodo(req).(id := service.repo.nextId));
      var created := service.Create(req);
      match created {
        case Err(e) => resp := Response(StatusBadRequest, ErrorBody(ErrorMessage(e)));
        case Ok(todo) => resp := Response(StatusCreated, TodoBody(todo));
      }
    }

    /** GET /todos. sorted lists the table's ids in the order the database
        returns them for the filter's sort. */
    method GetAll(query: Query, sorted: seq<nat>) returns (resp: Response)
      requires service.repo.Valid()
      requires Store.IsListing(sorted, service.repo.rows)
      requires SortedAs(sorted, FilterOrder(FilterOf(query)))
      ensures resp == Response(StatusOK, PageBody(ListPage(service.repo.rows, sorted, FilterOf(query))))
    {
      var filter := ParseFilter(query);
      var response := service.GetAll(filter, sorted);
      match response {
        case Err(e) => resp := Response(StatusInternalServerError, ErrorBody(ErrorMessage(e)));
        case Ok(p) => resp := Response(StatusOK, PageBody(p));
      }
    }

    /** GET /todos/:id. */
    method GetByID(rawId: string) returns (resp: Response)
      requires service.repo.Valid()
      ensures ParseUint32(rawId).None? ==> resp == Response(StatusBadRequest, ErrorBody(InvalidTodoID))
      ensures ParseUint32(rawId).Some? && ParseUint32(rawId).value !in service.repo.rows ==>
        resp == Response(StatusNotFound, ErrorBody(ErrorMessage(TodoNotFound)))
      ensures ParseUint32(rawId).Some? && ParseUint32(rawId).value in service.repo.rows ==>
        resp == Response(StatusOK, TodoBody(service.repo.rows[ParseUint32(rawId).value]))
    {
      var id := ParseUint32(rawId);
      if id.None? {
        return Response(StatusBadRequest, ErrorBody(InvalidTodoID));
      }
      var found := service.GetByID(id.value);
      match found {
        case Err(e) => resp := Response(StatusNotFound, ErrorBody(ErrorMessage(e)));
        case Ok(todo) => resp := Response(StatusOK, TodoBody(todo));
      }
    }

    /** PUT /todos/:id. Every service failure, an invalid priority and a
        storage failure included, is answered with 404. */
    method Update(rawId: string, body: Option<UpdateTodoRequest>) returns (resp: Response)
      requires service.repo.Valid()
      modifies service.repo
      ensures service.repo.Valid() && service.repo.nextId == old(service.repo.nextId)
      ensures ParseUint32(rawId).None? ==>
        resp == Response(StatusBadRequest, ErrorBody(InvalidTodoID)) && unchanged(service.repo)
      ensures ParseUint32(rawId).Some? && (body.None? || !UpdateTodoRequestBinds(body.value)) ==>
        resp == Response(StatusBadRequest, BindingErrorBody) && unchanged(service.repo)
      ensures ParseUint32(rawId).Some? && body.Some? && UpdateTodoRequestBinds(body.value) ==>
        var id := ParseUint32(rawId).value;
        if id !in old(service.repo.rows) then
          resp == Response(StatusNotFound, ErrorBody(ErrorMessage(TodoNotFound))) && unchanged(service.repo)
        else
          match UpdateOutcome(old(service.repo.rows[id]), body.value)
          case Ok(t) => resp == Response(StatusOK, TodoBody(t)) && service.repo.rows == old(service.repo.rows)[id := t]
          case Err(e) => resp == Response(StatusNotFound, ErrorBody(ErrorMessage(e))) && service.repo.rows == old(service.repo.rows)
    {
      var id := ParseUint32(rawId);
      if id.None? {
        return Response(StatusBadRequest, ErrorBody(InvalidTodoID));
      }
      if body.None? || !UpdateTodoRequestBinds(body.value) {
        return Response(StatusBadRequest, BindingErrorBody);
      }
      var updated := service.Update(id.value, body.value);
      match updated {
        case Err(e) => resp := Response(StatusNotFound, ErrorBody(ErrorMessage(e)));
        case Ok(todo) => resp := Response(StatusOK, TodoBody(todo));
      }
    }

    /** DELETE /todos/:id. */
    method Delete(rawId: string) returns (resp: Response)
      requires service.repo.Valid()
      modifies service.repo
      ensures service.repo.Valid() && service.repo.nextId == old(service.repo.nextId)
      ensures ParseUint32(rawId).None? ==>
        resp == Response(StatusBadRequest, ErrorBody(InvalidTodoID)) && unchanged(service.repo)
      ensures ParseUint32(rawId).Some? && ParseUint32(rawId).value !in old(service.repo.rows) ==>
        resp == Response(StatusNotFound, ErrorBody(ErrorMessage(TodoNotFound))) && unchanged(service.repo)
      ensures ParseUint32(rawId).Some? && ParseUint32(rawId).value in old(service.repo.rows) ==>
        resp == Response(StatusOK, MessageBody(TodoDeleted))
        && service.repo.rows == old(service.repo.rows) - {ParseUint32(rawId).value}
    {
      var id := ParseUint32(rawId);
      if id.None? {
        return Response(StatusBadRequest, ErrorBody(InvalidTodoID));
      }
      var err := service.Delete(id.value);
      match err {
        case Some(e) => resp := Response(StatusNotFound, ErrorBody(ErrorMessage(e)));
        case None => resp := Response(StatusOK, MessageBody(TodoDeleted));
      }
    }

    /** PATCH /todos/:id/complete. */
    method ToggleComplete(rawId: string) returns (resp: Response)
      requires service.repo.Valid()
      modifies service.repo
      ensures service.repo.Valid() && service.repo.nextId == old(service.repo.nextId)
      ensures ParseUint32(rawId).None? ==>
        resp == Response(StatusBadRequest, ErrorBody(InvalidTodoID)) && unchanged(service.repo)
      ensures ParseUint32(rawId).Some? && ParseUint32(rawId).value !in old(service.repo.rows) ==>
        resp == Response(StatusNotFound, ErrorBody(ErrorMessage(TodoNotFound))) && unchanged(service.repo)
      ensures ParseUint32(rawId).Some? && ParseUint32(rawId).value in old(service.repo.rows) ==>
        var t := Toggled(old(service.repo.rows[ParseUint32(rawId).value]));
        resp == Response(StatusOK, TodoBody(t)) && service.repo.rows == old(service.repo.rows)[t.id := t]
    {
      var id := ParseUint32(rawId);
      if id.None? {
        return Response(StatusBadRequest, ErrorBody(InvalidTodoID));
      }
      var toggled := service.ToggleComplete(id.value);
      match toggled {
        case Err(e) => resp := Response(StatusNotFound, ErrorBody(ErrorMessage(e)));
        case Ok(todo) => resp := Response(StatusOK, TodoBody(todo));
      }
    }
  }
}
