# Todo backend core, modelled in Dafny

This project models the domain core of a todo-list web backend written in Go
(gin for HTTP, GORM over PostgreSQL). A *todo* has:

- a title and a description;
- a completed flag;
- a priority that is one of `high`, `medium` or `low`;
- an optional due date and an optional category.

A *category* has a name and a display colour. The model covers:

- the records and their column constraints: field widths, defaults, which fields are optional;
- the todo and category tables, as classes that hold a map from id to row and hand out
  fresh ids on insert;
- the todo list query: four conjunctive criteria, counting before paging, OFFSET/LIMIT,
  the default newest-first order;
- the todo and category services: validation, defaults, the partial-update merge, the
  completion toggle, pagination normalisation and total pages, translation of failed
  lookups into "not found";
- the todo HTTP handlers: query string to filter, path id parsing, outcome to status code.

Modules, one per Go file or concern:

| module | file | models |
|---|---|---|
| `Wrappers` | wrappers.dfy | `Option`, `Result` |
| `Text` | text.dfy | `strconv.Atoi`, `strconv.ParseUint(s, 10, 32)`, decimal formatting, the case-insensitive substring test behind `ILIKE '%s%'` |
| `Store` | store.dfy | storage errors; listings (an order over a table's ids) |
| `TodoModels`, `CategoryModels` | todo_models.dfy, category_models.dfy | the records, binding rules, column widths and defaults |
| `TodoRepository` | todo_repository.dfy | the todo table (`TodoTable`), the WHERE clause, ORDER BY, OFFSET/LIMIT |
| `CategoryRepository` | category_repository.dfy | the category table (`CategoryTable`) |
| `TodoServices`, `CategoryServices` | todo_service.dfy, category_service.dfy | the two services |
| `TodoHandlers` | todo_handler.dfy | the todo HTTP handlers |
| `TodoScenarios` | todo_scenarios.dfy | client request sequences with their proved responses |

Modelling choices:

- **The database order is a parameter.** Every list operation takes `sorted`, the table's
  ids in the order the database returns them. The only thing the model knows about it is
  the default order `created_at DESC`. The model assumes that `created_at` strictly
  increases with the id, so that this order is strictly decreasing id (`SortedAs`); see
  "## Left out".
- **Storage errors are column-width violations.** A title over 255 characters, a priority
  or colour over 20, or a name over 100 makes the insert or save fail (`ValueTooLong`).
  This gives the services' "pass the repository error on" paths a real trigger. PostgreSQL
  fails such a value only when its characters past the width are not all spaces; the
  all-spaces case, which the database truncates and stores, is under "## Left out".
- **JSON binding is a parameter.** A request body the binder cannot decode is `None`. The
  binder's field rules (a title of 1 to 255 characters, a category name of 1 to 100, both
  optional on update) are the predicates `*RequestBinds`.
- **Status codes differ between handlers.** Update answers every service failure with 404,
  the invalid-priority validation error included (handlers/todo.go:118-122), while Create
  answers service errors with 400 (handlers/todo.go:28-31). See
  `TodoHandlers.TodoHandler.Update` and `TodoScenarios.RejectedRequests`.

## Model

| member | source | states |
|---|---|---|
| TodoModels.PrioritiesHaveThreeMembers | backend/internal/models/todo.go:7-13 | the priority enumeration has exactly three distinct values: high, medium, low |
| TodoModels.CreateTodoRequestBinds | backend/internal/models/todo.go:29 | the binder accepts a create request only with a title of 1 to 255 characters; such a title is non-empty and fits its column |
| TodoModels.UpdateTodoRequestBinds | backend/internal/models/todo.go:37 | an update title is either omitted or obeys the create rule |
| TodoModels.FitsTodoColumns | backend/internal/models/todo.go:17-20 | a stored title has at most 255 characters and a stored priority at most 20; the description is unbounded |
| TodoModels.WithTodoColumnDefaults | backend/internal/models/todo.go:17-20 | on insert, an empty priority is stored as medium; a given priority and every other field are kept |
| CategoryModels.CreateCategoryRequestBinds | backend/internal/models/category.go:17-18 | the binder accepts a create request only with a name of 1 to 100 characters; with a colour of at most 20 characters the row, after the colour default, fits its columns |
| CategoryModels.UpdateCategoryRequestBinds | backend/internal/models/category.go:22-23 | an update name is either omitted or obeys the create rule; the colour is unconstrained |
| CategoryModels.FitsCategoryColumns | backend/internal/models/category.go:9-10 | a stored name has at most 100 characters and a stored colour at most 20 |
| CategoryModels.WithCategoryColumnDefaults | backend/internal/models/category.go:10 | on insert, an empty colour is stored as #3B82F6; a given colour is kept |
| CategoryModels.BindingAdmitsTooWideColor | backend/internal/models/category.go:16-19 | the colour is not constrained by binding: a request that binds can carry a colour wider than its 20-character column |
| Text.ParseUint32 | backend/internal/handlers/todo.go:89 | a path id parses only as digits worth at most 2^32 - 1 |
| Text.ParseInt | backend/internal/handlers/todo.go:47 | Atoi accepts only values in the int64 range |
| Text.ParseUint32OfDecimal | backend/internal/handlers/todo.go:61 | every 32-bit unsigned id, written in decimal, is accepted and read back unchanged |
| Text.ParseIntOfFormatInt | backend/internal/handlers/todo.go:47 | every int64 written in decimal is accepted by Atoi and read back unchanged |
| Text.ContainsIffOccurs | backend/internal/repository/todo.go:36-37 | the substring scan holds exactly when the pattern occurs at some index |
| Text.ContainsFold | backend/internal/repository/todo.go:36-37 | the search test on one column: the folded pattern occurs in the folded text, which is what a case-insensitive match against the pattern wrapped in wildcards decides |
| Text.ContainsFoldEmpty | backend/internal/repository/todo.go:36 | the pattern built from an empty search matches every string |
| Text.ToLower | backend/internal/repository/todo.go:37 | case folding keeps the length and folds each character on its own |
| TodoRepository.Matches | backend/internal/repository/todo.go:34-53 | a todo matches when every criterion the filter sets holds of it: the search text in the title or the description ignoring case, the category, the completed flag, the priority; a filter that sets none matches every todo |
| TodoRepository.Selected | backend/internal/repository/todo.go:34-56 | the rows of the listing that match the filter, in the listing's order: never more than the listing, and every one a match |
| TodoRepository.WhereClause | backend/internal/repository/todo.go:32-53 | the WHERE clause built step by step holds for a todo exactly when every criterion the filter sets matches it; at most four criteria |
| TodoRepository.OrderClause | backend/internal/repository/todo.go:59-67 | an empty sort column defaults to created_at and an empty direction to DESC, each on its own |
| TodoRepository.PageOffset | backend/internal/repository/todo.go:71 | for a page of 1 or more the offset is (page - 1) * limit |
| TodoRepository.Window | backend/internal/repository/todo.go:69-73 | with a positive limit the result is the rows from the offset on, at most limit of them and exactly min(limit, remaining); past the end it is empty; without a positive limit every row is returned |
| TodoRepository.TodoTable.Create | backend/internal/repository/todo.go:24-26 | the insert applies the column defaults under a fresh id and changes no other row; a value too wide for its column fails and changes nothing |
| TodoRepository.TodoTable.GetByID | backend/internal/repository/todo.go:80-87 | the lookup fails exactly when no row has the id; otherwise it returns that row |
| TodoRepository.TodoTable.Update | backend/internal/repository/todo.go:89-91 | the save replaces the row with the given entity and changes no other row |
| TodoRepository.TodoTable.Delete | backend/internal/repository/todo.go:93-95 | the delete removes only the row with that id |
| TodoRepository.TodoTable.GetAll | backend/internal/repository/todo.go:28-78 | the total counts every row the filter selects, before paging; the rows returned are that page of the selected rows |
| TodoRepository.SelectedIffMatches | backend/internal/repository/todo.go:34-53 | a row is selected exactly when it matches every criterion the filter sets |
| TodoRepository.SelectedOnlyMatches | backend/internal/repository/todo.go:34-53 | every selected row matches the filter and is a row of the table |
| TodoRepository.SelectedHasEveryMatch | backend/internal/repository/todo.go:34-53 | every matching row of the listing is selected |
| TodoRepository.SelectedReadsOnlyCriteria | backend/internal/repository/todo.go:55-56 | the selection, and so the count, depends only on the four criteria, not on the page, limit or sort fields |
| TodoRepository.SortedAs | backend/internal/repository/todo.go:59-67 | what the model knows of the order a listing comes back in: under the default newest-first order the ids strictly decrease; a requested column and direction leave the order to the database |
| TodoRepository.SelectedKeepsDescendingIds | backend/internal/repository/todo.go:59-67 | under the default order the selected rows come newest first |
| TodoRepository.SelectedCountsMatches | backend/internal/repository/todo.go:55-56 | the total counts every row of the table that matches the filter exactly once |
| TodoRepository.SelectedCountsMatchingIds | backend/internal/repository/todo.go:55-56 | over any list of distinct ids, the selection has exactly one row per matching id |
| TodoRepository.UnfilteredTotalIsTableSize | backend/internal/repository/todo.go:55-56 | with no criterion set, the total is the number of rows in the table |
| TodoRepository.PagesPartition | backend/internal/repository/todo.go:69-73 | the k-th selected row is on page k / limit + 1, at position k mod limit |
| TodoRepository.WrapInt64 | backend/internal/repository/todo.go:71 | Go's 64-bit int arithmetic: results lie in the int64 range and are exact within it |
| TodoRepository.AsWrittenOffset | backend/internal/repository/todo.go:71 | the offset as the source computes it, page minus one times the limit in 64-bit arithmetic, always an int64 |
| TodoRepository.AsWrittenWindow | backend/internal/repository/todo.go:69-73 | the page the source returns with that offset: every row without a positive limit, otherwise at most limit rows |
| TodoRepository.AsWrittenOffsetAgreesInRange | backend/internal/repository/todo.go:71 | when (page - 1) * limit fits in int64, the offset as written equals the intended offset |
| TodoRepository.AsWrittenOffsetWrapsToFirstPage | backend/internal/repository/todo.go:71-72 | page 2^62 + 1 with limit 4 wraps the offset to 0, so the as-written query returns the first rows where the intended page is empty |
| TodoServices.ErrorMessage | backend/internal/services/todo.go:11-15 | each service error has its own non-empty text: "todo not found", "todo title is required", "invalid priority value", or the storage error's text |
| TodoServices.ErrorMessagesIdentifyErrors | backend/internal/services/todo.go:11-15 | no two different errors share a text |
| TodoServices.IsValidPriority | backend/internal/services/todo.go:161-163 | a valid priority is non-empty and fits its 20-character column |
| TodoServices.ValidPrioritiesAreTheEnumeration | backend/internal/services/todo.go:161-163 | a priority is valid exactly when it is one of the three enumerated values |
| TodoServices.CreateRejection | backend/internal/services/todo.go:35-41 | an empty title is rejected first; a non-empty priority outside the enumeration is rejected next; nothing else is rejected |
| TodoServices.NewTodo | backend/internal/services/todo.go:43-53 | the new todo copies title, description, due date and category from the request, is not completed, and gets medium when no priority is given; an accepted, binding request gives a todo that fits its columns |
| TodoServices.MergeUpdate | backend/internal/services/todo.go:107-127 | an empty title, description or priority, or an absent completed, due date or category, keeps the stored value; a given value (false included) overwrites it; the id never changes; an invalid non-empty priority is an error |
| TodoServices.ApplyUpdate | backend/internal/services/todo.go:107-127 | the in-place merge of the request into the stored todo computes exactly the merge rule, stopping at an invalid priority |
| TodoServices.UpdateOutcome | backend/internal/services/todo.go:116-134 | an update succeeds exactly when the merge succeeds and the merged row fits its columns, and then yields the merged row |
| TodoServices.EmptyUpdateChangesNothing | backend/internal/services/todo.go:107-127 | an update with every field empty or absent leaves the todo as it was |
| TodoServices.MergeIsIdempotent | backend/internal/services/todo.go:107-127 | applying the same update twice gives the same todo as applying it once |
| TodoServices.MergeKeepsInvariants | backend/internal/services/todo.go:107-127 | the merge keeps a non-empty title and a valid priority; with a binding request it also keeps the row within its columns |
| TodoServices.Toggled | backend/internal/services/todo.go:152 | the toggle negates completed and changes nothing else |
| TodoServices.ToggleTwiceRestores | backend/internal/services/todo.go:152 | toggling twice restores the todo |
| TodoServices.EffectivePage | backend/internal/services/todo.go:65-67 | a page of 0 or less becomes 1; any other page is kept |
| TodoServices.EffectiveLimit | backend/internal/services/todo.go:68-73 | a limit of 0 or less becomes 10 and one above 100 becomes 100; the result is always in 1..100 |
| TodoServices.CeilDiv | backend/internal/services/todo.go:80 | the total pages is the least n with n * limit >= total, so 0 exactly when total is 0 |
| TodoServices.NonEmptyPagesAreCounted | backend/internal/services/todo.go:80 | a page has rows exactly when its number is at most the total pages |
| TodoServices.ListPage | backend/internal/services/todo.go:63-91 | the response reports the effective page and limit, the matching total and its ceiling page count; every row matches; the page has rows exactly when the current page is within the total pages |
| TodoServices.TodoService.Create | backend/internal/services/todo.go:34-61 | a rejected request returns its error and touches no row; otherwise the new todo is stored under a fresh id and returned as reloaded; a storage error changes nothing |
| TodoServices.TodoService.GetAll | backend/internal/services/todo.go:63-91 | normalises page and limit, then returns the page the list query gives for the normalised filter |
| TodoServices.TodoService.GetByID | backend/internal/services/todo.go:93-99 | a missing id gives "todo not found"; otherwise the stored todo |
| TodoServices.TodoService.Update | backend/internal/services/todo.go:101-135 | a missing id gives "todo not found"; otherwise the outcome of the merge and save; the row is replaced on success and every row is unchanged on failure |
| TodoServices.TodoService.Delete | backend/internal/services/todo.go:137-144 | a missing id gives "todo not found" and deletes nothing; otherwise only that row is removed |
| TodoServices.TodoService.ToggleComplete | backend/internal/services/todo.go:146-159 | a missing id gives "todo not found"; otherwise the toggled todo is stored and returned |
| CategoryRepository.CategoryTable.Create | backend/internal/repository/category.go:9 | the insert applies the colour default under a fresh id; a value too wide for its column fails and changes nothing |
| CategoryRepository.CategoryTable.GetAll | backend/internal/repository/category.go:10 | returns every row, in the database's order, one entry per category |
| CategoryRepository.CategoryTable.GetByID | backend/internal/repository/category.go:11 | the lookup fails exactly when no row has the id |
| CategoryRepository.CategoryTable.Update | backend/internal/repository/category.go:12 | the save replaces the row with the given entity and changes no other row |
| CategoryRepository.CategoryTable.Delete | backend/internal/repository/category.go:13 | the delete removes only the row with that id |
| CategoryServices.ErrorMessage | backend/internal/services/category.go:10-13 | each service error has its own non-empty text: "category not found", "category name is required", or the storage error's text |
| CategoryServices.ErrorMessagesIdentifyErrors | backend/internal/services/category.go:10-13 | no two different errors share a text |
| CategoryServices.NewCategory | backend/internal/services/category.go:36-43 | the new category keeps the name; an empty colour becomes #3B82F6 and a given colour is kept |
| CategoryServices.MergeUpdate | backend/internal/services/category.go:70-75 | a non-empty name or colour overwrites the stored one and an empty one keeps it; the id never changes; a well-formed category stays well-formed; a binding update with a colour of at most 20 characters keeps the row within its columns |
| CategoryServices.MergeIsIdempotent | backend/internal/services/category.go:70-75 | the same update applied twice gives the same category as applied once; an update with both fields empty changes nothing |
| CategoryServices.CategoryService.Create | backend/internal/services/category.go:31-50 | an empty name gives "category name is required" and touches no row; otherwise the persisted object itself is returned, with its new id; a storage error changes nothing |
| CategoryServices.CategoryService.GetAll | backend/internal/services/category.go:52-54 | the repository's list, unchanged |
| CategoryServices.CategoryService.GetByID | backend/internal/services/category.go:56-62 | a missing id gives "category not found"; otherwise the stored category |
| CategoryServices.CategoryService.Update | backend/internal/services/category.go:64-82 | a missing id gives "category not found" and changes nothing; otherwise the merged category is saved and returned without a reload |
| CategoryServices.CategoryService.Delete | backend/internal/services/category.go:84-91 | a missing id gives "category not found" and deletes nothing; otherwise only that row is removed |
| TodoHandlers.QueryValue | backend/internal/handlers/todo.go:40-42 | a query parameter that is absent reads as the empty string |
| TodoHandlers.FilterOf | backend/internal/handlers/todo.go:39-76 | page and limit are set only when Atoi accepts them (0 otherwise); category_id only when it is a 32-bit unsigned decimal; completed is absent for an empty value and true only for exactly "true"; search, priority and the sort fields are copied verbatim |
| TodoHandlers.ParseFilter | backend/internal/handlers/todo.go:39-76 | the filter filled in field by field is the filter of the query string |
| TodoHandlers.FilterOfQueryOf | backend/internal/handlers/todo.go:39-76 | every filter whose numbers fit their Go types survives being written as a query string and parsed back |
| TodoHandlers.ParsedPagingIsNormalised | backend/internal/handlers/todo.go:46-57 | whatever the query string, the service ends up with a page of at least 1 and a limit in 1..100; a malformed page or limit gives the defaults |
| TodoHandlers.TodoHandler.Create | backend/internal/handlers/todo.go:20-35 | a body that does not bind gives 400; a service rejection gives 400 with its message; otherwise 201 with the new todo; 201 exactly when the request binds and is accepted |
| TodoHandlers.TodoHandler.GetAll | backend/internal/handlers/todo.go:38-85 | the response is 200 with the service's page for the filter of the query string |
| TodoHandlers.TodoHandler.GetByID | backend/internal/handlers/todo.go:88-102 | an id that is not a 32-bit unsigned decimal gives 400 "invalid todo ID"; a missing todo gives 404; otherwise 200 with the todo |
| TodoHandlers.TodoHandler.Update | backend/internal/handlers/todo.go:105-125 | a bad id gives 400 and then an unbinding body gives 400, neither touching a row; a missing todo, an invalid priority or a storage error gives 404; otherwise 200 with the updated todo |
| TodoHandlers.TodoHandler.Delete | backend/internal/handlers/todo.go:128-141 | a bad id gives 400 and a missing todo 404, neither deleting anything; otherwise 200 "todo deleted successfully" and only that row is gone |
| TodoHandlers.TodoHandler.ToggleComplete | backend/internal/handlers/todo.go:144-158 | a bad id gives 400 and a missing todo 404, neither changing anything; otherwise 200 with the toggled todo, which is stored |
| TodoScenarios.CreateToggleDeleteLookup | backend/internal/handlers/todo.go:20-158 | on an empty table: creating "Buy milk" gives 201 with id 1, priority medium, not completed; two toggles give true and then the original; deleting gives 200; a later lookup gives 404 "todo not found" |
| TodoScenarios.TwoCreatesGetConsecutiveIds | backend/internal/handlers/todo.go:20-35 | on an empty table two creates answer 201 with the ids 1 and 2, and the table then holds exactly those two rows |
| TodoScenarios.RejectedRequests | backend/internal/handlers/todo.go:106-122 | the ids "-1" and 2^32 give 400 "invalid todo ID"; an update with priority "urgent" gives 404 "invalid priority value" |

## Left out

- Timestamps: `CreatedAt`, `UpdatedAt` and the clock are not modelled, and a due date is an opaque integer.
- `Preload("Category")` and the category embedded in a todo are not modelled; neither are foreign keys or what deleting a category does to its todos. In particular, a `category_id` that names no category is accepted: TodoHandlers.TodoHandler.Create answers 201 and TodoHandlers.TodoHandler.Update answers 200, where the foreign key the server's schema migration creates would make the insert or save fail, giving 400 on create and 404 on update. The model assumes that Save writes the merged category id as given, and does not reset it from a preloaded category association.
- TodoRepository.SortedAs: assumes that `created_at` strictly increases with the id. Two todos created within the same clock tick, or a clock that steps back, can leave rows with equal or out-of-order timestamps, whose order under `created_at DESC` is then not decreasing id; TodoRepository.SelectedKeepsDescendingIds holds only under this assumption.
- The order the database finds for a sort column other than the default is not modelled. It is the `sorted` parameter, constrained only by `SortedAs`.
- CategoryRepository.CategoryTable.GetAll: `ORDER BY name ASC` depends on the database collation, so the order is the caller's `sorted` listing.
- Search: `%` and `_` inside the search text are taken literally, not as ILIKE wildcards, and case folding covers ASCII letters only.
- TodoRepository.TodoTable.Update: requires that the id is in the table; GORM's Save would insert a row with an unknown id, and the services only save rows they have just looked up.
- CategoryRepository.CategoryTable.Update: requires that the id is in the table, for the same reason; the category service only saves a row it has just looked up.
- TodoRepository.TodoTable.GetAll: the offset is computed with unbounded integers and ignores the 64-bit wrap-around of the source; TodoRepository.AsWrittenWindow carries the as-written behaviour (see "## Findings").
- TodoRepository.TodoTable.Create, TodoRepository.TodoTable.Update, CategoryRepository.CategoryTable.Create, CategoryRepository.CategoryTable.Update: a value wider than its `varchar` column whose characters past the width are all spaces is truncated to the width and stored by PostgreSQL, but is `ValueTooLong` here with the table unchanged. So a category colour of "#3B82F6" plus 14 spaces, or a todo title of 255 characters plus a space, fails in the model where the source stores the truncated value (and CategoryService.Create/Update return the untruncated object without error).
- TodoRepository.TodoTable.Create: ignores an id set by the caller and always hands out the next one; the services never set one.
- Id allocation is consecutive from 1, a simplification of the PostgreSQL sequence; ids are never reused.
- Storage failures other than column width (connection loss and the like) are not modelled, so the list query never fails.
- TodoHandlers.TodoHandler.GetAll: the 500 answer for a failed list query cannot be reached, because the list query never fails in the model.
- The text of the JSON binder's validation errors and of database errors (`BindingErrorBody`, `StoreErrorMessage`) is not modelled.
- TodoServices.CeilDiv: total pages is exact integer ceiling division; the float64 division and `math.Ceil` of the source, and any rounding they introduce for very large totals, are not modelled.
- JSON encoding and decoding, gin routing and the path and query string syntax are not modelled; a query string is a map with one value per key.
- The category HTTP handlers are not part of this model.
- Server start-up, configuration, migrations and CORS are not part of this model.
- Concurrency between requests is not modelled: each operation runs alone over the table state.

## Findings

| source | as written | input that shows it | evidently intended | confidence | as-written member | corrected member |
|---|---|---|---|---|---|---|
| backend/internal/repository/todo.go:71-72 | the offset, page minus one times the limit, is computed in 64-bit `int` and wraps for a large page | `GET /todos?page=4611686018427387905&limit=4` (page 2^62 + 1): Atoi accepts it, the service keeps it, the offset wraps to 0, and the first four todos are returned | a page past the last one is empty (the k-th row is on page k / limit + 1 only) | not executed | TodoRepository.AsWrittenOffset, TodoRepository.AsWrittenOffsetWrapsToFirstPage | TodoRepository.PageOffset, TodoRepository.Window, with TodoRepository.PagesPartition and TodoServices.NonEmptyPagesAreCounted |
