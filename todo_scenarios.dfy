/** Request sequences a client of the todo API performs, with the responses
    the model promises for them. */
module TodoScenarios {
  import opened Wrappers
  import opened TodoModels
  import opened TodoRepository
  import opened TodoServices
  import opened TodoHandlers

  /** On an empty table: create "Buy milk" without priority, toggle it twice,
      delete it, then look it up. */
  method CreateToggleDeleteLookup() returns (created: Response, toggled: Response, restored: Response,
                                             deleted: Response, lookedUp: Response)
    ensures created == Response(StatusCreated, TodoBody(Todo(1, "Buy milk", "", false, PriorityMedium, None, None)))
    ensures toggled == Response(StatusOK, TodoBody(Todo(1, "Buy milk", "", true, PriorityMedium, None, None)))
    ensures restored == created.(status := StatusOK)
    ensures deleted == Response(StatusOK, MessageBody(TodoDeleted))
    ensures lookedUp == Response(StatusNotFound, ErrorBody("todo not found"))
  {
    var table := new TodoTable();
    var service := new TodoService(table);
    var handler := new TodoHandler(service);
    Text.DecimalValueOfDecimal(1);
    assert Text.ParseUint32("1") == Some(1);
    created := handler.Create(Some(CreateTodoRequest("Buy milk", "", "", None, None)));
    toggled := handler.ToggleComplete("1");
    restored := handler.ToggleComplete("1");
    deleted := handler.Delete("1");
    lookedUp := handler.GetByID("1");
  }

  /** Ids that are not 32-bit unsigned decimals are refused before the store
      is consulted; an update with an invalid priority is answered with 404. */
  method RejectedRequests() returns (signed: Response, tooLarge: Response, badPriority: Response)
    ensures signed == Response(StatusBadRequest, ErrorBody(InvalidTodoID))
    ensures tooLarge == Response(StatusBadRequest, ErrorBody(InvalidTodoID))
    ensures badPriority == Response(StatusNotFound, ErrorBody("invalid priority value"))
  {
    var table := new TodoTable();
    var service := new TodoService(table);
    var handler := new TodoHandler(service);
    var _ := handler.Create(Some(CreateTodoRequest("Write report", "", PriorityHigh, None, None)));
    assert Text.ParseUint32("1") == Some(1);
    assert Text.ParseUint32("-1").None? by { assert !Text.IsDigit('-'); }
    signed := handler.GetByID("-1");
    // 2^32 written in decimal
    Text.DecimalValueOfDecimal(Text.MaxUint32 + 1);
    tooLarge := handler.Delete(Text.Decimal(Text.MaxUint32 + 1));
    badPriority := handler.Update("1", Some(UpdateTodoRequest("", "", None, "urgent", None, None)));
  }

  /** Two creates on an empty table get the ids 1 and 2, and both rows are
      stored. */
  method TwoCreatesGetConsecutiveIds() returns (first: Response, second: Response, ids: set<nat>)
    ensures first == Response(StatusCreated, TodoBody(Todo(1, "Buy milk", "", false, PriorityMedium, None, None)))
    ensures second == Response(StatusCreated, TodoBody(Todo(2, "Call mum", "", false, PriorityLow, None, None)))
    ensures ids == {1, 2}
  {
    var table := new TodoTable();
    var service := new TodoService(table);
    var handler := new TodoHandler(service);
    first := handler.Create(Some(CreateTodoRequest("Buy milk", "", "", None, None)));
    second := handler.Create(Some(CreateTodoRequest("Call mum", "", PriorityLow, None, None)));
    ids := table.rows.Keys;
  }
}
