/**
 * `GET /api/todos` and `POST /api/todos`: the list and create commands of
 * the gateway over the shared store, answering with a status and an
 * `ApiResponse` envelope.
 */
module TodosRoute {
  import opened Wrappers
  import opened TodoTypes
  import opened Text
  import opened Storage

  /** The body of a create request (`CreateTodoRequest`). */
  datatype CreateTodoRequest = CreateTodoRequest(title: Option<string>, description: Option<string>)

  /** `!body.title || body.title.trim() === ""` */
  predicate BlankTitle(title: Option<string>)
    ensures BlankTitle(title) <==> title.None? || AllWhitespace(title.value)
  {
    TrimSpec(title.GetOr(""));
    title.None? || title.value == "" || Trim(title.value) == ""
  }

  /** `body.description || ""` */
  function DescriptionOrEmpty(d: Option<string>): (r: string)
    ensures d.Some? ==> r == d.value
    ensures d.None? ==> r == ""
  {
    if d.None? || d.value == "" then "" else d.value
  }

  /** `GET`: the whole list, unchanged. */
  method Get(store: TodoStorage) returns (resp: Response<seq<Todo>>)
    ensures resp == Response(200, Some(store.todos), "Todos fetched successfully", true)
  {
    var todos := store.GetTodos();
    resp := Response(200, Some(todos), "Todos fetched successfully", true);
  }

  /** `POST`: refuse a blank title with 400 before touching the store;
      otherwise add the trimmed title, not completed, and answer 201 with
      the new record. */
  method Post(store: TodoStorage, body: CreateTodoRequest, now: Timestamp) returns (resp: Response<Todo>)
    modifies store
    ensures BlankTitle(body.title) ==>
      && resp == Response(400, None, "Title is required", false)
      && store.todos == old(store.todos) && store.nextId == old(store.nextId)
    ensures !BlankTitle(body.title) ==>
      && resp.status == 201 && resp.success && resp.message == "Todo created successfully"
      && resp.data.Some?
      && store.todos == [resp.data.value] + old(store.todos)
      && store.nextId == old(store.nextId) + 1
      && resp.data.value.id == DecimalString(old(store.nextId))
      && resp.data.value.title == Trim(body.title.value)
      && resp.data.value.description == Some(DescriptionOrEmpty(body.description))
      && !resp.data.value.completed
      && resp.data.value.createdAt == now && resp.data.value.updatedAt == now
      && resp.data.value.id !in old(store.Issued())
  {
    if BlankTitle(body.title) {
      return Response(400, None, "Title is required", false);
    }
    var newTodo := store.AddTodo(NewTodo(Trim(body.title.value), Some(DescriptionOrEmpty(body.description)), false), now);
    resp := Response(201, Some(newTodo), "Todo created successfully", true);
  }
}
