/**
 * The record and request shapes of the todo application: `Todo`,
 * `UpdateTodoRequest` (as the `Partial<Todo>` the store merges),
 * `TodoFilters` and the `{data, message, success}` response envelope.
 * Timestamps are readings of an abstract clock (natural numbers) in place
 * of ISO-8601 strings.
 */
module TodoTypes {
  import opened Wrappers

  type Timestamp = nat

  /** One task record. `description` is optional, as in the source. */
  datatype Todo = Todo(
    id: string,
    title: string,
    description: Option<string>,
    completed: bool,
    createdAt: Timestamp,
    updatedAt: Timestamp)

  /** What `addTodo` receives: a record without id and timestamps. */
  datatype NewTodo = NewTodo(title: string, description: Option<string>, completed: bool)

  /** A `Partial<Todo>`: every field may be supplied, including `id` and the
      timestamps, because the store spreads the caller's object as it is. */
  datatype TodoPatch = TodoPatch(
    id: Option<string>,
    title: Option<string>,
    description: Option<string>,
    completed: Option<bool>,
    createdAt: Option<Timestamp>,
    updatedAt: Option<Timestamp>)

  /** The sort modes of the filter criteria. A mode string outside the four
      known ones is kept as `Unrecognised`, which the comparators treat as
      "no preference". */
  datatype SortBy = Newest | Oldest | Alphabetical | CompletedFirst | Unrecognised(mode: string)

  /** The mode named by a string, as the `switch` statements read it. */
  function ParseSortBy(mode: string): (r: SortBy)
    ensures r.Unrecognised? <==> mode !in {"newest", "oldest", "alphabetical", "completed"}
    ensures r.Unrecognised? ==> r.mode == mode
  {
    if mode == "newest" then Newest
    else if mode == "oldest" then Oldest
    else if mode == "alphabetical" then Alphabetical
    else if mode == "completed" then CompletedFirst
    else Unrecognised(mode)
  }

  datatype TodoFilters = TodoFilters(search: string, sortBy: SortBy, showCompleted: bool)

  /** A `Partial<TodoFilters>`. */
  datatype FiltersPatch = FiltersPatch(search: Option<string>, sortBy: Option<SortBy>, showCompleted: Option<bool>)

  /** The `ApiResponse` envelope together with the HTTP status it is sent
      with. */
  datatype Response<T> = Response(status: nat, data: Option<T>, message: string, success: bool)
}
