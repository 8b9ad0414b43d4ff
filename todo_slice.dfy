/**
 * The `todos` redux slice: the client's copy of the list with its
 * `loading`, `error` and `lastUpdated` flags, and the reducer cases of the
 * slice. The asynchronous thunks are represented only by the payloads their
 * pending/fulfilled/rejected actions carry; `now` is the clock reading the
 * reducer stamps into `lastUpdated`.
 */
module TodoSlice {
  import opened Wrappers
  import opened TodoTypes
  import opened Seqs
  import opened TodoLists

  /** The whole slice state as one value, for "nothing else changes". */
  datatype TodoStateValue = TodoStateValue(
    todos: seq<Todo>, loading: bool, error: Option<string>, lastUpdated: Option<Timestamp>)

  const InitialState := TodoStateValue([], false, None, None)

  class TodoState {
    var todos: seq<Todo>
    var loading: bool
    var error: Option<string>
    var lastUpdated: Option<Timestamp>

    ghost function Value(): TodoStateValue
      reads this
    {
      TodoStateValue(todos, loading, error, lastUpdated)
    }

    /** `initialState` */
    constructor ()
      ensures Value() == InitialState
    {
      todos := [];
      loading := false;
      error := None;
      lastUpdated := None;
    }

    /** `clearError` */
    method ClearError()
      modifies this
      ensures Value() == old(Value()).(error := None)
    {
      error := None;
    }

    /** `setTodos`: the list replaced wholesale. */
    method SetTodos(payload: seq<Todo>, now: Timestamp)
      modifies this
      ensures Value() == old(Value()).(todos := payload, lastUpdated := Some(now))
    {
      todos := payload;
      lastUpdated := Some(now);
    }

    /** `fetchTodos.pending` and `createTodo.pending` */
    method Pending()
      modifies this
      ensures Value() == old(Value()).(loading := true, error := None)
    {
      loading := true;
      error := None;
    }

    /** `fetchTodos.rejected` and `createTodo.rejected`: the payload is the
        error message. */
    method Rejected(message: string)
      modifies this
      ensures Value() == old(Value()).(loading := false, error := Some(message))
    {
      loading := false;
      error := Some(message);
    }

    /** `fetchTodos.fulfilled` */
    method FetchFulfilled(payload: seq<Todo>, now: Timestamp)
      modifies this
      ensures Value() == old(Value()).(loading := false, todos := payload, lastUpdated := Some(now))
    {
      loading := false;
      todos := payload;
      lastUpdated := Some(now);
    }

    /** `createTodo.fulfilled`: the created record goes in front. */
    method CreateFulfilled(payload: Todo, now: Timestamp)
      modifies this
      ensures Value() == old(Value()).(loading := false, todos := [payload] + old(todos), lastUpdated := Some(now))
      ensures todos[0] == payload && todos[1..] == old(todos)
    {
      loading := false;
      todos := [payload] + todos;
      lastUpdated := Some(now);
    }

    /** `updateTodo.fulfilled` and `toggleTodo.fulfilled`: the first record
        with the payload's id is replaced; with no such record the state is
        left entirely alone. */
    method ReplaceFulfilled(payload: Todo, now: Timestamp)
      modifies this
      ensures var k := FindIndex(old(todos), payload.id);
        if k == -1 then Value() == old(Value())
        else Value() == old(Value()).(todos := old(todos)[k := payload], lastUpdated := Some(now))
      ensures |todos| == |old(todos)|
      ensures forall i :: 0 <= i < |todos| && todos[i] != old(todos)[i] ==> todos[i] == payload
    {
      var index := FindIndex(todos, payload.id);
      if index != -1 {
        todos := todos[index := payload];
        lastUpdated := Some(now);
      }
    }

    /** `updateTodo.fulfilled` */
    method UpdateFulfilled(payload: Todo, now: Timestamp)
      modifies this
      ensures var k := FindIndex(old(todos), payload.id);
        if k == -1 then Value() == old(Value())
        else Value() == old(Value()).(todos := old(todos)[k := payload], lastUpdated := Some(now))
    {
      ReplaceFulfilled(payload, now);
    }

    /** `toggleTodo.fulfilled` */
    method ToggleFulfilled(payload: Todo, now: Timestamp)
      modifies this
      ensures var k := FindIndex(old(todos), payload.id);
        if k == -1 then Value() == old(Value())
        else Value() == old(Value()).(todos := old(todos)[k := payload], lastUpdated := Some(now))
    {
      ReplaceFulfilled(payload, now);
    }

    /** `deleteTodo.fulfilled`: every record with the id goes, the rest keep
        their order. */
    method DeleteFulfilled(id: string, now: Timestamp)
      modifies this
      ensures Value() == old(Value()).(todos := WithoutId(old(todos), id), lastUpdated := Some(now))
      ensures forall x :: x in todos <==> x in old(todos) && x.id != id
    {
      todos := WithoutId(todos, id);
      lastUpdated := Some(now);
    }

    /** `deleteCompletedTodos.fulfilled` */
    method DeleteCompletedFulfilled(now: Timestamp)
      modifies this
      ensures Value() == old(Value()).(todos := Incomplete(old(todos)), lastUpdated := Some(now))
    {
      todos := Incomplete(todos);
      lastUpdated := Some(now);
    }

    /** `markAllComplete.fulfilled`: the server's list replaces the local
        one. */
    method MarkAllCompleteFulfilled(payload: seq<Todo>, now: Timestamp)
      modifies this
      ensures Value() == old(Value()).(todos := payload, lastUpdated := Some(now))
    {
      todos := payload;
      lastUpdated := Some(now);
    }
  }
}
