/** `PATCH /api/todos/complete-all`: mark every record complete and answer
    with the updated list. */
module CompleteAllRoute {
  import opened Wrappers
  import opened TodoTypes
  import opened TodoLists
  import opened Storage

  /** `PATCH`: one `markAllComplete` call; its result is the envelope's
      data. */
  method Patch(store: TodoStorage, now: Timestamp) returns (resp: Response<seq<Todo>>)
    modifies store
    ensures store.todos == MarkAllDone(old(store.todos), now) && store.nextId == old(store.nextId)
    ensures resp == Response(200, Some(store.todos), "All todos marked as complete", true)
    ensures |resp.data.value| == |old(store.todos)|
    ensures forall i :: 0 <= i < |resp.data.value| ==>
      resp.data.value[i].completed && resp.data.value[i].id == old(store.todos)[i].id
  {
    var updatedTodos := store.MarkAllComplete(now);
    resp := Response(200, Some(updatedTodos), "All todos marked as complete", true);
  }
}
