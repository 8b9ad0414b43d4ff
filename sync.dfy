/**
 * The client's copy of the list against the server's store: each server
 * operation followed by the reducer that handles its response leaves the
 * two lists equal again. Only deletion needs the ids in the store to be
 * distinct.
 */
module Sync {
  import opened Wrappers
  import opened TodoTypes
  import opened TodoLists
  import opened Storage
  import opened TodoSlice

  /** Create on the server, then `createTodo.fulfilled` on the client. */
  method Create(store: TodoStorage, cache: TodoState, draft: NewTodo, now: Timestamp)
    requires store != cache as object
    requires cache.todos == store.todos
    modifies store, cache
    ensures cache.todos == store.todos
  {
    cache.Pending();
    var t := store.AddTodo(draft, now);
    cache.CreateFulfilled(t, now);
  }

  /** Toggle on the server, then `toggleTodo.fulfilled` on the client. The
      client replaces the first record with the returned id, which is the
      one the store toggled. */
  method Toggle(store: TodoStorage, cache: TodoState, id: string, now: Timestamp)
    requires store != cache as object
    requires cache.todos == store.todos
    modifies store, cache
    ensures cache.todos == store.todos
    ensures old(store.IdsIssued()) ==> store.IdsIssued()
  {
    var before := store.todos;
    var r := store.ToggleTodo(id, now);
    if r.Some? {
      var k := FindIndex(before, id);
      assert FindIndex(before, r.value.id) == k;
      cache.ToggleFulfilled(r.value, now);
    }
  }

  /** Update on the server (`PUT /api/todos/[id]`), then
      `updateTodo.fulfilled` on the client. The client sends the record's
      own id in the body, so the patch either has no id or the same one,
      and the client finds the updated record under that id. */
  method Update(store: TodoStorage, cache: TodoState, id: string, patch: TodoPatch, now: Timestamp)
    requires store != cache as object
    requires cache.todos == store.todos
    requires patch.id.None? || patch.id == Some(id)
    modifies store, cache
    ensures cache.todos == store.todos
    ensures old(store.IdsIssued()) ==> store.IdsIssued()
  {
    var before := store.todos;
    var r := store.UpdateTodo(id, patch, now);
    if r.Some? {
      var k := FindIndex(before, id);
      assert r.value.id == id;
      cache.UpdateFulfilled(r.value, now);
    }
  }

  /** Delete on the server, then `deleteTodo.fulfilled` on the client, which
      filters out every record with the id; with distinct ids that is the
      one the store spliced out. */
  method Delete(store: TodoStorage, cache: TodoState, id: string, now: Timestamp)
    requires store != cache as object
    requires cache.todos == store.todos && store.IdsIssued()
    modifies store, cache
    ensures cache.todos == store.todos && store.IdsIssued()
  {
    RemoveFirstIsWithoutId(store.todos, id);
    var removed := store.DeleteTodo(id);
    cache.DeleteFulfilled(id, now);
  }

  /** "Delete completed" on both sides. */
  method DeleteCompleted(store: TodoStorage, cache: TodoState, now: Timestamp)
    requires store != cache as object
    requires cache.todos == store.todos
    modifies store, cache
    ensures cache.todos == store.todos
  {
    var n := store.DeleteCompleted();
    cache.DeleteCompletedFulfilled(now);
  }

  /** "Mark all complete": the client takes the server's list. */
  method MarkAllComplete(store: TodoStorage, cache: TodoState, now: Timestamp)
    requires store != cache as object
    modifies store, cache
    ensures cache.todos == store.todos
    ensures forall i :: 0 <= i < |cache.todos| ==> cache.todos[i].completed
  {
    var all := store.MarkAllComplete(now);
    cache.MarkAllCompleteFulfilled(all, now);
  }
}
