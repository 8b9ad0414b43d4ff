/**
 * Walks through the store as a client of its methods: the life cycle of two
 * records, and the repeat behaviour of toggling and marking everything
 * done.
 */
module Scenarios {
  import opened Wrappers
  import opened TodoTypes
  import opened Text
  import opened Seqs
  import opened TodoLists
  import opened Storage
  import opened Selectors

  /** One open and one completed record: half done. */
  lemma OneOfTwoDone(open: Todo, done: Todo)
    requires !open.completed && done.completed
    ensures Stats([open, done]) == TodoStats(2, 1, 1, 50)
    ensures Incomplete([open, done]) == [open]
  {
    assert [open, done] == [open] + [done] && [done] == [done] + [];
    FilterCons(open, [done], IsCompleted);
    FilterCons(done, [], IsCompleted);
    FilterCons(open, [done], IsIncomplete);
    FilterCons(done, [], IsIncomplete);
    assert CompletedOnly([open, done]) == [done];
  }

  /** Add two records, complete the first, read the statistics, then clear
      the completed one: only the second record is left, still open. */
  method AddToggleClear() returns (stats: TodoStats, removed: int, remaining: seq<Todo>)
    ensures stats == TodoStats(2, 1, 1, 50)
    ensures removed == 1
    ensures |remaining| == 1
    ensures remaining[0].id == "2" && remaining[0].title == "Walk dog" && !remaining[0].completed
  {
    var store := new TodoStorage();
    var milk := store.AddTodo(NewTodo("Buy milk", None, false), 1);
    var dog := store.AddTodo(NewTodo("Walk dog", None, false), 2);
    assert milk.id == "1" && dog.id == "2";
    assert FindIndex([dog, milk], "1") == 1;
    var toggled := store.ToggleTodo("1", 3);
    assert store.todos == [dog, toggled.value];
    OneOfTwoDone(dog, toggled.value);
    stats := Stats(store.todos);
    removed := store.DeleteCompleted();
    assert removed == |[dog, toggled.value]| - |[dog]|;
    remaining := store.todos;
  }

  /** Toggling the same record twice brings back its completion state and
      keeps the list the same length. */
  method ToggleTwice(store: TodoStorage, id: string, now: Timestamp, later: Timestamp)
    modifies store
    ensures |store.todos| == |old(store.todos)|
    ensures forall i :: 0 <= i < |store.todos| ==> store.todos[i].completed == old(store.todos)[i].completed
  {
    var k := FindIndex(store.todos, id);
    var a := store.ToggleTodo(id, now);
    if k != -1 {
      var r := FindIndex(store.todos, id);
      assert store.todos[k].id == id;
      assert forall i :: 0 <= i < k ==> store.todos[i].id != id;
      assert r == k;
    }
    var b := store.ToggleTodo(id, later);
  }

  /** Marking everything done twice leaves the same records, re-stamped. */
  method MarkAllTwice(store: TodoStorage, now: Timestamp, later: Timestamp)
    modifies store
    ensures store.todos == MarkAllDone(old(store.todos), later)
  {
    var first := store.MarkAllComplete(now);
    var second := store.MarkAllComplete(later);
  }
}
