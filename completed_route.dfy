/** `DELETE /api/todos/completed`: bulk removal of completed records, with
    the number removed reported in the message. */
module CompletedRoute {
  import opened Wrappers
  import opened TodoTypes
  import opened Text
  import opened TodoLists
  import opened Storage

  const MessageSuffix := " completed todos deleted successfully"

  /** `${deletedCount} completed todos deleted successfully` */
  function DeletedMessage(n: nat): (m: string)
    ensures |m| > |MessageSuffix| && m[|m| - |MessageSuffix|..] == MessageSuffix
    ensures AllDigits(m[..|m| - |MessageSuffix|]) && DigitsValue(m[..|m| - |MessageSuffix|]) == n
  {
    assert (DecimalString(n) + MessageSuffix)[..|DecimalString(n)|] == DecimalString(n);
    DecimalString(n) + MessageSuffix
  }

  /** The message determines the count: different counts never print the
      same message. */
  lemma DeletedMessageInjective(n: nat, m: nat)
    requires DeletedMessage(n) == DeletedMessage(m)
    ensures n == m
  {
    var a, b := DecimalString(n), DecimalString(m);
    assert |a| == |b|;
    assert a == DeletedMessage(n)[..|a|];
    assert b == DeletedMessage(m)[..|b|];
    DecimalStringInjective(n, m);
  }

  /** `DELETE`: one `deleteCompleted` call; the store keeps exactly its
      incomplete records and the envelope reports how many went. */
  method Delete(store: TodoStorage) returns (resp: Response<()>)
    modifies store
    ensures store.todos == Incomplete(old(store.todos)) && store.nextId == old(store.nextId)
    ensures resp == Response(200, None, DeletedMessage(CountCompleted(old(store.todos))), true)
    ensures forall i :: 0 <= i < |store.todos| ==> !store.todos[i].completed
  {
    var deletedCount := store.DeleteCompleted();
    resp := Response(200, None, DeletedMessage(deletedCount), true);
    forall i | 0 <= i < |store.todos| ensures !store.todos[i].completed {
      assert store.todos[i] in Incomplete(old(store.todos));
    }
  }
}
