/**
 * The authoritative in-memory store (`TodoStorage`): an ordered list of
 * records, newest first, and the counter from which ids are issued. Every
 * operation that the source answers with `null`/`false` for a missing id
 * answers here with `None`/`false` and leaves the list as it was.
 */
module Storage {
  import opened Wrappers
  import opened TodoTypes
  import opened Text
  import opened Seqs
  import opened TodoLists
  import opened Ordering

  /** The record `updateTodo` writes: `{...old, ...updates, updatedAt: now}`.
      Every field the patch supplies wins, including `id` and `createdAt`;
      a supplied `updatedAt` is overridden by the clock. */
  function Merge(t: Todo, patch: TodoPatch, now: Timestamp): (r: Todo)
    ensures r.updatedAt == now
    ensures patch.id.None? ==> r.id == t.id
    ensures patch.title.None? ==> r.title == t.title
    ensures patch.description.None? ==> r.description == t.description
    ensures patch.completed.None? ==> r.completed == t.completed
    ensures patch.createdAt.None? ==> r.createdAt == t.createdAt
    ensures patch.id.Some? ==> r.id == patch.id.value
    ensures patch.title.Some? ==> r.title == patch.title.value
    ensures patch.description.Some? ==> r.description == patch.description
    ensures patch.completed.Some? ==> r.completed == patch.completed.value
    ensures patch.createdAt.Some? ==> r.createdAt == patch.createdAt.value
  {
    Todo(
      patch.id.GetOr(t.id),
      patch.title.GetOr(t.title),
      if patch.description.Some? then patch.description else t.description,
      patch.completed.GetOr(t.completed),
      patch.createdAt.GetOr(t.createdAt),
      now)
  }

  /** The record `toggleTodo` writes: `completed` negated, `updatedAt`
      refreshed, everything else kept. */
  function Toggled(t: Todo, now: Timestamp): (r: Todo)
    ensures r.completed == !t.completed && r.updatedAt == now
    ensures r.id == t.id && r.title == t.title && r.description == t.description
    ensures r.createdAt == t.createdAt
  {
    t.(completed := !t.completed, updatedAt := now)
  }

  /** Toggling twice restores the flag (and everything but `updatedAt`). */
  lemma ToggleTwice(t: Todo, now: Timestamp, later: Timestamp)
    ensures Toggled(Toggled(t, now), later) == t.(updatedAt := later)
  {
  }

  /** An empty patch changes nothing but `updatedAt`. */
  lemma MergeEmpty(t: Todo, now: Timestamp)
    ensures Merge(t, TodoPatch(None, None, None, None, None, None), now) == t.(updatedAt := now)
  {
  }

  /** The decimal forms of 1 .. n - 1: the ids issued while the counter
      stood below `n`. */
  ghost function IssuedBelow(n: nat): set<string> {
    set k | 1 <= k < n :: DecimalString(k)
  }

  /** Issuing `n` adds its decimal form, which was not issued before. */
  lemma IssueNext(n: nat)
    requires n >= 1
    ensures DecimalString(n) !in IssuedBelow(n)
    ensures IssuedBelow(n + 1) == IssuedBelow(n) + {DecimalString(n)}
  {
    forall s | s in IssuedBelow(n + 1) ensures s in IssuedBelow(n) + {DecimalString(n)} {
      var k :| 1 <= k < n + 1 && DecimalString(k) == s;
      if k < n { assert s in IssuedBelow(n); }
    }
    forall s | s in IssuedBelow(n) + {DecimalString(n)} ensures s in IssuedBelow(n + 1) {
      var k: nat := if s == DecimalString(n) then n else var j :| 1 <= j < n && DecimalString(j) == s; j;
      assert 1 <= k < n + 1 && DecimalString(k) == s;
    }
  }

  /** A record whose id is not among the list's ids keeps the ids distinct. */
  lemma PrependFresh(t: Todo, s: seq<Todo>, ids: set<string>)
    requires DistinctIds(s) && t.id !in ids
    requires forall i :: 0 <= i < |s| ==> s[i].id in ids
    ensures DistinctIds([t] + s)
  {
    var r := [t] + s;
    forall i, j | 0 <= i < j < |r| ensures r[i].id != r[j].id {
      assert r[j] == s[j - 1];
      if i > 0 { assert r[i] == s[i - 1]; }
    }
  }

  /** A record no older than any in a newest-first list may go in front. */
  lemma PrependNewest(t: Todo, s: seq<Todo>)
    requires Sorted(Newest, s)
    requires forall i :: 0 <= i < |s| ==> s[i].createdAt <= t.createdAt
    ensures Sorted(Newest, [t] + s)
  {
    var r := [t] + s;
    forall i, j | 0 <= i < j < |r| ensures InOrder(Newest, r[i], r[j]) {
      InOrderMeaning(Newest, r[i], r[j]);
      if i > 0 { assert r[i] == s[i - 1] && r[j] == s[j - 1]; }
      else { assert r[j] == s[j - 1]; }
    }
  }

  /** The id counter starts at 1 and only grows. */
  type Counter = n: nat | n >= 1 witness 1

  class TodoStorage {
    var todos: seq<Todo>
    var nextId: Counter

    /** The ids `addTodo` has handed out so far: the decimal forms of
        1 .. nextId - 1. */
    ghost function Issued(): set<string>
      reads this
    {
      IssuedBelow(nextId)
    }

    /** Every stored id was issued by `addTodo` and no two records share
        one. This holds as long as no update has overwritten an id. */
    ghost predicate IdsIssued()
      reads this
    {
      && DistinctIds(todos)
      && forall i :: 0 <= i < |todos| ==> todos[i].id in Issued()
    }

    constructor ()
      ensures todos == [] && nextId == 1
      ensures Issued() == {} && IdsIssued()
    {
      todos := [];
      nextId := 1;
    }

    /** `getTodos`: the current list. */
    method GetTodos() returns (r: seq<Todo>)
      ensures r == todos
    {
      r := todos;
    }

    /** `addTodo`: issue id `String(nextId)`, stamp both timestamps, put the
        record in front. */
    method AddTodo(draft: NewTodo, now: Timestamp) returns (t: Todo)
      modifies this
      ensures t.id == DecimalString(old(nextId))
      ensures t.title == draft.title && t.description == draft.description
      ensures t.completed == draft.completed
      ensures t.createdAt == now && t.updatedAt == now
      ensures todos == [t] + old(todos)
      ensures nextId == old(nextId) + 1
      ensures t.id !in old(Issued()) && Issued() == old(Issued()) + {t.id}
      ensures old(IdsIssued()) ==> IdsIssued()
      ensures old(Sorted(Newest, todos)) && (forall i :: 0 <= i < |old(todos)| ==> old(todos)[i].createdAt <= now)
              ==> Sorted(Newest, todos)
    {
      t := Todo(DecimalString(nextId), draft.title, draft.description, draft.completed, now, now);
      IssueNext(nextId);
      if IdsIssued() {
        PrependFresh(t, todos, Issued());
      }
      if Sorted(Newest, todos) && (forall i :: 0 <= i < |todos| ==> todos[i].createdAt <= now) {
        PrependNewest(t, todos);
      }
      nextId := nextId + 1;
      todos := [t] + todos;
      assert forall i :: 1 <= i < |todos| ==> todos[i] == old(todos)[i - 1];
    }

    /** `updateTodo`: merge the patch into the first record with `id`. */
    method UpdateTodo(id: string, patch: TodoPatch, now: Timestamp) returns (r: Option<Todo>)
      modifies this
      ensures nextId == old(nextId)
      ensures var k := FindIndex(old(todos), id);
        if k == -1 then r.None? && todos == old(todos)
        else r == Some(Merge(old(todos)[k], patch, now)) && todos == old(todos)[k := r.value]
      ensures old(IdsIssued()) && (patch.id.None? || patch.id == Some(id)) ==> IdsIssued()
    {
      var k := FindIndex(todos, id);
      if k == -1 {
        return None;
      }
      var t := Merge(todos[k], patch, now);
      todos := todos[k := t];
      r := Some(t);
    }

    /** `deleteTodo`: splice out the first record with `id`. */
    method DeleteTodo(id: string) returns (removed: bool)
      modifies this
      ensures nextId == old(nextId)
      ensures var k := FindIndex(old(todos), id);
        && removed == (k != -1)
        && todos == if k == -1 then old(todos) else RemoveAt(old(todos), k)
      ensures old(IdsIssued()) ==> IdsIssued()
    {
      var k := FindIndex(todos, id);
      if k == -1 {
        return false;
      }
      todos := RemoveAt(todos, k);
      removed := true;
      assert forall i :: 0 <= i < |todos| ==> todos[i] == old(todos)[if i < k then i else i + 1];
    }

    /** `toggleTodo`: negate `completed` of the first record with `id`. */
    method ToggleTodo(id: string, now: Timestamp) returns (r: Option<Todo>)
      modifies this
      ensures nextId == old(nextId)
      ensures var k := FindIndex(old(todos), id);
        if k == -1 then r.None? && todos == old(todos)
        else r == Some(Toggled(old(todos)[k], now)) && todos == old(todos)[k := r.value]
      ensures old(IdsIssued()) ==> IdsIssued()
    {
      var k := FindIndex(todos, id);
      if k == -1 {
        return None;
      }
      var t := Toggled(todos[k], now);
      todos := todos[k := t];
      r := Some(t);
    }

    /** `deleteCompleted`: keep the incomplete records; answer how many
        records went. */
    method DeleteCompleted() returns (n: int)
      modifies this
      ensures nextId == old(nextId)
      ensures todos == Incomplete(old(todos))
      ensures n == |old(todos)| - |todos| == CountCompleted(old(todos))
      ensures old(IdsIssued()) ==> IdsIssued()
    {
      var initialLength := |todos|;
      CompletedIncompletePartition(todos);
      ghost var wasIssued := IdsIssued();
      if wasIssued {
        FilterKeepsDistinctIds(todos, IsIncomplete);
      }
      todos := Incomplete(todos);
      n := initialLength - |todos|;
      if wasIssued {
        forall i | 0 <= i < |todos| ensures todos[i].id in Issued() {
          assert todos[i] in old(todos);
        }
      }
    }

    /** `markAllComplete`: every record completed and re-stamped; the new
        list is returned. */
    method MarkAllComplete(now: Timestamp) returns (r: seq<Todo>)
      modifies this
      ensures nextId == old(nextId)
      ensures todos == MarkAllDone(old(todos), now) && r == todos
      ensures old(IdsIssued()) ==> IdsIssued()
    {
      todos := MarkAllDone(todos, now);
      r := todos;
    }
  }
}
