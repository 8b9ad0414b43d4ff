/**
 * The page component's own derivations: its inline view (title-only search,
 * no completed filter, the same comparator switch), the counters, the list
 * updaters it hands to `setTodos` after each server call, the title it
 * sends on create, and when the batch buttons are shown and enabled.
 */
module Page {
  import opened Wrappers
  import opened TodoTypes
  import opened Text
  import opened Seqs
  import opened TodoLists
  import opened Ordering
  import opened Selectors
  import TodosRoute

  /** The inline search: the lower-cased term occurs in the lower-cased
      title. The description is not looked at. */
  predicate TitleMatches(t: Todo, searchTerm: string)
    ensures TitleMatches(t, searchTerm) <==> exists i :: SliceAt(ToLower(t.title), ToLower(searchTerm), i)
  {
    IncludesAt(ToLower(t.title), ToLower(searchTerm));
    Includes(ToLower(t.title), ToLower(searchTerm))
  }

  /** `filteredAndSortedTodos` */
  function FilteredAndSortedTodos(todos: seq<Todo>, searchTerm: string, sortBy: string): (r: seq<Todo>)
    ensures forall x :: x in r <==> x in todos && TitleMatches(x, searchTerm)
    ensures multiset(r) == multiset(Filter(todos, (t: Todo) => TitleMatches(t, searchTerm)))
    ensures Sorted(ParseSortBy(sortBy), r)
  {
    var kept := Filter(todos, (t: Todo) => TitleMatches(t, searchTerm));
    SortSorted(ParseSortBy(sortBy), kept);
    var r := Sort(ParseSortBy(sortBy), kept);
    assert forall x :: x in r <==> x in kept by {
      forall x ensures x in r <==> x in kept {
        assert x in r <==> x in multiset(r);
        assert x in kept <==> x in multiset(kept);
      }
    }
    r
  }

  /** An empty search term keeps every record (every string includes ""). */
  lemma EmptySearchKeepsAll(todos: seq<Todo>, sortBy: string)
    ensures multiset(FilteredAndSortedTodos(todos, "", sortBy)) == multiset(todos)
  {
    forall i | 0 <= i < |todos| ensures TitleMatches(todos[i], "") {
      IncludesEmpty(ToLower(todos[i].title));
    }
    FilterAll(todos, (t: Todo) => TitleMatches(t, ""));
  }

  /** The inline view is the selector's view with completed records shown,
      as long as no record has a description to search. */
  lemma AgreesWithSelector(todos: seq<Todo>, searchTerm: string, sortBy: string)
    requires forall i :: 0 <= i < |todos| ==> todos[i].description.None? || todos[i].description == Some("")
    ensures FilteredAndSortedTodos(todos, searchTerm, sortBy)
         == FilteredTodos(todos, TodoFilters(searchTerm, ParseSortBy(sortBy), true))
  {
    var byTitle := (t: Todo) => TitleMatches(t, searchTerm);
    if searchTerm == "" {
      forall i | 0 <= i < |todos| ensures byTitle(todos[i]) {
        IncludesEmpty(ToLower(todos[i].title));
      }
      FilterAll(todos, byTitle);
    } else {
      FilterSame(todos, byTitle, (t: Todo) => MatchesSearch(t, searchTerm));
    }
  }

  /** The page's counters: the "Remaining" card shows total minus
      completed, which is the number of incomplete records. */
  lemma RemainingCount(todos: seq<Todo>)
    ensures |todos| - CountCompleted(todos) == |Incomplete(todos)|
    ensures |todos| - CountCompleted(todos) == Stats(todos).remaining
  {
    CompletedIncompletePartition(todos);
  }

  /** The title `addTodo` sends: nothing for a blank input, the trimmed
      input otherwise. */
  function TitleToSend(input: string): (r: Option<string>)
    ensures r.None? <==> AllWhitespace(input)
    ensures r.Some? ==> r.value == Trim(input) && r.value != ""
  {
    TrimSpec(input);
    if Trim(input) == "" then None else Some(Trim(input))
  }

  /** Whatever the page sends, the create route accepts, and stores it as
      sent (trimming again changes nothing). */
  lemma SentTitleAccepted(input: string)
    requires TitleToSend(input).Some?
    ensures !TodosRoute.BlankTitle(Some(TitleToSend(input).value))
    ensures Trim(TitleToSend(input).value) == TitleToSend(input).value
  {
    TrimIdempotent(input);
  }

  /** After a successful create: the returned record in front. */
  function AfterCreate(prev: seq<Todo>, created: Todo): (r: seq<Todo>)
    ensures |r| == |prev| + 1 && r[0] == created && r[1..] == prev
  {
    [created] + prev
  }

  /** After a toggle: every record with the id replaced by the server's. */
  function AfterToggle(prev: seq<Todo>, id: string, returned: Todo): (r: seq<Todo>)
    ensures |r| == |prev|
    ensures forall i :: 0 <= i < |prev| && prev[i].id != id ==> r[i] == prev[i]
    ensures forall i :: 0 <= i < |prev| && prev[i].id == id ==> r[i] == returned
  {
    ReplaceWhere(prev, id, returned)
  }

  /** After a delete: no record with the id is left. */
  function AfterDelete(prev: seq<Todo>, id: string): (r: seq<Todo>)
    ensures forall x :: x in r <==> x in prev && x.id != id
  {
    WithoutId(prev, id)
  }

  /** After "delete completed": the incomplete records, in order. */
  function AfterDeleteCompleted(prev: seq<Todo>): (r: seq<Todo>)
    ensures r == Incomplete(prev)
    ensures forall x :: multiset(r)[x] == if x.completed then 0 else multiset(prev)[x]
    ensures forall i :: 0 <= i < |r| ==> !r[i].completed
    ensures |r| == |prev| - CountCompleted(prev)
  {
    FiltersUniform(prev);
    CompletedIncompletePartition(prev);
    Incomplete(prev)
  }

  /** The two batch buttons and whether each is disabled. */
  datatype BatchButtons = BatchButtons(markAllDisabled: bool, deleteCompletedDisabled: bool)

  /** The batch buttons: shown only for a non-empty list; "Mark All
      Complete" is disabled when everything is done, "Delete Completed"
      when nothing is. */
  function BatchActions(todos: seq<Todo>): (r: Option<BatchButtons>)
    ensures r.None? <==> todos == []
    ensures r.Some? ==> (r.value.markAllDisabled <==> forall i :: 0 <= i < |todos| ==> todos[i].completed)
    ensures r.Some? ==> (r.value.deleteCompletedDisabled <==> forall i :: 0 <= i < |todos| ==> !todos[i].completed)
  {
    var completedCount := CountCompleted(todos);
    var totalCount := |todos|;
    if |todos| > 0 then Some(BatchButtons(completedCount == totalCount, completedCount == 0)) else None
  }
}
