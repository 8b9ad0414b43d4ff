/**
 * The derived view and statistics of the redux store: `selectFilteredTodos`,
 * `selectTodoStats`, `selectCompletedTodos`, `selectIncompleteTodos` and
 * `selectTodoById`, as pure functions returning new sequences.
 */
module Selectors {
  import opened Wrappers
  import opened TodoTypes
  import opened Text
  import opened Seqs
  import opened TodoLists
  import opened Ordering

  /** The search test: the lower-cased search occurs in the lower-cased
      title, or in a non-empty description. */
  predicate MatchesSearch(t: Todo, search: string)
    ensures MatchesSearch(t, search) <==>
      || (exists i :: SliceAt(ToLower(t.title), ToLower(search), i))
      || (t.description.Some? && t.description.value != ""
          && exists i :: SliceAt(ToLower(t.description.value), ToLower(search), i))
  {
    IncludesAt(ToLower(t.title), ToLower(search));
    IncludesAt(ToLower(t.description.GetOr("")), ToLower(search));
    var q := ToLower(search);
    || Includes(ToLower(t.title), q)
    || (t.description.Some? && t.description.value != "" && Includes(ToLower(t.description.value), q))
  }

  /** The search step, skipped when the search string is empty (falsy). */
  function SearchStep(s: seq<Todo>, search: string): (r: seq<Todo>)
    ensures search == "" ==> r == s
    ensures forall x :: x in r <==> x in s && (search == "" || MatchesSearch(x, search))
    ensures multiset(r) <= multiset(s)
  {
    if search == "" then s else Filter(s, (t: Todo) => MatchesSearch(t, search))
  }

  /** The show-completed step. */
  function CompletedStep(s: seq<Todo>, showCompleted: bool): (r: seq<Todo>)
    ensures showCompleted ==> r == s
    ensures forall x :: x in r <==> x in s && (showCompleted || !x.completed)
    ensures forall x :: multiset(r)[x] == if showCompleted || !x.completed then multiset(s)[x] else 0
  {
    if showCompleted then s else Incomplete(s)
  }

  /** Kept by the two filter steps. */
  predicate Selected(t: Todo, filters: TodoFilters) {
    && (filters.search == "" || MatchesSearch(t, filters.search))
    && (filters.showCompleted || !t.completed)
  }

  /** `selectFilteredTodos`: search, then drop completed records when they
      are hidden, then sort stably by the chosen mode. */
  function FilteredTodos(todos: seq<Todo>, filters: TodoFilters): (r: seq<Todo>)
    ensures forall x :: x in r <==> x in todos && Selected(x, filters)
    ensures multiset(r) == multiset(CompletedStep(SearchStep(todos, filters.search), filters.showCompleted))
    ensures Sorted(filters.sortBy, r)
  {
    var kept := CompletedStep(SearchStep(todos, filters.search), filters.showCompleted);
    SortSorted(filters.sortBy, kept);
    var r := Sort(filters.sortBy, kept);
    assert forall x :: x in r <==> x in kept by {
      forall x ensures x in r <==> x in kept {
        assert x in r <==> x in multiset(r);
        assert x in kept <==> x in multiset(kept);
      }
    }
    r
  }

  /** With hidden completed records, no completed record is shown. */
  lemma HiddenCompletedNotShown(todos: seq<Todo>, filters: TodoFilters)
    requires !filters.showCompleted
    ensures forall i :: 0 <= i < |FilteredTodos(todos, filters)| ==> !FilteredTodos(todos, filters)[i].completed
  {
    var r := FilteredTodos(todos, filters);
    forall i | 0 <= i < |r| ensures !r[i].completed {
      assert r[i] in r;
    }
  }

  /** With no search and completed records shown, the view holds exactly
      the records of the list, each as often as the list does. */
  lemma UnfilteredViewIsPermutation(todos: seq<Todo>, mode: SortBy)
    ensures multiset(FilteredTodos(todos, TodoFilters("", mode, true))) == multiset(todos)
  {
  }

  /** The default view ("newest", no search, completed shown) of a list
      already in newest-first order is that list, unchanged. */
  lemma DefaultViewOfNewestFirst(todos: seq<Todo>)
    requires Sorted(Newest, todos)
    ensures FilteredTodos(todos, TodoFilters("", Newest, true)) == todos
  {
    SortOfSorted(Newest, todos);
  }

  /** What the sort guarantees, mode by mode. */
  lemma ViewOrder(todos: seq<Todo>, filters: TodoFilters, i: int, j: int)
    requires 0 <= i < j < |FilteredTodos(todos, filters)|
    ensures var r := FilteredTodos(todos, filters);
      && (filters.sortBy == Newest ==> r[i].createdAt >= r[j].createdAt)
      && (filters.sortBy == Oldest ==> r[i].createdAt <= r[j].createdAt)
      && (filters.sortBy == Alphabetical ==> LocaleCompare(r[i].title, r[j].title) <= 0)
      && (filters.sortBy == CompletedFirst ==> r[i].completed || !r[j].completed)
  {
    var r := FilteredTodos(todos, filters);
    InOrderMeaning(filters.sortBy, r[i], r[j]);
  }

  /** An unrecognised sort mode leaves the filtered records in list order. */
  lemma UnrecognisedModeKeepsOrder(todos: seq<Todo>, search: string, showCompleted: bool, mode: string)
    ensures FilteredTodos(todos, TodoFilters(search, Unrecognised(mode), showCompleted))
         == CompletedStep(SearchStep(todos, search), showCompleted)
  {
    SortUnrecognised(mode, CompletedStep(SearchStep(todos, search), showCompleted));
  }

  datatype TodoStats = TodoStats(total: nat, completed: nat, remaining: int, completionRate: int)

  /** `Math.round(completed / total * 100)`, idealised to exact arithmetic
      with halves rounded up; 0 for an empty list. */
  function CompletionRate(completed: nat, total: nat): (r: int)
    ensures total == 0 ==> r == 0
    ensures total > 0 ==> 2 * total * r <= 200 * completed + total < 2 * total * (r + 1)
    ensures completed <= total ==> 0 <= r <= 100
    ensures 0 < total == completed ==> r == 100
    ensures completed == 0 ==> r == 0
  {
    if total > 0 then
      var r := (200 * completed + total) / (2 * total);
      RoundBounds(completed, total, r);
      r
    else 0
  }

  lemma MulMonotone(d: int, a: int, b: int)
    requires d > 0 && a <= b
    ensures d * a <= d * b
  {
  }

  lemma RoundBounds(completed: nat, total: nat, r: int)
    requires total > 0 && r == (200 * completed + total) / (2 * total)
    ensures 2 * total * r <= 200 * completed + total < 2 * total * (r + 1)
    ensures completed <= total ==> 0 <= r <= 100
    ensures completed == total ==> r == 100
    ensures completed == 0 ==> r == 0
  {
    var d, x := 2 * total, 200 * completed + total;
    var m := x % d;
    assert x == d * r + m && 0 <= m < d;
    assert d * (r + 1) == d * r + d;
    if completed <= total {
      assert x < d * 101;
      if r > 100 { MulMonotone(d, 101, r); }
      if r < 0 { MulMonotone(d, r + 1, 0); }
    }
    if completed == total {
      assert x >= d * 100;
      if r < 100 { MulMonotone(d, r + 1, 100); }
    }
    if completed == 0 {
      if r > 0 { MulMonotone(d, 1, r); }
      if r < 0 { MulMonotone(d, r + 1, 0); }
    }
  }

  /** `selectTodoStats`. */
  function Stats(todos: seq<Todo>): (r: TodoStats)
    ensures r.total == |todos|
    ensures r.completed == |CompletedOnly(todos)| && r.remaining == |Incomplete(todos)|
    ensures r.completed + r.remaining == r.total
    ensures 0 <= r.completionRate <= 100
    ensures r.total > 0 && r.remaining == 0 ==> r.completionRate == 100
    ensures r.completed == 0 ==> r.completionRate == 0
  {
    var total := |todos|;
    var completed := CountCompleted(todos);
    CompletedIncompletePartition(todos);
    TodoStats(total, completed, total - completed, CompletionRate(completed, total))
  }

  /** After "mark all complete" nothing remains and a non-empty list is
      100% done. */
  lemma StatsAfterMarkAll(todos: seq<Todo>, now: Timestamp)
    ensures Stats(MarkAllDone(todos, now)).remaining == 0
    ensures |todos| > 0 ==> Stats(MarkAllDone(todos, now)).completionRate == 100
  {
    MarkAllDoneCounts(todos, now, now);
  }
}
