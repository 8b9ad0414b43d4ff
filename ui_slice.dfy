/**
 * The `ui` redux slice: the filter criteria fed to the view selector, the
 * theme, the global loading flag and the sidebar flag.
 */
module UiSlice {
  import opened Wrappers
  import opened TodoTypes

  datatype Theme = Light | Dark | System

  datatype UiStateValue = UiStateValue(filters: TodoFilters, isLoading: bool, theme: Theme, sidebarOpen: bool)

  const InitialFilters := TodoFilters("", Newest, true)

  const InitialUi := UiStateValue(InitialFilters, false, System, false)

  /** `{...filters, ...patch}`: supplied criteria win, the others stay. */
  function MergeFilters(f: TodoFilters, patch: FiltersPatch): (r: TodoFilters)
    ensures r.search == if patch.search.Some? then patch.search.value else f.search
    ensures r.sortBy == if patch.sortBy.Some? then patch.sortBy.value else f.sortBy
    ensures r.showCompleted == if patch.showCompleted.Some? then patch.showCompleted.value else f.showCompleted
  {
    TodoFilters(patch.search.GetOr(f.search), patch.sortBy.GetOr(f.sortBy), patch.showCompleted.GetOr(f.showCompleted))
  }

  /** Merging is idempotent, an empty patch is the identity, and a full
      patch replaces the criteria outright. */
  lemma MergeFiltersLaws(f: TodoFilters, patch: FiltersPatch)
    ensures MergeFilters(MergeFilters(f, patch), patch) == MergeFilters(f, patch)
    ensures MergeFilters(f, FiltersPatch(None, None, None)) == f
    ensures patch.search.Some? && patch.sortBy.Some? && patch.showCompleted.Some? ==>
      MergeFilters(f, patch) == TodoFilters(patch.search.value, patch.sortBy.value, patch.showCompleted.value)
  {
  }

  class UiState {
    var filters: TodoFilters
    var isLoading: bool
    var theme: Theme
    var sidebarOpen: bool

    ghost function Value(): UiStateValue
      reads this
    {
      UiStateValue(filters, isLoading, theme, sidebarOpen)
    }

    /** `initialState` */
    constructor ()
      ensures Value() == InitialUi
    {
      filters := InitialFilters;
      isLoading := false;
      theme := System;
      sidebarOpen := false;
    }

    method SetSearch(search: string)
      modifies this
      ensures Value() == old(Value()).(filters := old(filters).(search := search))
    {
      filters := filters.(search := search);
    }

    method SetSortBy(sortBy: SortBy)
      modifies this
      ensures Value() == old(Value()).(filters := old(filters).(sortBy := sortBy))
    {
      filters := filters.(sortBy := sortBy);
    }

    method SetShowCompleted(showCompleted: bool)
      modifies this
      ensures Value() == old(Value()).(filters := old(filters).(showCompleted := showCompleted))
    {
      filters := filters.(showCompleted := showCompleted);
    }

    method SetFilters(patch: FiltersPatch)
      modifies this
      ensures Value() == old(Value()).(filters := MergeFilters(old(filters), patch))
    {
      filters := MergeFilters(filters, patch);
    }

    method SetLoading(isLoading: bool)
      modifies this
      ensures Value() == old(Value()).(isLoading := isLoading)
    {
      this.isLoading := isLoading;
    }

    method SetTheme(theme: Theme)
      modifies this
      ensures Value() == old(Value()).(theme := theme)
    {
      this.theme := theme;
    }

    method ToggleSidebar()
      modifies this
      ensures Value() == old(Value()).(sidebarOpen := !old(sidebarOpen))
    {
      sidebarOpen := !sidebarOpen;
    }

    method ResetFilters()
      modifies this
      ensures Value() == old(Value()).(filters := InitialFilters)
    {
      filters := InitialFilters;
    }
  }
}
