# Todo application core in Dafny

This project models the logic behind a small todo application: a Next.js API over an in-memory store, with a Redux client.

The server keeps one `TodoStorage`. It holds a list of todo records, newest first, and a counter that issues ids. Its operations are add, update, delete, toggle, "delete completed" and "mark all complete". Three zod schemas describe create, update and filter input. Only `createTodoSchema` is applied: the create form validates with it (`todo/components/todo-form.tsx:20`). `updateTodoSchema` and `todoFiltersSchema` are declared but applied nowhere. No route calls a schema: the POST route does its own blank-title check, and the update route stores the body unchecked.

On the client:

- A `todos` slice mirrors the server list and a `ui` slice holds the filter criteria.
- Selectors derive the filtered, sorted view and the statistics.
- The page has its own inline view, counters, list updaters and batch buttons.

Where the source updates state in place (the store, both slices), the model is a class with `modifies` clauses. Each method states its whole new state, either through the ghost `Value()` snapshot or field by field. Pure derivations (selectors, schemas, the page's computations) are functions with lemmas about them.

The modules follow the source:

- `Storage` (the store);
- `Selectors`;
- `TodoSlice` and `UiSlice`;
- `Validation` (the schemas);
- `TodosRoute`, `CompletedRoute` and `CompleteAllRoute` (the three routes);
- `Page`;
- `Ordering` (the comparator and the stable sort shared by the selector and the page);
- `TodoLists`, `Seqs` and `Text`: list and string helpers, with the string helpers standing in for the JavaScript built-ins.

`Sync` shows that create, toggle, "delete completed" and "mark all complete", each followed by the reducer that handles its response, leave the client list equal to the store. So do delete and update, under conditions. For delete, this holds when the stored ids are distinct, because the store removes the first match and the client removes every match. For update, it holds when the patch carries no id or the record's own id. `Scenarios` walks the store through a typical session.

Time is an abstract `now: nat` passed to every operation that stamps a record; ISO strings compare like these numbers. Ids are the decimal strings of the store's counter.

Two places in the code do not keep the guarantees the rest of the code relies on. The model follows the code as written in both:

- The POST route (`todo/app/api/todos/route.ts:29`) and the page (`todo/app/page.tsx:70`) both refuse a whitespace-only title. The create schema (`todo/lib/validations/todo.ts:4`) measures the title before trimming it, so it accepts one: see Findings.
- `updateTodo` (`todo/lib/storage.ts:25-35`) spreads any `Partial<Todo>` over the record, including `createdAt` and `id`. So the store does not keep `updatedAt >= createdAt`. `Storage.Merge` models the spread as written. Id uniqueness is proved for patches that carry no id or the record's own id.

Lengths in the schemas are counted in UTF-16 code units, as JavaScript counts them (`Text.Utf16Length`). Everywhere else a string is a sequence of Unicode scalar values.

## Model

| member | source | states |
|---|---|---|
| Text.LeadingWhitespace | todo/app/api/todos/route.ts:29 | the prefix it counts is all whitespace and the next character is not |
| Text.Trim | todo/app/api/todos/route.ts:29-41 | the result is a contiguous slice of the input with only whitespace cut off on either side, and its ends are not whitespace |
| Text.TrailingWhitespace | todo/app/api/todos/route.ts:29 | the suffix it counts is all whitespace and the character before it is not |
| Text.TrimSpec | todo/app/api/todos/route.ts:29 | `trim()` yields "" exactly for all-whitespace input |
| Text.TrimIdempotent | todo/app/api/todos/route.ts:41 | trimming an already trimmed string changes nothing |
| Text.LowerChar | todo/lib/redux/selectors.ts:23 | an upper-case letter maps to the lower-case letter 32 code points above it; everything else is unchanged |
| Text.ToLower | todo/lib/redux/selectors.ts:23 | same length, character-wise lowering, no upper-case letter left |
| Text.ToLowerIdempotent | todo/lib/redux/selectors.ts:23 | lowering twice is lowering once |
| Text.Includes | todo/lib/redux/selectors.ts:23 | a string only includes strings no longer than itself |
| Text.Utf16Length | todo/lib/validations/todo.ts:4-5 | a string's JavaScript length: one unit per character below U+10000 and two per character above, so between its character count and twice that, 0 only for the empty string |
| Text.IncludesAt | todo/lib/redux/selectors.ts:23 | `includes` holds exactly when the term occurs at some index |
| Text.IncludesEmpty | todo/app/page.tsx:134 | every string includes the empty string |
| Text.LocaleCompare | todo/lib/redux/selectors.ts:41 | the result is -1, 0 or 1, and 0 exactly for equal strings |
| Text.LocaleCompareFlip | todo/lib/redux/selectors.ts:41 | swapping the operands negates the result |
| Text.LocaleCompareTransitive | todo/lib/redux/selectors.ts:41 | "not after" is transitive |
| Text.DigitChar | todo/lib/storage.ts:16 | a digit d below ten becomes the character d places after '0' |
| Text.DecimalString | todo/lib/storage.ts:16 | `toString()` of a counter is non-empty, all digits, denotes the counter's value, and has no leading zero |
| Text.DecimalStringInjective | todo/lib/storage.ts:16 | different counter values give different ids |
| TodoTypes.ParseSortBy | todo/lib/redux/selectors.ts:35-46 | exactly the four named modes are recognised; any other string falls to the `default` case |
| Seqs.Filter | todo/lib/redux/selectors.ts:21-31 | `filter` keeps exactly the elements that pass, never more of any element than the input has |
| Seqs.FilterCons | todo/lib/redux/selectors.ts:21-31 | filtering a list that starts with x keeps x exactly when x passes |
| Seqs.FilterAppend | todo/lib/redux/selectors.ts:21-31 | filtering distributes over concatenation |
| Seqs.FilterAll | todo/lib/redux/selectors.ts:20-26 | a filter every element passes is the identity |
| Seqs.FilterCount | todo/lib/redux/selectors.ts:21-31 | each element's multiplicity is kept or dropped as a whole |
| Seqs.FilterPartition | todo/lib/redux/selectors.ts:52-55 | complementary filters split the list's length |
| Seqs.FilterDropOne | todo/lib/storage.ts:37-43 | filtering out one failing element among passing ones is removing it |
| Seqs.FilterSame | todo/app/page.tsx:134 | filters that agree on the elements give the same result |
| TodoLists.CountCompleted | todo/lib/redux/selectors.ts:54 | the completed count is at most the total; it is 0 exactly when nothing is done and equals the total exactly when everything is |
| TodoLists.NoneCompleted | todo/lib/redux/selectors.ts:66 | the completed selection is empty exactly when nothing is done |
| TodoLists.AllCompleted | todo/lib/redux/selectors.ts:66 | the completed selection is the whole list exactly when everything is done |
| TodoLists.FiltersUniform | todo/lib/redux/selectors.ts:66-68 | every selected completed record is completed, and every selected incomplete record is incomplete |
| TodoLists.CompletedOnly | todo/lib/redux/selectors.ts:66 | exactly the completed records, each with its multiplicity in the list |
| TodoLists.Incomplete | todo/lib/redux/selectors.ts:68 | exactly the incomplete records, each with its multiplicity in the list |
| TodoLists.CompletedIncompletePartition | todo/lib/redux/selectors.ts:66-68 | the completed and incomplete selections split the list, as lengths and as multisets |
| TodoLists.FindIndex | todo/lib/storage.ts:26 | `findIndex` returns -1 exactly when no record has the id, otherwise the first index that has it |
| TodoLists.FindById | todo/lib/redux/selectors.ts:70-71 | `find` returns nothing exactly when no record has the id, otherwise a record of the list with that id |
| TodoLists.RemoveAt | todo/lib/storage.ts:41 | `splice(i, 1)` keeps the records before i and shifts those after it down by one |
| TodoLists.WithoutId | todo/lib/redux/slices/todoSlice.ts:144 | keeps exactly the records whose id differs |
| TodoLists.ReplaceWhere | todo/app/page.tsx:85-87 | same length; every record with the id is replaced and the others stay |
| TodoLists.MarkAllDone | todo/lib/storage.ts:63-70 | same records in the same order, all completed and stamped with `now`, other fields unchanged |
| TodoLists.MarkAllDoneCounts | todo/lib/storage.ts:63-70 | after marking all done, every record is completed and none is incomplete; doing it again changes no flag |
| TodoLists.FilterKeepsDistinctIds | todo/lib/storage.ts:57-61 | filtering keeps ids distinct |
| TodoLists.RemoveFirstIsWithoutId | todo/lib/storage.ts:37-43 | with distinct ids, the store's splice at `findIndex` is the client's `filter(id !==)` |
| TodoLists.ReplaceWhereIsReplaceFirst | todo/lib/redux/slices/todoSlice.ts:149-155 | with distinct ids, replacing every match is replacing the first match |
| Ordering.InOrderMeaning | todo/lib/redux/selectors.ts:34-47 | each mode's comparator puts newer, older, alphabetically earlier or completed records first; the default case orders nothing |
| Ordering.Compare | todo/lib/redux/selectors.ts:34-47 | per mode, the comparator's sign: newer first, older first, alphabetical by title, completed first; 0 exactly for ties; 0 for an unknown mode |
| Ordering.CompareTotal | todo/lib/redux/selectors.ts:34-47 | of any two records, one may precede the other |
| Ordering.CompareTransitive | todo/lib/redux/selectors.ts:34-47 | "may precede" is transitive in every mode |
| Ordering.Insert | todo/lib/redux/selectors.ts:34 | inserting adds exactly one element |
| Ordering.Sort | todo/lib/redux/selectors.ts:34 | sorting is a permutation |
| Ordering.InsertSorted | todo/lib/redux/selectors.ts:34 | inserting into a sorted list keeps it sorted |
| Ordering.SortSorted | todo/lib/redux/selectors.ts:34-47 | the sort's output obeys the comparator for every pair |
| Ordering.SortOfSorted | todo/lib/redux/selectors.ts:34 | stability: a list already in order is returned unchanged |
| Ordering.SortUnrecognised | todo/lib/redux/selectors.ts:44-45 | an unrecognised mode leaves the list in its original order |
| Ordering.InsertAfterRun | todo/lib/redux/selectors.ts:34 | an element goes after the run that must precede it |
| Ordering.InsertCompletedFirst | todo/lib/redux/selectors.ts:42-43 | under "completed", a completed record goes in front and an incomplete one goes between the groups |
| Ordering.SortCompletedFirst | todo/lib/redux/selectors.ts:42-43 | "completed" sorting is the completed records then the incomplete ones, each group in original order |
| Storage.Merge | todo/lib/storage.ts:29-33 | each field comes from the patch when given, else from the record; `updatedAt` is always `now` |
| Storage.Toggled | todo/lib/storage.ts:49-53 | negates `completed`, stamps `updatedAt`, keeps everything else |
| Storage.ToggleTwice | todo/lib/storage.ts:45-55 | toggling twice restores the record apart from its timestamp |
| Storage.MergeEmpty | todo/lib/storage.ts:29-33 | an empty patch only re-stamps the record |
| Storage.IssueNext | todo/lib/storage.ts:16-20 | issuing the counter's value yields an id not issued before, and the issued set grows by exactly that id |
| Storage.TodoStorage.constructor | todo/lib/storage.ts:6-7 | the store starts empty with counter 1 and no id issued |
| Storage.TodoStorage.GetTodos | todo/lib/storage.ts:9-11 | returns the stored list |
| Storage.TodoStorage.AddTodo | todo/lib/storage.ts:13-23 | new record in front with id `String(nextId)`, fields from the draft, both stamps `now`; the counter advances; the id was never issued before; ids stay distinct and issued; newest-first order is kept under a monotone clock |
| Storage.TodoStorage.UpdateTodo | todo/lib/storage.ts:25-35 | unknown id: null, nothing changes; otherwise the first match is replaced by the merge and returned; ids stay distinct and issued when the patch has no id or the record's own id |
| Storage.TodoStorage.DeleteTodo | todo/lib/storage.ts:37-43 | unknown id: false, nothing changes; otherwise true and the first match is spliced out |
| Storage.TodoStorage.ToggleTodo | todo/lib/storage.ts:45-55 | unknown id: null; otherwise the first match is toggled in place and returned |
| Storage.TodoStorage.DeleteCompleted | todo/lib/storage.ts:57-61 | only incomplete records remain, in order; the result is the number removed, which is the completed count |
| Storage.TodoStorage.MarkAllComplete | todo/lib/storage.ts:63-70 | every record completed and re-stamped; the new list is returned |
| Selectors.FilteredTodos | todo/lib/redux/selectors.ts:16-50 | a record is shown exactly when it matches the search and is not a hidden completed one; the view is a permutation of the filtered records, sorted by the chosen comparator |
| Selectors.MatchesSearch | todo/lib/redux/selectors.ts:21-25 | a record matches exactly when the lower-cased term occurs in its lower-cased title or in its non-empty description |
| Selectors.SearchStep | todo/lib/redux/selectors.ts:20-26 | an empty term keeps the list; otherwise exactly the matching records remain, never more of one than before |
| Selectors.CompletedStep | todo/lib/redux/selectors.ts:29-31 | with completed shown the list is kept; otherwise exactly the incomplete records remain, each with its multiplicity |
| Selectors.HiddenCompletedNotShown | todo/lib/redux/selectors.ts:29-31 | with `showCompleted` off, no completed record is shown |
| Selectors.UnfilteredViewIsPermutation | todo/lib/redux/selectors.ts:20-31 | with no search and completed shown, the view holds every record exactly once |
| Selectors.DefaultViewOfNewestFirst | todo/lib/redux/selectors.ts:36-37 | the default filters show a newest-first store list as it is |
| Selectors.ViewOrder | todo/lib/redux/selectors.ts:34-47 | any two shown records stand in comparator order |
| Selectors.UnrecognisedModeKeepsOrder | todo/lib/redux/selectors.ts:44-45 | an unknown mode shows the filtered records in their stored order |
| Selectors.CompletionRate | todo/lib/redux/selectors.ts:56 | the rate is the percentage rounded half up, 0 for an empty list, within 0..100, 100 when all are done |
| Selectors.RoundBounds | todo/lib/redux/selectors.ts:56 | the rounded rate lies within half a point of the exact percentage |
| Selectors.Stats | todo/lib/redux/selectors.ts:52-64 | total is the length, completed and remaining are the two selections and add up to the total, and the rate is in range |
| Selectors.StatsAfterMarkAll | todo/lib/storage.ts:63-70 | after "mark all complete" nothing remains and a non-empty list is at 100 % |
| TodoSlice.TodoState.constructor | todo/lib/redux/slices/todoSlice.ts:12-17 | the initial state: no records, not loading, no error, never updated |
| TodoSlice.TodoState.ClearError | todo/lib/redux/slices/todoSlice.ts:93-95 | only the error is cleared |
| TodoSlice.TodoState.SetTodos | todo/lib/redux/slices/todoSlice.ts:96-99 | the list is replaced and stamped; nothing else changes |
| TodoSlice.TodoState.Pending | todo/lib/redux/slices/todoSlice.ts:104-107 | loading on and error cleared, nothing else |
| TodoSlice.TodoState.Rejected | todo/lib/redux/slices/todoSlice.ts:113-116 | loading off and the error set, nothing else |
| TodoSlice.TodoState.FetchFulfilled | todo/lib/redux/slices/todoSlice.ts:108-112 | loading off, list replaced by the payload, stamped |
| TodoSlice.TodoState.CreateFulfilled | todo/lib/redux/slices/todoSlice.ts:123-127 | loading off, the created record in front of the old list, stamped |
| TodoSlice.TodoState.ReplaceFulfilled | todo/lib/redux/slices/todoSlice.ts:134-140 | unknown id: the whole state is untouched; otherwise the first match is replaced and the state stamped |
| TodoSlice.TodoState.UpdateFulfilled | todo/lib/redux/slices/todoSlice.ts:134-140 | as ReplaceFulfilled |
| TodoSlice.TodoState.ToggleFulfilled | todo/lib/redux/slices/todoSlice.ts:149-155 | as ReplaceFulfilled |
| TodoSlice.TodoState.DeleteFulfilled | todo/lib/redux/slices/todoSlice.ts:143-146 | exactly the records with another id remain; stamped |
| TodoSlice.TodoState.DeleteCompletedFulfilled | todo/lib/redux/slices/todoSlice.ts:158-161 | only the incomplete records remain; stamped |
| TodoSlice.TodoState.MarkAllCompleteFulfilled | todo/lib/redux/slices/todoSlice.ts:164-167 | the server's list replaces the local one; stamped |
| UiSlice.MergeFilters | todo/lib/redux/slices/uiSlice.ts:35-37 | each given field overrides, each missing one is kept |
| UiSlice.MergeFiltersLaws | todo/lib/redux/slices/uiSlice.ts:35-37 | merging is idempotent, an empty patch changes nothing, a full patch replaces everything |
| UiSlice.UiState.constructor | todo/lib/redux/slices/uiSlice.ts:11-20 | empty search, newest first, completed shown, not loading, system theme, sidebar closed |
| UiSlice.UiState.SetSearch | todo/lib/redux/slices/uiSlice.ts:26-28 | only the search term changes |
| UiSlice.UiState.SetSortBy | todo/lib/redux/slices/uiSlice.ts:29-31 | only the sort mode changes |
| UiSlice.UiState.SetShowCompleted | todo/lib/redux/slices/uiSlice.ts:32-34 | only the completed flag changes |
| UiSlice.UiState.SetFilters | todo/lib/redux/slices/uiSlice.ts:35-37 | the filters become the merge; nothing else changes |
| UiSlice.UiState.SetLoading | todo/lib/redux/slices/uiSlice.ts:38-40 | only the loading flag changes |
| UiSlice.UiState.SetTheme | todo/lib/redux/slices/uiSlice.ts:41-43 | only the theme changes |
| UiSlice.UiState.ToggleSidebar | todo/lib/redux/slices/uiSlice.ts:44-46 | only the sidebar flag flips |
| UiSlice.UiState.ResetFilters | todo/lib/redux/slices/uiSlice.ts:47-49 | the filters return to their initial value; nothing else changes |
| Validation.TitleIssues | todo/lib/validations/todo.ts:4 | no issue exactly for UTF-16 lengths 1..200; the "required" message for empty, the "less than 200" message above 200 |
| Validation.ParseTitle | todo/lib/validations/todo.ts:4 | a string title is accepted exactly when its untrimmed UTF-16 length is 1..200, and the trimmed string is kept |
| Validation.ParseOptional | todo/lib/validations/todo.ts:5 | an absent optional field passes; a present one is checked |
| Validation.ParseDescription | todo/lib/validations/todo.ts:5 | a string of at most 500 UTF-16 code units passes unchanged |
| Validation.ParseBool | todo/lib/validations/todo.ts:11 | only a boolean passes |
| Validation.ParseString | todo/lib/validations/todo.ts:15 | only a string passes |
| Validation.ParseSortMode | todo/lib/validations/todo.ts:16 | exactly the four modes pass, and never as an unrecognised mode |
| Validation.CreateTodoSchema | todo/lib/validations/todo.ts:3-6 | accepted exactly when the title and optional description pass; the title is trimmed; each failed check reports its message |
| Validation.UpdateTodoSchema | todo/lib/validations/todo.ts:8-12 | accepted exactly when every present field passes; an accepted title is the trimmed one, an accepted description and completed flag are the given ones; absent fields stay absent |
| Validation.UpdateTitleAsCreate | todo/lib/validations/todo.ts:4-9 | an update title obeys the create rules and is trimmed the same way |
| Validation.TodoFiltersSchema | todo/lib/validations/todo.ts:14-18 | accepted exactly when each present field has the right type or mode; the accepted search, mode and flag are the given ones, absent fields stay absent |
| Validation.TitleLengthBoundary | todo/lib/validations/todo.ts:4 | a title of n plain characters passes exactly when 1 <= n <= 200; above 200 it fails with the length message only |
| Validation.AstralTitleBoundary | todo/lib/validations/todo.ts:4 | a title of n emoji (two code units each) passes exactly when 1 <= n <= 100; above 100 it fails with the length message only |
| Validation.BlankTitleParsed | todo/lib/validations/todo.ts:4 | as written, the title "   " parses to the empty title |
| Validation.BlankTitleAccepted | todo/lib/validations/todo.ts:4 | as written, "   " is accepted by the create schema and becomes the empty title |
| Validation.ParseTitleTrimFirst | todo/lib/validations/todo.ts:4 | trimming first: accepted exactly when the trimmed length is 1..200 |
| Validation.CreateTodoSchemaTrimFirst | todo/lib/validations/todo.ts:3-6 | the create schema with the title trimmed before it is measured |
| Validation.TrimFirstTitleNeverBlank | todo/lib/validations/todo.ts:4 | trimming first, an accepted title is non-empty and unpadded, and a blank one is refused as required |
| TodosRoute.BlankTitle | todo/app/api/todos/route.ts:29 | the guard fires exactly for a missing or all-whitespace title |
| TodosRoute.DescriptionOrEmpty | todo/app/api/todos/route.ts:42 | a missing description is stored as "" |
| TodosRoute.Get | todo/app/api/todos/route.ts:5-23 | 200 with the store's list and the success message |
| TodosRoute.Post | todo/app/api/todos/route.ts:25-64 | blank title: 400 "Title is required" and the store untouched; otherwise 201 with the new record, trimmed title, description or "", not completed |
| CompletedRoute.DeletedMessage | todo/app/api/todos/completed/route.ts:10 | the message is the decimal digits of the count, denoting the count, followed by the fixed suffix |
| CompletedRoute.DeletedMessageInjective | todo/app/api/todos/completed/route.ts:10 | different counts give different messages |
| CompletedRoute.Delete | todo/app/api/todos/completed/route.ts:4-23 | only incomplete records remain; the message carries the number of completed records removed |
| CompleteAllRoute.Patch | todo/app/api/todos/complete-all/route.ts:4-23 | every record completed and re-stamped; the response carries the new list |
| Page.FilteredAndSortedTodos | todo/app/page.tsx:133-152 | a record is shown exactly when its lower-cased title includes the lower-cased term; the view is a permutation of those records, sorted by the comparator for `sortBy` |
| Page.TitleMatches | todo/app/page.tsx:134 | a record matches exactly when the lower-cased term occurs in its lower-cased title |
| Page.EmptySearchKeepsAll | todo/app/page.tsx:134 | an empty search shows every record |
| Page.AgreesWithSelector | todo/app/page.tsx:133-152 | without descriptions, the page view equals the selector view with completed records shown |
| Page.RemainingCount | todo/app/page.tsx:154-155 | "Remaining" (total minus completed, line 245) is the number of incomplete records |
| Page.TitleToSend | todo/app/page.tsx:69-73 | nothing is sent for a blank title; otherwise the trimmed, non-empty title |
| Page.SentTitleAccepted | todo/app/page.tsx:73 | a title the page sends passes the route's blank check and is stored unchanged |
| Page.AfterCreate | todo/app/page.tsx:74 | the created record in front of the previous list |
| Page.AfterToggle | todo/app/page.tsx:85-87 | records with the id become the server's record; the others stay |
| Page.AfterDelete | todo/app/page.tsx:98 | exactly the records with another id remain |
| Page.AfterDeleteCompleted | todo/app/page.tsx:109 | the list becomes the incomplete selection of the previous one: the same incomplete records with the same multiplicities, none completed, as many as were not completed |
| Page.BatchActions | todo/app/page.tsx:342-359 | the buttons appear exactly for a non-empty list; "Mark All Complete" is disabled exactly when all are done, "Delete Completed" exactly when none is |
| Sync.Create | todo/lib/redux/slices/todoSlice.ts:123-127 | after a create on both sides, the client list equals the store's |
| Sync.Toggle | todo/lib/redux/slices/todoSlice.ts:149-155 | after a toggle on both sides, the client list equals the store's, and issued ids stay issued |
| Sync.Update | todo/lib/redux/slices/todoSlice.ts:134-140 | after an update by a patch with no id or the record's own id, the client list equals the store's, and issued ids stay issued |
| Sync.Delete | todo/lib/redux/slices/todoSlice.ts:143-146 | with distinct ids, after a delete on both sides the client list equals the store's |
| Sync.DeleteCompleted | todo/lib/redux/slices/todoSlice.ts:158-161 | after "delete completed" on both sides, the lists agree |
| Sync.MarkAllComplete | todo/lib/redux/slices/todoSlice.ts:164-167 | after "mark all complete" on both sides, the lists agree and are all completed |
| Scenarios.OneOfTwoDone | todo/lib/redux/selectors.ts:52-64 | one open and one done record give 2 total, 1 completed, 1 remaining, 50 % |
| Scenarios.AddToggleClear | todo/lib/storage.ts:13-61 | add two, toggle the first, and the stats are 2/1/1/50 %; "delete completed" removes one, leaving only the open "Walk dog" record with id "2" |
| Scenarios.ToggleTwice | todo/lib/storage.ts:45-55 | toggling a record twice restores every completion flag |
| Scenarios.MarkAllTwice | todo/lib/storage.ts:63-70 | marking all complete twice is the same as marking once, at the later time |

## Left out

- The network client (`lib/api.ts`), the async thunks' request side, react-query hooks, toasts and all rendering are not part of this model. The reducers' handling of thunk results is modelled; the requests themselves are not.
- Clocks: `new Date().toISOString()` becomes a `now: nat` parameter. Comparing dates becomes comparing these numbers.
- Text.LocaleCompare: `localeCompare` is modelled as lexicographic order on Unicode scalar values. Locale collation is not modelled, and neither is the UTF-16 code-unit order, which places characters above U+FFFF differently relative to U+E000..U+FFFF.
- `toLowerCase` lowers ASCII letters only (Text.ToLower).
- `trim` strips a fixed set of whitespace characters (Text.IsWhitespace). This is not the whole Unicode White_Space and line-terminator class.
- Selectors.CompletionRate: `Math.round(completed / total * 100)` is computed exactly, with no floating-point rounding error.
- Ordering.Sort: the sort is a stable insertion sort over a sequence. In-place mutation of the array and the `createSelector` memoisation are not modelled. Stability is stated for already-sorted input, the unrecognised mode and the completed-first mode only.
- Storage.TodoStorage.GetTodos returns the list as a value. That callers can mutate the store through the returned array (aliasing) is not modelled.
- The `catch` branches of the three routes (status 500) are left out, along with `NextResponse` plumbing. None of the modelled store operations throws. POST's 500 branch is still reachable: a body that is not valid JSON makes `request.json()` throw, and a truthy title that is not a string makes `.trim()` throw. Neither case is modelled.
- TodosRoute.Post: a title or description of the wrong JSON type is not modelled. The request fields are optional strings.
- The `[id]` routes (GET, PUT, DELETE on one todo, and toggle) are not part of this model. The store operations they call are modelled.
- Storage.TodoStorage.UpdateTodo: id uniqueness is proved only when the patch carries no id or the record's own id, because the spread lets a patch overwrite `id`.
- Storage.TodoStorage.AddTodo: one `now` stands for the two clock reads at `todo/lib/storage.ts:17-18`, so the new record's `createdAt == updatedAt` is idealised; the two reads may differ by a tick.
- Storage.TodoStorage.AddTodo: `nextId` is an unbounded natural. In the source it is a JavaScript number, which stops growing past 2^53, after which ids repeat; id uniqueness holds only below that bound.
- TodoLists.MarkAllDone: one `now` stamps every record, whereas the source reads the clock once per record (`todo/lib/storage.ts:64-68`), so the stamps may differ across the list.
- Sync.Update: a patch that carries a different id is not covered. The store then stores the record under the new id, and the lists need not agree.
- `updatedAt >= createdAt` is not an invariant of the store, because a patch may set `createdAt`.

## Findings

| source | as written | input that shows it | evidently intended | confidence | as-written member | corrected member |
|---|---|---|---|---|---|---|
| todo/lib/validations/todo.ts:4 | `.min(1)` and `.max(200)` run before `.trim()`, so they measure the untrimmed title | title `"   "` is accepted and becomes the empty title `""` | trim before measuring, so a blank title is refused with "Title is required" | medium, not executed | Validation.BlankTitleAccepted | Validation.TrimFirstTitleNeverBlank |
