# To-do list controller: a Dafny model

This project models the controller of a browser to-do list widget (`js/script.js`). The controller
keeps an ordered collection of tasks `{id, text, date, completed}` (`date` may be empty), a
status filter (`currentFilter`) and a search term (`searchText`). It offers four mutations:
add, toggle-complete, delete and clear-all. After every mutation it re-runs `renderTodos`:
status filter, case-insensitive search, sort by due date, per-task urgency classification
and the empty-state decision.

Modules, in dependency order:

- `Tasks` (`tasks.dfy`): the task record. Dates are day numbers, and `NoDate` stands for the
  empty date field. It also defines the display order on dates.
- `Seqs` (`seqs.dfy`): `filter` on sequences, and the subsequence relation.
- `Text` (`text.dfy`): `trim`, ASCII `toLowerCase` and `includes`.
- `Pipeline` (`pipeline.dfy`): the view pipeline. The status filter and the search are functions.
  The sort is an in-place insertion sort on an `array`. The `forEach` classification loop is a
  method that sets its flags step by step and is proved against the function `ItemOf`.
- `Store` (`store.dfy`): the store mutations on list values (`Added`, `ToggleFirst`,
  `DeleteById`) and their laws.
- `App` (`app.dfy`): class `TodoApp`. It holds `todos: array<Task>`, `currentFilter` and
  `searchText`. Its methods mirror the handlers, and each handler ends with `Render`, as the
  source does.

JavaScript arrays are references, so the model keeps `todos` as an `array`. When the filter is
neither `pending` nor `completed` and the search is empty, `filteredTodos` is `todos` itself
(js/script.js:72). In that case `Render` sorts the store's own array in place. `Render`'s
contract says the store then holds the displayed order, which is in date order and a
permutation of what it held before. In every other case the store is untouched. So after an add
or a toggle under filter `all` with no search, the store is re-sorted. `AddTodo`'s "appended
last" holds for the list as it stands before that render.

The current day (`today`, already truncated to a day number), the fresh id and the outcome of
the confirmation dialog are parameters.

## Model

| member | source | states |
|---|---|---|
| `Seqs.Filter` | js/script.js:74-76 | the filtered list is no longer than the input, and every element kept satisfies the predicate |
| `Seqs.FilterIsSubseq` | js/script.js:72-84 | a filter result is a subsequence of its input: it keeps the surviving elements in their original relative order |
| `Seqs.FilterCount` | js/script.js:74-76 | each element satisfying the predicate is kept exactly as often as it occurs; no other element is kept |
| `Seqs.FilterMembership` | js/script.js:74-76 | an element is in the result iff it is in the input and satisfies the predicate |
| `Seqs.FilterPartition` | js/script.js:73-77 | filtering by a predicate and by its complement splits the input with no overlap and no omission (as multisets and in length) |
| `Text.TrimStart` | js/script.js:45 | drops leading whitespace: the result is a suffix, the dropped characters are white space, and the result does not start with white space |
| `Text.TrimEnd` | js/script.js:45 | drops trailing whitespace: the result is a prefix, the dropped characters are white space, and the result does not end with white space |
| `Text.Trim` | js/script.js:45 | `trim`: `TrimStart` then `TrimEnd`; its laws are `Text.TrimIsSlice` and `Text.TrimEmptyIff` |
| `Text.TrimIsSlice` | js/script.js:45 | `trim` returns a contiguous slice of the input, everything cut off is white space, and the slice neither starts nor ends with white space |
| `Text.TrimEmptyIff` | js/script.js:45-51 | the trimmed text is empty iff the input is empty or white space only |
| `Text.LowerChar` | js/script.js:25 | the result is never an upper-case ASCII letter; A-Z move down by 32, and every other character is kept (ASCII only: weaker than `toLowerCase`, see "Left out") |
| `Text.Lower` | js/script.js:25 | lowercasing keeps the length and maps each character on its own |
| `Text.LowerIdempotent` | js/script.js:25 | lowercasing a lowercased string changes nothing (the search term is stored lowercased and compared with lowercased text) |
| `Text.Contains` | js/script.js:82 | `includes`: the term is a prefix of the text or of some suffix of it; its law is `Text.ContainsIff` |
| `Text.ContainsIff` | js/script.js:82 | `includes` holds iff the term occurs at some position of the text |
| `Tasks.DateOrderedMeans` | js/script.js:87-91 | the date order means: no undated task precedes a dated one, and dated tasks are in non-decreasing date order |
| `Pipeline.StatusFilter` | js/script.js:72-77 | step 1: `pending` filters by `!completed`, `completed` by `completed`, any other value returns the store itself; laws in `Pipeline.StatusFilterIsSubseq`, `StatusFilterKeeps`, `StatusFilterPartition` |
| `Pipeline.Search` | js/script.js:80-84 | step 2: an empty term returns its input; otherwise keeps the tasks whose lowercased text `includes` the term; laws in `Pipeline.SearchKeeps`, `SearchIsSubseq` |
| `Pipeline.Visible` | js/script.js:72-84 | `filteredTodos` before the sort: the search applied to the status filter's result; laws in `Pipeline.VisibleKeeps`, `VisibleIsSubseq`, `AliasedVisibleIsStore` |
| `Pipeline.StatusFilterIsSubseq` | js/script.js:72-77 | the status filter returns a subsequence of the store |
| `Pipeline.StatusFilterKeeps` | js/script.js:72-77 | `pending` keeps exactly the open tasks, `completed` exactly the finished ones, and any other value keeps every task, each as often as it occurs |
| `Pipeline.StatusFilterPartition` | js/script.js:73-77 | the `pending` and `completed` views partition the store |
| `Pipeline.SearchKeeps` | js/script.js:80-84 | a non-empty search keeps exactly the tasks whose lowercased text contains the term; an empty search keeps everything |
| `Pipeline.SearchIsSubseq` | js/script.js:80-84 | the search returns a subsequence of its input |
| `Pipeline.VisibleIsSubseq` | js/script.js:72-84 | filter then search yields a subsequence of the store |
| `Pipeline.VisibleKeeps` | js/script.js:72-84 | filter then search keeps exactly the tasks the filter admits and the search matches, each as often as in the store |
| `Pipeline.AliasedVisibleIsStore` | js/script.js:72 | with filter `all` and no search, the list to be sorted is the store itself |
| `Pipeline.CompareAsWritten` | js/script.js:87-91 | the comparator as written: 1 when the first task is undated, else -1 when the second is undated, else the difference of the day numbers; its flaw is `Pipeline.CompareAsWrittenInconsistent` |
| `Pipeline.CompareAsWrittenInconsistent` | js/script.js:87-91 | the comparator as written rates each of two undated tasks greater than the other |
| `Pipeline.Compare` | js/script.js:87-91 | the corrected comparator is at most 0 iff the first task goes no later than the second in date order |
| `Pipeline.CompareConsistent` | js/script.js:87-91 | the corrected comparator is antisymmetric and transitive, and it agrees with the source's comparator except on two undated tasks |
| `Pipeline.SortByDate` | js/script.js:87-91 | the in-place sort leaves the array in date order (dated first, ascending, undated last) and a permutation of what it held |
| `Pipeline.InsertLast` | js/script.js:87-91 | one insertion step extends the date-ordered prefix by one element and keeps the contents |
| `Pipeline.UrgencyOf` | js/script.js:114-142 | a finished or undated task is not urgent; otherwise overdue iff date < today, due today iff date = today, upcoming iff today < date <= today + 3 |
| `Pipeline.LabelOf` | js/script.js:119-142 | the date text: formatted date marked overdue for an overdue task, "Today" for one due today, otherwise the formatted date, and blank without a date |
| `Pipeline.StyleOf` | js/script.js:144-173 | the look: muted when completed; otherwise overdue, today or upcoming style by urgency, and plain when not urgent |
| `Pipeline.ItemOf` | js/script.js:113-173 | one rendered item: the task with `LabelOf` and `StyleOf`; laws in `Pipeline.ItemStyling`, and `Pipeline.RenderItems` shows the loop computes it |
| `Pipeline.ItemStyling` | js/script.js:144-173 | finished tasks get the muted style and never an overdue or "Today" label; an open task's style follows its urgency, and the style is plain otherwise |
| `Pipeline.RenderItems` | js/script.js:113-173 | the `forEach` loop's flags, label and style give, for every task in order, exactly `ItemOf` that task |
| `Pipeline.EmptyStateOf` | js/script.js:94-105 | the list is shown for a non-empty visible list; otherwise the empty state, with `No tasks found for "<term>"` when a term is set and `No tasks found here.` otherwise; law in `Pipeline.ShowsEmptyState` |
| `Pipeline.ShowsEmptyState` | js/script.js:94-105 | the empty state is shown iff the visible list is empty; the message is `No tasks found for "<term>"` with a search term, and `No tasks found here.` otherwise |
| `Pipeline.RenderKeepsContents` | js/script.js:72-91 | rendering never changes what the store holds; when the store is aliased, it is left in date order |
| `Pipeline.UrgencyExamples` | js/script.js:124-142 | with today 2024-06-10: due 06-05 is overdue, 06-10 due today, 06-12 upcoming, 06-20 not urgent, and a finished task due 06-05 is muted |
| `Pipeline.SearchExample` | js/script.js:80-84 | searching "mi" among "Buy milk" and "Walk dog" keeps only "Buy milk" |
| `Store.Added` | js/script.js:45-60 | `addTodo` on the list value: trims; `None` when the trimmed text is empty; otherwise appends `Task(id, text, date, false)`; laws in `Store.AddedRejects`, `AddedAppends`, `AddedKeepsTexts` |
| `Store.AddedRejects` | js/script.js:45-51 | the add is rejected iff the text is empty or white space only |
| `Store.AddedAppends` | js/script.js:53-60 | an accepted add appends exactly one open task last, with the trimmed, non-empty text, the given date and the given id, and leaves all earlier tasks unchanged |
| `Store.FirstIndex` | js/script.js:203 | `find` yields the first index with the id, or nothing iff no task has the id |
| `Store.ToggleFirst` | js/script.js:203-216 | `toggleComplete` on the list value: flips `completed` of the task `find` yields; the list is unchanged when none has the id; laws in `Store.ToggleFirstSpec`, `ToggleTwice`, `ToggleTwicePermuted`, `ToggleUnknown`, `ToggleKeepsTexts` |
| `Store.FirstIndexByIds` | js/script.js:203 | which task `find` returns depends only on the ids |
| `Store.ToggleFirstSpec` | js/script.js:202-221 | toggling inverts `completed` on the first task with the id and changes no other task and no other field |
| `Store.ToggleTwice` | js/script.js:211-216 | toggling the same id twice on the list value, with nothing in between, restores the list |
| `Store.ToggleTwicePermuted` | js/script.js:203-218 | with unique ids, toggling an id, reordering the list in any way and toggling the id again restores the contents: every task with its flag, as often as before |
| `App.ToggleTwiceRendered` | js/script.js:202-221 | two clicks on one id with no other event between them, each followed by its render: when the first render leaves the store alone, the contents come back, and the very list too if the second render also leaves it alone; when the first render re-sorts the store, the contents come back whenever the ids are unique |
| `App.ToggleTwiceReconfigured` | js/script.js:23-38 | two clicks on one id with a filter click or a search keystroke between them, which renders too: with unique ids the contents come back, and the very list comes back when none of the three renders re-sorts the store |
| `App.ToggleTwiceRepeatedId` | js/script.js:202-221 | with a repeated id the round trip can fail: an undated and a dated task share id 1 and are stored as added under filter `pending`; a click under `pending` flips the undated one, a click on the `all` filter re-sorts the store so the dated task comes first, and a second click then flips that one, so both tasks end up completed |
| `Store.ToggleUnknown` | js/script.js:203-204 | an unknown id leaves the list unchanged |
| `Store.DeleteById` | js/script.js:230 | `deleteTodo` on the list value: `filter(t => t.id !== id)`; laws in `Store.DeleteSpec`, `DeleteSize`, `DeleteKeepsTexts` |
| `Store.DeleteSpec` | js/script.js:230 | after a delete no task has the id, so a lookup finds nothing; every other task is kept as often as before, in its original relative order |
| `Store.AddedKeepsTexts` | js/script.js:45-60 | an accepted add keeps every stored text non-empty |
| `Store.ToggleKeepsTexts` | js/script.js:211-216 | a toggle keeps every stored text non-empty |
| `Store.DeleteKeepsTexts` | js/script.js:230 | a delete keeps every stored text non-empty |
| `Store.PermutedKeepsTexts` | js/script.js:87-91 | reordering the store, as the render's sort does, keeps every stored text non-empty |
| `Store.AddedKeepsUnique` | js/script.js:53-60 | an add whose id no stored task carries keeps the ids unique |
| `Store.ToggleKeepsUnique` | js/script.js:211-216 | a toggle keeps the ids unique |
| `Store.DeleteKeepsUnique` | js/script.js:230 | a delete keeps the ids unique |
| `Store.PermutedKeepsUnique` | js/script.js:87-91 | any reordering of the store, such as the render's sort, keeps the ids unique |
| `Store.DeleteSize` | js/script.js:230 | with unique ids, a delete shrinks the list by one if the id was present, and leaves its size unchanged otherwise |
| `App.TodoApp.constructor` | js/script.js:11-13 | the store starts with the loaded list, filter `all` and an empty search; the invariant `Valid` (no stored text is empty) holds iff it holds of the loaded list |
| `App.TodoApp.Render` | js/script.js:68-173 | the view shows the visible tasks in date order, classified, with the empty-state decision; the store is re-sorted in place iff it is aliased, and otherwise untouched; `Valid` and unique ids are kept |
| `App.TodoApp.AddTodo` | js/script.js:42-62 | rejected input changes nothing and renders nothing; accepted input appends the new task and renders that list; `Valid` is kept, and unique ids too when the new id is not in use |
| `App.TodoApp.ToggleComplete` | js/script.js:202-221 | a known id flips the first matching task in place and renders; an unknown id changes nothing; `Valid` and unique ids are kept |
| `App.TodoApp.DeleteTodo` | js/script.js:223-235 | when confirmed, removes every task with the id and renders; when declined, changes nothing; `Valid` and unique ids are kept |
| `App.TodoApp.ClearAll` | js/script.js:237-243 | when confirmed, empties the store and renders; when declined, changes nothing; `Valid` and unique ids are kept |
| `App.TodoApp.SetFilter` | js/script.js:31-38 | a filter click stores its `data-filter` value and renders; `Valid` and unique ids are kept |
| `App.TodoApp.SetSearch` | js/script.js:23-28 | typing stores the lowercased input as the search term and renders; `Valid` and unique ids are kept |

## Left out

- Markup, element lookups, `innerHTML` and CSS class strings (js/script.js:2-8, 69, 175-198). These are presentation only. The styling decision is kept as the `Style` enumeration, and the date text as `DateLabel`.
- `localStorage` and `JSON.parse`/`JSON.stringify` (js/script.js:11, 245-247). These are foreign I/O. The constructor takes the loaded list as a parameter, and the persistence round trip is not modelled. Every handler requires `Valid` (no stored text is empty), which a store written only by these handlers always meets; a stored list tampered with outside the program that holds an empty text is not covered, although the source runs its handlers on it just the same.
- The event wiring (js/script.js:16-38): the listeners become the methods `AddTodo`, `SetSearch` and `SetFilter`, and the active-tab class change is presentation. The start-up `DOMContentLoaded` render (js/script.js:16) is `Render` called right after the constructor; under filter `all` with no search it re-sorts the freshly loaded store in place, as `Render`'s contract states.
- `alert` and `confirm` (js/script.js:49, 224, 238). The confirmation outcome is a boolean parameter. A rejected add returns `None` where the source shows the alert.
- The `animationend` deferral (js/script.js:205-214, 229-233). Each mutation is modelled as taking place when the callback fires. Repeated clicks during an animation are not modelled.
- Id generation with `Date.now()` and `Math.random()` (js/script.js:54). The id is a parameter, and its uniqueness is not enforced. `Store.DeleteSize` and `App.ToggleTwiceRendered` assume unique ids. Every handler and `Render` keeps the ids unique, provided `AddTodo` gets an id no stored task carries.
- `Date` parsing, `setHours` time-zone effects and `toLocaleDateString` formatting (js/script.js:90, 114-129). Dates are day numbers, and `today` is one parameter for the whole render. The source recomputes it for each item, which matters only across midnight.
- The engine's sort algorithm. The model sorts by insertion with the corrected comparator. It proves date order and permutation, not any particular order among tasks with the same date or among undated tasks.
- `Text.LowerChar`: maps only the ASCII letters A-Z and keeps every other character, whereas `toLowerCase` also lowercases other Unicode letters ('À' becomes 'à').
- `Text.Lower`: built on `Text.LowerChar`, so it is ASCII-only too. Searches on non-ASCII text are therefore modelled weaker than the source.
- `Store.ToggleTwice`: the law covers the list value with nothing between the two toggles. In the program each click renders, and under filter `all` with no search that render re-sorts the store. `App.ToggleTwiceRendered` and `App.ToggleTwiceReconfigured` state what then still holds: the contents come back when the ids are unique. `App.ToggleTwiceRepeatedId` shows a trace with a repeated id, clicks under `pending` and `all` with a filter click between them, after which neither the list nor its contents come back.
- `App.TodoApp.AddTodo`: appends by allocating a new array where `push` grows the array in place. Nothing else holds a reference to `todos` between handlers, so the difference cannot be observed.
- The source's toggle defers its flip when the filter is not `all` or a search term is set (js/script.js:205). Since the deferral is left out, this condition has no effect in the model.
- The source does not require a date when adding, and the model follows it.

## Findings

| source | as written | input that shows it | evidently intended | confidence | as-written member | corrected member |
|---|---|---|---|---|---|---|
| js/script.js:87-91 | the sort comparator returns 1 whenever its first operand is undated, so for two undated tasks each compares greater than the other; ECMAScript then leaves the result order of `Array.prototype.sort` implementation-defined | two tasks with an empty date field in `filteredTodos` | undated tasks compare equal (0), giving a consistent comparator under which dated tasks come first in ascending date order | not executed; engines in practice still put dated tasks first | `Pipeline.CompareAsWrittenInconsistent` | `Pipeline.CompareConsistent` |
