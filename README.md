# Task list and daily forecast selection, modelled in Dafny

This project models the two pieces of logic in a pair of browser front-ends:

- the **task list** of the to-do application (`TodoApp` in `todo-application/scripts/todo.js`):
  an ordered list of task records `{id, text, completed, createdAt}`, newest first, with a
  current view filter, and the operations add, toggle, edit, delete, clear completed, clear
  all, the filtered view and the counts shown under the list;
- the **daily forecast selection** of the weather dashboard (`getDailyForecasts` in
  `weather-app/scripts/app.js`): from the API's list of three-hourly forecast entries, keep the
  first entry of each calendar day, at most five of them.

Files:

- `seqs.dfy` (module `Seqs`): `Array.prototype.filter` as `Filter`, what an order-preserving
  subsequence is (`Embeds`, `IsSubsequence`), and the capped prefix `Take`.
- `text.dfy` (module `Text`): `String.prototype.trim` over ECMAScript's whitespace and line
  terminator characters.
- `todo.dfy` (module `TodoList`): the `Todo` record, one specification function per operation
  (`Added`, `Toggled`, `Edited`, `Deleted`, `PendingTodos`, `CompletedTodos`), the class
  `TodoApp` with fields `todos: seq<Todo>` and `currentFilter: string`, whose methods replace
  the list with the new value (toggle, edit, delete and both clears reassign the field in the
  JavaScript too; adding prepends in place there), and lemmas: toggling twice is the
  identity, clearing completed tasks is idempotent, the pending and completed views partition the list, ids stay unique while the
  clock advances, texts stay non-empty and trimmed.
- `weather.dfy` (module `Weather`): `GetDailyForecasts`, the loop with its set of seen days,
  proved equal to the first five entries of a reference selection `FirstPerDay`, whose
  properties are proved as lemmas.

Inputs that come from the environment are parameters: the id `Date.now()` and the timestamp
`new Date().toISOString()` of a new task (`AddTodo`'s `now` and `createdAt`), the answer of the
confirmation dialog (`ClearAll`'s `confirmed`), the stored snapshot the application starts
from (the constructor's `stored`), and the calendar day of a forecast entry,
`new Date(dt * 1000).toDateString()`, which depends on the time zone (`dayKey`).

Behaviour of the code worth knowing:

- Task ids are not guaranteed unique: two additions within one millisecond get the same id
  (`SameTickDuplicatesId`). Uniqueness is proved only under the premise that the clock moves
  strictly forward between additions (`RunKeepsIdsUnique`).
- Toggle, edit and delete act on every record carrying the id, not on "the" record.
- Clearing all tasks asks for confirmation inside the operation; the model takes the answer
  as a parameter and changes nothing when it is false.
- Loading a malformed stored snapshot throws (`JSON.parse`) rather than failing soft; loading
  is not modelled at all (see below).
- The text invariant (never empty, already trimmed) holds for what the application writes,
  not for whatever a stored snapshot contains, so it is proved as preserved
  (`RunKeepsTextsTrimmed`), not assumed.

## Model

| member | source | states |
|---|---|---|
| `Seqs.Filter` | todo-application/scripts/todo.js:73 | `filter` keeps only elements passing the predicate, keeps every element that passes, and never grows the array |
| `Seqs.FilterIsSubsequence` | todo-application/scripts/todo.js:90 | `filter` returns an order-preserving subsequence of its input |
| `Seqs.FilterKeepsAll` | todo-application/scripts/todo.js:73 | when every element passes, `filter` returns the array unchanged |
| `Seqs.FilterIdempotent` | todo-application/scripts/todo.js:90 | filtering twice by one predicate is filtering once |
| `Seqs.FilterPartition` | todo-application/scripts/todo.js:115-117 | the lengths of the filters by a predicate and by its negation add up to the array's length |
| `Text.TrimStart` | todo-application/scripts/todo.js:37 | drops exactly the leading whitespace: a suffix, whitespace before it, non-whitespace first character |
| `Text.TrimEnd` | todo-application/scripts/todo.js:37 | drops exactly the trailing whitespace: a prefix, whitespace after it, non-whitespace last character |
| `Text.Trim` | todo-application/scripts/todo.js:37 | the result is a slice of the input with only whitespace around it; it is empty exactly when the input is all whitespace, and otherwise starts and ends with non-whitespace |
| `Text.TrimIdempotent` | todo-application/scripts/todo.js:63-65 | trimming a trimmed text changes nothing |
| `TodoList.Added` | todo-application/scripts/todo.js:37-47 | the list is unchanged exactly when the trimmed input is empty; otherwise one pending record with the given id and timestamp and the trimmed input as its (non-empty, trimmed) text is put in front of the unchanged old list |
| `TodoList.Toggled` | todo-application/scripts/todo.js:55-57 | same length and order; `completed` changes on exactly the records with the id; id, text and timestamp of every record kept |
| `TodoList.Edited` | todo-application/scripts/todo.js:63-66 | blank new text changes nothing; otherwise records with the id get the trimmed text, keep id, state and timestamp, and all other records are untouched |
| `TodoList.Deleted` | todo-application/scripts/todo.js:73 | an order-preserving subsequence with no record carrying the id, keeping every other record, and exactly as many records shorter as there are records with the id; an absent id leaves the list unchanged |
| `TodoList.PendingTodos` | todo-application/scripts/todo.js:106 | an order-preserving subsequence holding every non-completed record and only those |
| `TodoList.CompletedTodos` | todo-application/scripts/todo.js:108 | an order-preserving subsequence holding every completed record and only those |
| `TodoList.TodoApp.constructor` | todo-application/scripts/todo.js:2-4 | the list starts as the stored snapshot and the filter as "all" |
| `TodoList.TodoApp.AddTodo` | todo-application/scripts/todo.js:35-52 | the list becomes `Added` of the old list; the filter is unchanged |
| `TodoList.TodoApp.ToggleTodo` | todo-application/scripts/todo.js:54-60 | the list becomes `Toggled` of the old list; the filter is unchanged |
| `TodoList.TodoApp.EditTodo` | todo-application/scripts/todo.js:62-70 | the list becomes `Edited` of the old list; the filter is unchanged |
| `TodoList.TodoApp.DeleteTodo` | todo-application/scripts/todo.js:72-76 | the list becomes `Deleted` of the old list; the filter is unchanged |
| `TodoList.TodoApp.SetFilter` | todo-application/scripts/todo.js:78-79 | the filter becomes the given value; the list is unchanged |
| `TodoList.TodoApp.ClearCompleted` | todo-application/scripts/todo.js:89-93 | the list becomes its pending records in order; the filter is unchanged |
| `TodoList.TodoApp.ClearAll` | todo-application/scripts/todo.js:95-101 | the list is emptied when confirmed and unchanged otherwise |
| `TodoList.TodoApp.GetFilteredTodos` | todo-application/scripts/todo.js:103-112 | a subsequence of the list: the pending records for "pending", the completed ones for "completed", the whole list for any other filter |
| `TodoList.TodoApp.Stats` | todo-application/scripts/todo.js:114-117 | total is the list length, completed the length of the completed view, and pending, computed as total minus completed, equals the length of the pending view |
| `TodoList.ToggleTwice` | todo-application/scripts/todo.js:55-57 | toggling an id twice restores the list |
| `TodoList.ClearCompletedIdempotent` | todo-application/scripts/todo.js:90 | clearing completed tasks twice equals once, and leaves no completed task |
| `TodoList.ViewsPartition` | todo-application/scripts/todo.js:104-108 | the pending and completed views together have as many records as the list |
| `TodoList.SubsequenceKeepsIdsUnique` | todo-application/scripts/todo.js:73 | dropping records keeps ids unique |
| `TodoList.SameIdsKeepIdsUnique` | todo-application/scripts/todo.js:55-57 | replacing records field-wise without touching ids keeps ids unique and bounded |
| `TodoList.SubsequenceKeepsIdsBelow` | todo-application/scripts/todo.js:90 | dropping records introduces no new id |
| `TodoList.AddedKeepsIdsUnique` | todo-application/scripts/todo.js:40-47 | adding with an id above every present id keeps ids unique |
| `TodoList.ApplyKeepsIdsUnique` | todo-application/scripts/todo.js:35-101 | every user action keeps ids unique when an addition's id exceeds every present id; only additions introduce ids |
| `TodoList.RunKeepsIdsUnique` | todo-application/scripts/todo.js:41 | ids stay unique through any run of actions while the clock supplying new ids moves strictly forward |
| `TodoList.SameTickDuplicatesId` | todo-application/scripts/todo.js:41 | two non-blank additions reading the same clock value produce a duplicate id |
| `TodoList.AddedKeepsTextsTrimmed` | todo-application/scripts/todo.js:37-47 | adding keeps every text non-empty and trimmed |
| `TodoList.EditedKeepsTextsTrimmed` | todo-application/scripts/todo.js:63-66 | editing keeps every text non-empty and trimmed |
| `TodoList.SubsequenceKeepsTextsTrimmed` | todo-application/scripts/todo.js:73 | dropping records keeps every text non-empty and trimmed |
| `TodoList.ApplyKeepsTextsTrimmed` | todo-application/scripts/todo.js:37-66 | every user action keeps every text non-empty and trimmed |
| `TodoList.RunKeepsTextsTrimmed` | todo-application/scripts/todo.js:37-66 | no run of actions produces an empty or untrimmed text from a list without one |
| `Weather.DaysMembers` | weather-app/scripts/app.js:161 | a day occurs in a list exactly when some entry of it falls on that day |
| `Weather.DaysAppend` | weather-app/scripts/app.js:163 | appending an entry adds exactly its day to the days seen |
| `Weather.FirstPerDayAppend` | weather-app/scripts/app.js:160-165 | the reference selection of a longer prefix gains the new entry exactly when its day is new |
| `Weather.FirstPerDayCoversDays` | weather-app/scripts/app.js:160-166 | the uncapped selection covers every day of the input |
| `Weather.FirstPerDayDistinct` | weather-app/scripts/app.js:158-164 | the selection holds no two entries of one day |
| `Weather.FirstPerDayPicksFirsts` | weather-app/scripts/app.js:160-165 | the selection is drawn from the input in order, each entry the earliest of its day |
| `Weather.FirstPerDayStartsWithFirst` | weather-app/scripts/app.js:157-168 | the selection is empty exactly when the input is, and otherwise starts with the input's first entry |
| `Weather.SelectionStep` | weather-app/scripts/app.js:162-165 | the loop's test (day unseen and fewer than five kept) appends exactly when the capped reference selection grows |
| `Weather.DailySelection` | weather-app/scripts/app.js:156-169 | the capped selection has at most five entries, distinct days, input order, earliest entry of each day, all days when under the cap, and the input's first entry first |
| `Weather.GetDailyForecasts` | weather-app/scripts/app.js:156-169 | the loop returns the first five entries of the reference selection, with every property of `DailySelection` |

## Left out

- Rendering, event wiring, inline editing and HTML escaping (`render`, `startEdit`,
  `escapeHtml`, `initializeEventListeners`, the button toggling in `setFilter`): presentation
  only. Clearing the text box after an addition is part of this.
- TodoApp.AddTodo: the JavaScript prepends to the existing array in place (`unshift`); the
  model assigns a new list to the field. Only the list's contents are modelled, not the
  identity of the array object: the one other reference to it, the array the filtered view
  returns for the "all" filter, is rendered at once and never kept.
- Persistence (`getStoredTodos`, `saveTodos`): browser storage and JSON serialisation; the
  constructor takes the loaded snapshot as a parameter. Because a malformed snapshot makes
  `JSON.parse` throw, no fail-soft load is claimed.
- `Date.now()`, `new Date().toISOString()` and `confirm(...)`: clock and dialog, passed in as
  parameters.
- `toDateString()` on forecast times: a time-zone dependent library call, abstracted as the
  function parameter `dayKey`.
- The sample tasks and sample weather data set up at load time, and everything else in the
  weather dashboard (network requests, geolocation, date formatting, rounding of floating-point
  temperatures, rendering).
- JavaScript's loose typing: ids are integers and texts are strings here; strict equality
  `===` on ids is integer equality.
