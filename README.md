# To-do list task store

A model of the task store at the heart of the browser to-do list app (the
`TodoApp` class of `script.js`). The app keeps an ordered list of tasks, each
with an id, a title, a description, an optional due date and time, a priority,
a completion flag and a creation time. The user can add, delete, complete,
edit and import tasks, and list them through a text search and a status filter
(all, pending, completed, overdue). After every change the whole list is
written to the browser's local storage under the key `todoTasks`.

The model has five modules:

- `Wrappers`: `Option`, for form fields that may be empty and for a missing storage entry.
- `Seqs`: the two array methods the store uses. `Filter` is `Array.prototype.filter`. `FindIndex` is where `Array.prototype.find` stops. `IsSubsequence` is the order-preserving subsequence relation.
- `Text`: `String.prototype.trim` (with the full ECMAScript white-space set), `toLowerCase` and `includes`.
- `Tasks`: the `Task` record and the read-only computations: the overdue test, the filtered and searched list, and the counters. It also holds the value each mutation produces (`NewTask`, `WithoutId`, `Toggled`, `ApplyEdit`) and the lemmas about them.
- `App`: the `TodoApp` class. Its fields are `tasks`, `stored` (the local-storage entry), `currentFilter` and `editingTaskId`. Each method changes only the fields it names, and states the whole new state.

Dates and times are abstract integers. A date is a day number, a time is a
minute of the day, and `now` and `createdAt` are milliseconds. An empty date
or time input is `None`. Form inputs, the current time and the new task's id
are parameters of the methods. Methods return an `Outcome` that stands for the
notification the page would show, or for none: a toggle or an edit of a task
that no longer exists returns silently. `Done` from a toggle stands for either
of its two messages ("completed" or "marked as pending").

The code guarantees less than a reader of a task list might expect; the model follows the code:

- Ids are not unique. The id is the current time, and import appends tasks without checking them.
- Import does not check titles or priorities. So a non-empty title is not an invariant of the store. It is proved to hold after add, edit, delete and toggle, and after an import only when every imported title is valid (`ImportTitlesValid`).
- Priority is kept as the string the form gave. The code never checks it against low, medium or high.
- Editing also does nothing, silently, when the task being edited no longer exists.

## Model

| member | source | states |
|---|---|---|
| `Seqs.Filter` | script.js:115 | `filter` returns only elements of the input that satisfy the predicate, and every element that satisfies it is returned |
| `Seqs.FilterCounts` | script.js:115 | `filter` returns each element that satisfies the predicate as many times as it occurs in the input, and drops the others |
| `Seqs.FilterIsSubsequence` | script.js:217-233 | the result of `filter` keeps the input's order (it is a subsequence of it) |
| `Seqs.FindIndex` | script.js:125 | `find` stops at the first element that satisfies the predicate, and finds nothing only when no element does |
| `Text.Trim` | script.js:65 | the result is the input with exactly its leading and trailing white space removed: a block of the input with only white space before and after it; it is empty exactly when the input is all white space, and otherwise has no white space at either end |
| `Text.TrimIdempotent` | script.js:160 | trimming an already trimmed title changes nothing |
| `Text.ToLower` | script.js:218-219 | lower-casing keeps the length and maps each character on its own (ASCII A to Z become a to z) |
| `Text.ToLowerIdempotent` | script.js:198-200 | a lower-cased query is unchanged by lower-casing it again |
| `Text.Includes` | script.js:218-219 | `includes` holds exactly when the query occurs as a contiguous block at some position |
| `Tasks.IsOverdue` | script.js:203-209 | never overdue without a date or once completed; otherwise overdue exactly when the due instant (date plus time, or 23:59 with no time) is before `now` |
| `Tasks.OverdueStaysOverdue` | script.js:206-208 | an overdue task stays overdue at any later `now` |
| `Tasks.UntimedDueLast` | script.js:207 | a dated task with no time is due no earlier than any time on that day |
| `Tasks.DueInstant` | script.js:207 | no contract; the due instant of a date and optional time, 23:59 when the time is empty; see `IsOverdue` and `UntimedDueLast` |
| `Tasks.SearchStage` | script.js:216-221 | no contract; see `SearchStageIsFilter` |
| `Tasks.SearchStageIsFilter` | script.js:216-221 | the search step is one filter by "the query is empty or occurs in the lower-cased title or description" |
| `Tasks.StatusStage` | script.js:224-234 | no contract; see `StatusStageIsFilter` |
| `Tasks.StatusStageIsFilter` | script.js:224-234 | the status step is one filter by the status clause, with `all` keeping every task |
| `Tasks.FilteredTasks` | script.js:212-237 | no contract; see `QuerySinglePass` and `QueryResult` |
| `Tasks.SearchTasks` | script.js:198-200 | no contract; see `SearchIgnoresQueryCase` |
| `Tasks.QuerySinglePass` | script.js:212-237 | the search step followed by the status step is a single filter by "matches the search and the status" |
| `Tasks.QueryResult` | script.js:212-237 | the list is a subsequence of the tasks in their order, a task is listed exactly when it matches both the search (empty query, or it occurs in the lower-cased title or description) and the status filter, and then as many times as it is stored |
| `Tasks.QueryAllIsIdentity` | script.js:213-236 | with filter `all` and an empty query every task is listed, in stored order |
| `Tasks.SearchIgnoresQueryCase` | script.js:198-200 | typing the query in upper or lower case gives the same list |
| `Tasks.StatsOf` | script.js:330-333 | total is the number of tasks; pending equals the number of tasks not completed, so completed + pending = total and both are at most total |
| `Tasks.StatsAfterAdd` | script.js:87 | adding a task counts one more task and one more pending task, with completed unchanged |
| `Tasks.StatsAfterImport` | script.js:481 | after an import each counter is the old count plus the count over the imported tasks |
| `Tasks.IndexOfId` | script.js:125 | no contract; the first position with the id, as `find` locates it (see `Seqs.FindIndex`) |
| `Tasks.NewTask` | script.js:76-85 | no contract; see `App.TodoApp.AddTask`, `StatsAfterAdd` and `AddKeepsTitlesValid` |
| `Tasks.WithoutId` | script.js:115 | no contract; see `DeleteKeepsOthers` |
| `Tasks.DeleteKeepsOthers` | script.js:115 | delete keeps exactly the tasks with another id, each as many times as it occurs, in their original order; an id no task has changes nothing |
| `Tasks.Toggled` | script.js:124-128 | no contract; see `ToggleFlipsFirstMatch` and `ToggleTwice` |
| `Tasks.ToggleFlipsFirstMatch` | script.js:124-128 | toggle changes exactly one `completed` flag, that of the first task with the id, and no other field or task; an unknown id changes nothing |
| `Tasks.ToggleTwice` | script.js:124-128 | toggling the same id twice restores the original tasks |
| `Tasks.StatsAfterToggle` | script.js:127 | toggling a found task moves it between the completed and pending counts, with total unchanged |
| `Tasks.EditTarget` | script.js:157 | no contract; the first position whose id is the one under edit, none when no task is under edit |
| `Tasks.ApplyEdit` | script.js:166-170 | no contract; see `EditKeepsIdentity` and `StatsAfterEdit` |
| `Tasks.EditKeepsIdentity` | script.js:166-170 | an edit keeps every other task unchanged, and keeps the edited task's id, completion flag and creation time |
| `Tasks.StatsAfterEdit` | script.js:166-170 | an edit leaves the total, completed and pending counters unchanged |
| `Tasks.AddKeepsTitlesValid` | script.js:65-87 | after an accepted add every title is non-empty after trimming, if it was before |
| `Tasks.EditKeepsTitlesValid` | script.js:160-170 | after an accepted edit every title is non-empty after trimming, if it was before |
| `Tasks.DeleteKeepsTitlesValid` | script.js:115 | deleting keeps every title non-empty, if it was before |
| `Tasks.ToggleKeepsTitlesValid` | script.js:124-128 | toggling keeps every title non-empty, if it was before |
| `Tasks.ImportTitlesValid` | script.js:478-481 | after an import the titles are all valid exactly when the imported titles are |
| `App.TodoApp.constructor` | script.js:3-6 | starts from the saved tasks (or none), the `all` filter and no task under edit |
| `App.TodoApp.SaveTasks` | script.js:381-383 | storage afterwards holds exactly the in-memory tasks |
| `App.TodoApp.AddTask` | script.js:64-88 | an empty trimmed title leaves tasks and storage unchanged; otherwise exactly one new pending task with trimmed title and description is put first, the old tasks follow in order, and storage is updated |
| `App.TodoApp.DeleteTask` | script.js:113-116 | tasks become the old tasks without that id, and storage is updated |
| `App.TodoApp.ToggleTask` | script.js:124-128 | tasks become the toggled tasks; storage is updated when the id was found and untouched otherwise |
| `App.TodoApp.EditTask` | script.js:138-142 | the dialog is opened on the id only when a task has it |
| `App.TodoApp.CloseModal` | script.js:179-182 | no task is under edit afterwards |
| `App.TodoApp.SaveEditedTask` | script.js:156-173 | no task under edit, or an empty trimmed title, changes nothing; otherwise only that task's editable fields change, storage is updated and the dialog is closed |
| `App.TodoApp.SetFilter` | script.js:185-186 | the status filter becomes the chosen one |
| `App.TodoApp.ImportTasks` | script.js:475-491 | an array is appended after the old tasks and saved; a non-array or unparsable file changes nothing |

## Left out

- Rendering, the form and dialog DOM, filter-button classes, `clearForm` and `setMinDate`: presentation only. Form values are method parameters.
- Notifications, animations and the `confirm` dialog: timers and prompts. Methods return an `Outcome` instead, and `DeleteTask` models the confirmed path.
- `formatDate`, `formatTime` and `escapeHtml`: they depend on browser locale formatting and DOM serialisation.
- `exportTasks`, JSON serialisation, `FileReader` and local storage itself: I/O. The storage entry is an opaque snapshot of the task sequence. An imported file is given as already parsed (`ImportPayload`), and its array elements are taken to be task records.
- Reading a corrupt storage entry at start-up, which would throw in `JSON.parse`, is not modelled.
- A failing `localStorage.setItem` (storage full or unavailable) is not modelled: `SaveTasks` always succeeds, so `Persisted()` after each change rests on that. In the code the exception escapes after the in-memory change has been made (add, delete, toggle, edit). In `importTasks` it is caught and reported as "Error reading file", after the tasks were already appended.
- Service-worker registration: unrelated to the store.
- Ids and clocks: `Date.now()` and `new Date()` are parameters (`id`, `createdAt`, `now`). Id uniqueness is not claimed.
- Calendar parsing: `new Date(date + "T" + time)` is modelled as day × 1440 + minute, in milliseconds. Time zones, invalid date strings (which never compare as earlier) and seconds are not modelled.
- Text.ToLower: maps only the ASCII letters A to Z; JavaScript lower-cases every Unicode letter.
- Filter values: `setFilter` takes a string from the page. Any string other than pending, completed or overdue lists every task. The model uses the four-value `StatusFilter` instead.
- In-place updates: toggle and edit mutate a task object in place. The model replaces that element of the sequence. No two list entries share an object, so this is the same behaviour.
