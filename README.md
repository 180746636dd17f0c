# Task manager: in-memory task store and client list logic

This project models the core of a small task-tracking application in Dafny.

- **The server router** (`server/routes/taskRoutes.js`) keeps a module-level array of
  tasks, seeded with one task whose `_id` is `"1"`, and an id counter `nextId` that starts at 2.
  Five route handlers work on that state: list, get by id, create, update and delete.
  `TaskRoutes.TaskStore` is a class with these two fields (a `seq<Task>` and a `nat`).
  Each handler is a method that returns the status code and JSON body the router sends.
  The class invariant `Valid()` says that every stored id is the decimal form of a counter value
  already handed out, and that ids are pairwise distinct. So ids are never reused after a delete, as long as the counter stays below 2^53 (see "## Left out").
- **The browser client** (`client/script.js`) keeps a local cache of tasks and the current filter.
  The model covers its pure list logic: trimming and form validation, the status filter, the
  statistics counters and the status badge. `ClientScript.ClientState` models the cache edits
  of `addTask`, `deleteTask` and `updateTask`, and the lookup in `editTask`. The server's reply is a
  parameter of these methods, because the network is not modelled.
- **`Sync`** runs one client round trip against the store. If the cache equals the store's list
  before the round trip, it equals the store's list afterwards. This is the property the
  client's cache edits are written for.

Modules: `Decimal` (rendering the counter as `String(n)` does), `Tasks` (the task record and
lookups by id), `TaskRoutes`, `ClientScript` and `Sync`.

A JavaScript value that may be `undefined` or `null` is an `Option<string>`. `None` stands for
both. A field is "falsy" when it is `None` or `""`.

## Model

| member | source | states |
|---|---|---|
| Decimal.NatToDecimal | server/routes/taskRoutes.js:35 | `String(n)` of a counter value: non-empty, digits only, a leading `0` only for zero, one digit exactly below ten |
| Decimal.NatToDecimalInjective | server/routes/taskRoutes.js:35 | different counter values give different id strings |
| Tasks.IndexOf | server/routes/taskRoutes.js:55 | `findIndex` by `_id`: -1 exactly when no task has the id, otherwise the first position that holds it |
| Tasks.FindIndex | server/routes/taskRoutes.js:81 | the linear scan returns exactly `IndexOf` |
| Tasks.RemoveAtKeepsUnique | server/routes/taskRoutes.js:90 | `splice(i, 1)` keeps the remaining ids distinct |
| Tasks.RemoveAtDropsId | server/routes/taskRoutes.js:90 | with distinct ids, after `splice(i, 1)` no task carries the removed id |
| TaskRoutes.CounterIdFresh | server/routes/taskRoutes.js:35 | the id made from the current counter is not the decimal form of any smaller counter value |
| TaskRoutes.AppendKeepsIds | server/routes/taskRoutes.js:34-42 | appending a task with the counter's id keeps ids distinct and all issued below the incremented counter; the new id is not in the store |
| TaskRoutes.TaskStore.constructor | server/routes/taskRoutes.js:5-8 | the store starts with the seed task `"1"` and counter 2, and the id invariant holds |
| TaskRoutes.TaskStore.List | server/routes/taskRoutes.js:11-15 | 200 with the whole task sequence in insertion order; nothing changes |
| TaskRoutes.TaskStore.Get | server/routes/taskRoutes.js:18-22 | 200 with the first task carrying the id, or 404 `{message: "Task not found"}` when none does; nothing changes |
| TaskRoutes.TaskStore.Create | server/routes/taskRoutes.js:25-45 | falsy title: 400 `{error: "Title is required"}`, tasks and counter unchanged; otherwise 201 with a task whose id is the decimal form of the old counter and was never issued before; status is the given one or `"pending"` when falsy; the task is appended; the counter grows by one; the id invariant is kept |
| TaskRoutes.TaskStore.Update | server/routes/taskRoutes.js:48-73 | absent id: 404, nothing changes; otherwise only the found position changes: its id is kept, and title, description and status are taken from the body as they are (no title check, no default); length and order are unchanged; the id invariant is kept |
| TaskRoutes.TaskStore.Delete | server/routes/taskRoutes.js:76-99 | absent id: 404, nothing changes; otherwise 200 `{message: "Task deleted"}`, exactly the found position is spliced out, the rest keep their order, and the id is no longer present (so a following get or delete answers 404) |
| ClientScript.TrimStart | client/script.js:162 | drops only leading white space; the result is a suffix; it is empty exactly when the input is all white space |
| ClientScript.TrimEnd | client/script.js:162 | drops only trailing white space; the result is a prefix; it is empty exactly when the input is all white space |
| ClientScript.Trim | client/script.js:162 | `trim()`: the result is the slice of the input left after removing an all-white-space prefix and suffix; it does not start or end with white space, and it is empty exactly when the input is all white space |
| ClientScript.TrimUnchanged | client/script.js:266 | a string without white space at either end trims to itself |
| ClientScript.TrimIdempotent | client/script.js:266 | trimming twice is trimming once |
| ClientScript.CheckAddForm | client/script.js:161-180 | checked in order: a blank title is refused; then a trimmed title over 100 characters (exactly 100 passes); then a trimmed description over 500; otherwise the trimmed values go ahead |
| ClientScript.CheckUpdateForm | client/script.js:265-274 | only a blank title is refused; otherwise the trimmed values go ahead |
| ClientScript.AddAcceptedIsUpdateAccepted | client/script.js:266-274 | every form the add check accepts, the update check accepts with the same values |
| ClientScript.UpdateHasNoLengthLimit | client/script.js:271-274 | a title over 100 characters is refused on add and accepted on update |
| ClientScript.Filter | client/script.js:98-101 | `Array.prototype.filter`: no longer than the input, and every kept task passes the test |
| ClientScript.FilterMembers | client/script.js:98-101 | a task is kept exactly when it is in the input and passes the test |
| ClientScript.FilterIsSubsequence | client/script.js:98-101 | the kept tasks are an order-preserving subsequence of the input |
| ClientScript.FilterKeepsAll | client/script.js:99 | when every task passes, the filter returns the input unchanged |
| ClientScript.FilterSamePredicate | client/script.js:317 | two tests that agree on every task filter alike |
| ClientScript.FilterConcat | client/script.js:317 | filtering a concatenation is concatenating the filtered parts |
| ClientScript.FilterDropsOne | client/script.js:227 | when exactly one position fails the test, filtering is splicing that position out |
| ClientScript.Visible | client/script.js:98-101 | the displayed tasks are an ordered subsequence; under a filter other than `"all"` they are exactly the tasks whose status equals it |
| ClientScript.VisibleAll | client/script.js:99 | the filter `"all"` shows every task in order |
| ClientScript.WithoutId | client/script.js:227 | after a delete the cache keeps exactly the tasks with another id, in order, and none with the deleted id |
| ClientScript.WithoutIdIsSplice | client/script.js:227 | with distinct ids, dropping by id equals the server's `splice` at the found position, and is the identity when the id is absent |
| ClientScript.ReplaceFirst | client/script.js:290-291 | after an update the cache keeps its length; the first position with that id holds the reply and all others are unchanged; nothing changes when the id is absent |
| ClientScript.StatsOf | client/script.js:315-318 | the total is the number of tasks; the completed count is at most the total and is zero exactly when no task is completed |
| ClientScript.StatsAppend | client/script.js:317 | the completed count is zero for no tasks and grows by one exactly for each appended completed task |
| ClientScript.CompletedCountIsCompletedView | client/script.js:317 | the completed counter equals the number of tasks the `"completed"` filter shows |
| ClientScript.StatusBadge | client/script.js:146-153 | the corrected badge lookup: the in-progress and completed badges for those statuses, the pending badge for every other value |
| ClientScript.StatusBadgeAsWritten | client/script.js:147-152 | the lookup as written yields an inherited `Object.prototype` member exactly for those property names |
| ClientScript.StatusBadgeAsWrittenAgrees | client/script.js:152 | for every status that is not an `Object.prototype` name, the code as written gives the corrected badge |
| ClientScript.StatusBadgeInheritedMember | client/script.js:152 | the status `"toString"` yields the inherited function, not the pending badge |
| ClientScript.ClientState.constructor | client/script.js:3-4 | the cache starts empty and the filter starts as `"all"` |
| ClientScript.ClientState.LoadTasks | client/script.js:85 | the cache becomes the received list; the filter is unchanged |
| ClientScript.ClientState.SetActiveFilter | client/script.js:63-64 | the filter becomes the chosen value; the cache is unchanged |
| ClientScript.ClientState.Displayed | client/script.js:94-101 | the tasks on screen are an ordered subsequence of the cache: all of it under `"all"`, otherwise exactly the tasks whose status equals the filter |
| ClientScript.ClientState.AddTask | client/script.js:161-210 | a refused form sends nothing and changes nothing; an accepted one sends the trimmed title, description and the status, and appends the server's task when the reply is ok |
| ClientScript.ClientState.DeleteTask | client/script.js:212-238 | nothing is sent unless confirmed; after an ok reply every cached task with that id is dropped; otherwise the cache is unchanged |
| ClientScript.ClientState.EditTask | client/script.js:240-242 | the first cached task with that id, or nothing when none matches |
| ClientScript.ClientState.UpdateTask | client/script.js:265-303 | a blank title sends nothing and changes nothing; otherwise the trimmed fields are sent and an ok reply replaces the first cached task with that id |
| ClientScript.ClientState.ReplaceCached | client/script.js:290-291 | `findIndex` then assignment at that index, which is `ReplaceFirst`; the filter is unchanged |
| Sync.ReplyTask | client/script.js:191-196 | the client takes the body's task exactly when the response is ok (2xx) and carries a task |
| Sync.AddAcceptedTitleIsTruthy | server/routes/taskRoutes.js:29 | a title the add form accepts is never one the server rejects as falsy |
| Sync.SyncedLoad | client/script.js:76-86 | after loading, the cache equals the store's list |
| Sync.SyncedAdd | client/script.js:197 | an add round trip keeps the cache equal to the store's list and the store valid |
| Sync.SyncedDelete | client/script.js:227 | a delete round trip keeps the cache equal to the store's list, and the id is gone from the store |
| Sync.SyncedUpdate | client/script.js:290-291 | an update round trip keeps the cache equal to the store's list and the store valid |

`TaskRoutes.SeedScenario` runs the seed store through a create, a list, an update, a delete and
then a get and a second delete of the deleted id. Its assertions state every response and the
final list: `"2"` is created, the list is `["1", "2"]`, `"1"` is deleted, both later lookups of
`"1"` answer 404, and the list is `["2"]`.

Three behaviours of the code that the model keeps as they are:

- Update does not check the title (server/routes/taskRoutes.js:64), so a stored title can be absent or empty.
- Neither create nor update checks the status against the three badge values `pending`, `in-progress` and `completed` (server/routes/taskRoutes.js:38,64). Create only replaces a falsy status with `"pending"`. Update stores the body's status as it is, even when it is absent.
- Delete of an absent id answers 404 `{message: "Task not found"}` (server/routes/taskRoutes.js:86).

## Findings

| source | as written | input that shows it | evidently intended | confidence | as-written member | corrected member |
|---|---|---|---|---|---|---|
| client/script.js:147-152 | the badge is looked up as `badges[status]` on an object literal, with the pending badge as the fallback for a missing value; the lookup also finds the members the literal inherits from `Object.prototype` | a task with status `"toString"` (the server accepts any status) gets the `Object.prototype.toString` function instead of a badge; likewise `"constructor"`, `"valueOf"`, `"__proto__"` and the other inherited names | every status other than the three known ones gets the pending badge | high; not executed | ClientScript.StatusBadgeAsWritten (shown by ClientScript.StatusBadgeInheritedMember) | ClientScript.StatusBadge |

## Left out

- `server/index.js` is not part of this model: Express wiring, JSON and CORS middleware, the `/test` route with its clock, and `listen`.
- Express `req`/`res` handling and JSON serialisation. A handler is a method from the id and body to a status code and a body.
- The `try`/`catch` paths that answer 500 in update and delete (server/routes/taskRoutes.js:69-72, 95-98). Nothing the model does can throw.
- Logging with `console.log` and `console.error`.
- Request bodies with non-string values (numbers, objects, `false`). The model treats body fields as strings that may be absent.
- The client's DOM work: reading form fields, rendering with `innerHTML`, `createTaskElement`, `escapeHtml`, the character counters and their colour threshold, `resetForm`, `scrollIntoView` and `showMessage` with its timer. `AddCheck.Rejection` keeps only the refusal texts.
- `fetch`, `async`/`await` and `confirm`. The reply and the user's confirmation are parameters of the client methods. The client's error-message texts for failed requests are not modelled.
- ClientScript.IsSpace: approximates the white-space set of `String.prototype.trim`. It has the ASCII white space, no-break space, byte-order mark and the two line separators, but not the other Unicode space separators.
- ClientScript.CheckAddForm: counts length in Unicode code points, because Dafny strings are sequences of scalar values. JavaScript counts UTF-16 code units, so a title with characters outside the Basic Multilingual Plane can pass here and fail in the browser.
- ClientScript.ClientState.ReplaceCached: when no cached task matches, `tasks[-1] = ...` in the browser adds a property named `"-1"` to the array object. The model keeps only the array's elements, which do not change.
- TaskRoutes.TaskStore.Create: `nextId` is a JavaScript number (server/routes/taskRoutes.js:8,35). Past 2^53 the increment has no effect and ids would repeat. The model's counter is an unbounded `nat`, so its freshness and uniqueness promises hold for the program only below 2^53 creates.
- Concurrency: the model runs one request at a time, as the single-threaded server does.
