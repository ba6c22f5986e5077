# Task Manager: store, route handlers, and client ordering/dispatch in Dafny

This project models the two pieces of sequential logic in the Task Manager web application:

* **The REST server** (`server.js`). The two SQLite tables `tasks(id, text, priority, is_completed)` and `notes(id, task_id, note)` become an in-memory `Store.Db`. It holds two maps from row id to row and, for each table, the id handed out next. Each route handler is a pure function: it takes the database and the request fields and returns either an `Error` or the new database with the JSON reply. The handlers are `POST /api/task`, `DELETE /api/task/:id`, `DELETE /api/note/:taskId/:noteId`, `PUT /api/task/:id/complete`, `POST /api/task/:id/note`, `GET /api/tasks` and `GET /cleanup-null-notes`. A failed request returns no database, so the caller keeps the one it had.
* **The React client** (`src/app.js`). This covers:
  * the comparator given to `tasks.sort`, modelled as a verified insertion sort over `seq`;
  * the split of the sorted tasks into the incomplete list and the completed list;
  * the guards in `addTask`, `addNoteToTask` and `toggleCompleteTask`;
  * the `handleSocketMessage` switch, modelled as a pure function from (state, message) to (new state, requests sent).

Modules:

| file | module | what it holds |
|---|---|---|
| wrappers.dfy | `Wrappers` | `Option`, `Result` |
| js_string.dfy | `JsString` | `String.prototype.trim` and `String.prototype.length` (UTF-16 code units) |
| priority.dfy | `Priorities` | the three priority labels, parsing them, and the client's rank |
| store.dfy | `Store` | the two tables, the `Valid` id invariant, `NoDanglingNotes` |
| server.dfy | `Server` | request body values, errors, replies, the seven route handlers, the listing join/filter |
| server_props.dfy | `ServerProperties` | lemmas that relate several requests |
| client_model.dfy | `ClientModel` | the client's task and note records |
| task_order.dfy | `TaskOrder` | comparator, sort, incomplete/completed split |
| client_app.dfy | `ClientApp` | user-action guards and `handleSocketMessage` |

Details taken from the code:

* A task's text is rejected unless it is a string of at most 5000 UTF-16 code units. `text.length` counts a character outside the Basic Multilingual Plane twice.
* A note is checked with `!note || note.trim() === ''`. A falsy note is `NoteContentEmpty`. So is a blank string, where blank uses ECMAScript's white-space and line-terminator set. A truthy note that is not a string makes `note.trim` throw, and Express answers 500 (`NoteNotAString`).
* `PUT /api/task/:id/complete` does not validate `completed`. It stores whatever the sqlite3 driver binds: `true`/`false` become 1/0, `null` and a missing field become NULL.
* `POST /api/task/:id/note` does not check that the task exists. A note can therefore be attached to an id that has no task. `ServerProperties.OrphanNoteIsAdopted` shows the consequence: such a note is listed under the task that later receives that id. This is why the round-trip lemmas assume `NoDanglingNotes`. The rule that a note does not outlive its task is kept only by `DELETE /api/task/:id`. Nothing stops a note from being created without a task.
* Deleting an absent task, deleting a note whose task id does not match, and setting completion of an absent task all change nothing and still reply success.
* `GET /api/tasks` joins each task with its notes. A task with no notes gets a single all-NULL row from `json_group_array`, which the route's filter then removes. The model keeps both steps and proves them equal to a direct definition (`Server.VisibleNotes`).

## Model

| member | source | states |
|---|---|---|
| `JsString.Trim` | server.js:175 | the trimmed string neither starts nor ends with white space, is no longer than the input, and is empty exactly when every character is white space |
| `JsString.TrimSlice` | server.js:175 | the trimmed string is a contiguous slice of the input, and everything before and after that slice is white space |
| `JsString.TrimStart` | src/app.js:114 | the leading part removed is all white space and the rest does not start with white space |
| `JsString.TrimEnd` | src/app.js:138 | the trailing part removed is all white space and the rest does not end with white space |
| `JsString.TrimBlank` | server.js:175 | trim returns the empty string if and only if the input is all white space |
| `JsString.Utf16Length` | server.js:78 | the JavaScript length is between the character count and twice it, and equals the character count exactly when no character is outside the Basic Multilingual Plane |
| `Priorities.Parse` | server.js:82-86 | a string is accepted as a priority exactly when it is one of the three labels, and the accepted priority has that label |
| `Priorities.ParseLabel` | server.js:82 | each of the three labels is accepted and parses back to its own priority |
| `Priorities.RankOrder` | src/app.js:154-158 | High ranks before Medium before Low, and no two priorities share a rank |
| `Server.CreateTask` | server.js:72-102 | text that is not a string or exceeds 5000 code units is rejected first; then any priority other than the three labels is rejected; on success exactly one task is added under an id not in use, with the given text and priority and `is_completed` 0, that id is the reply, and no other task or note changes |
| `Server.DeleteTask` | server.js:105-130 | succeeds unless storage fails; afterwards no note points at the id, the task and exactly its notes are gone, every other row is unchanged, and the reply carries the id |
| `Server.DeleteNote` | server.js:133-147 | removes the note only when both its id and its task id match; a mismatched or absent pair leaves the database unchanged; the reply is success either way, and tasks never change |
| `Server.SetCompletion` | server.js:150-166 | only the `is_completed` of the task with that id changes, to the bound `completed` value; text, priority, every other task and all notes stay unchanged |
| `Server.AddNote` | server.js:169-189 | a falsy or blank note is rejected as empty, and a truthy non-string note fails with 500; a valid note under a storage fault fails with that fault; otherwise exactly one note with that task id and content is added under a fresh id, which is the reply; tasks are unchanged |
| `Server.CleanupNullNotes` | server.js:56-69 | keeps exactly the notes whose content is not NULL, unchanged; tasks are unchanged |
| `Server.ListTasks` | server.js:29-53 | does not change the database; lists each task once, in increasing id order; every task is listed; each listed task shows its own columns and exactly its visible notes |
| `Server.JoinedRows` | server.js:31-34 | the `LEFT JOIN` rows matched to a task all carry a note id, and there are none exactly when no note points at the task |
| `Server.GroupedNotes` | server.js:31-34 | `json_group_array` always yields at least one element, and it is the single all-NULL element exactly when no note points at the task |
| `Server.TaskViews` | server.js:31-34 | `GROUP BY tasks.id` yields only elements for existing tasks, with ids in the scanned range |
| `Server.DropNullNotes` | server.js:45 | keeps exactly the note rows whose id and content are both non-null |
| `Server.VisibleNotesExact` | server.js:31-46 | the visible notes of a task are exactly its notes with non-null content, each once, in increasing id order |
| `Server.JoinThenFilter` | server.js:31-45 | filtering the joined note rows gives exactly the visible notes |
| `Server.GroupedThenFilter` | server.js:31-46 | the all-NULL row a task without notes gets from the join is filtered away, so the listed notes are exactly the visible notes |
| `Server.DropNullNotesAppend` | server.js:45 | the listing's note filter distributes over concatenation |
| `Server.ViewOf` | server.js:43-46 | the listing element built for a task shows that task's columns and its visible notes |
| `Server.TaskViewsExact` | server.js:31-34 | the grouped rows hold each task once, in increasing id order, and every task is among them |
| `ServerProperties.HandlersKeepNotesAttached` | server.js:109-189 | creating, deleting, updating and cleaning up never leave a note without its task; adding a note does so exactly when the task id does not exist |
| `ServerProperties.DeleteTaskKeepsNotesAttached` | server.js:109-127 | deleting a task leaves no note without its task |
| `ServerProperties.AddNoteAttachesIff` | server.js:179-181 | an added note has its task exactly when a task with that id exists, since the route does not check |
| `ServerProperties.OrphanNoteIsAdopted` | server.js:179-181 | on any database, a note added to the id the next created task receives is accepted and is listed under that task once it is created |
| `ServerProperties.NoNotesShowNothing` | server.js:45 | a task that no note points at is listed with no notes |
| `ServerProperties.CreatedTaskIsListed` | server.js:88-100 | after a successful create, the listing shows the new task with its text and priority, incomplete and with no notes |
| `ServerProperties.AddedNoteIsListed` | server.js:179-187 | after a note is added to a task without notes, the listing shows exactly that note under the task |
| `ServerProperties.DeletedTaskIsUnlisted` | server.js:109-127 | after a task is deleted, it is not listed and no note points at it |
| `ServerProperties.CreateNoteDeleteRoundTrip` | server.js:72-130 | create, then list, then add a note, then list, then delete, then list: incomplete with no notes, then with exactly the added note, then absent with no notes left |
| `ServerProperties.SameNotesShowSame` | server.js:31-34 | a task's visible notes depend only on the note rows |
| `ServerProperties.ListedViewShows` | server.js:43-46 | every existing task has a listing element, and it shows that task |
| `ServerProperties.ViewWithId` | server.js:43-51 | finds a task's element in the listing, or reports that no element has that id |
| `ServerProperties.DeleteTaskIdempotent` | server.js:109-111 | deleting the same task twice leaves the database as deleting it once |
| `ServerProperties.DeleteNoteIdempotent` | server.js:137 | deleting the same note twice leaves the database as deleting it once |
| `ServerProperties.CleanupKeepsListing` | server.js:56-69 | cleaning up null notes does not change the task listing |
| `ServerProperties.CleanupKeepsVisibleNotes` | server.js:58 | cleaning up does not change any task's visible notes |
| `ServerProperties.CleanupKeepsViews` | server.js:58 | cleaning up does not change any listing element |
| `ServerProperties.ListTwice` | server.js:29-53 | listing twice with nothing in between gives the same data |
| `TaskOrder.Compare` | src/app.js:150-160 | an incomplete task sorts before a completed one and never ties with it; tasks with the same completion sort by priority rank and tie only on equal priority |
| `TaskOrder.CompareIsKeyOrder` | src/app.js:150-159 | the comparator is antisymmetric and agrees with the lexicographic order on (completed, rank) |
| `TaskOrder.Insert` | src/app.js:150-160 | inserting into a sorted list keeps it sorted and adds exactly that task |
| `TaskOrder.SortTasks` | src/app.js:150-160 | the sorted list is a permutation of the tasks, ordered by (completed, rank) |
| `TaskOrder.IncompleteTasks` | src/app.js:162 | holds exactly the incomplete tasks of its input |
| `TaskOrder.CompletedTasks` | src/app.js:163 | holds exactly the completed tasks of its input |
| `TaskOrder.PartitionIsPermutation` | src/app.js:162-163 | together the two lists hold every task, as often as the input does |
| `TaskOrder.SortedSplitsInTwo` | src/app.js:150-163 | on the sorted list, the incomplete list followed by the completed list is the sorted list itself, so each keeps the sorted order |
| `TaskOrder.SortedIsCut` | src/app.js:162-163 | a sorted list is its incomplete tasks followed by its completed tasks |
| `TaskOrder.CompletedHeadRest` | src/app.js:150-153 | in a sorted list, once a completed task appears every later task is completed |
| `TaskOrder.AllCompleted` | src/app.js:162-163 | a list of completed tasks has an empty incomplete part and is its own completed part |
| `TaskOrder.Render` | src/app.js:150-163 | the two rendered lists are disjoint by completion, hold every task once, and in sequence are in (completed, rank) order |
| `ClientApp.FindTask` | src/app.js:125 | returns the index of the first task with the id, or reports that no task has it |
| `ClientApp.AddTask` | src/app.js:113-117 | sends nothing exactly when the text trims to empty; otherwise sends the untrimmed text with the chosen label |
| `ClientApp.ToggleCompleteTask` | src/app.js:124-129 | sends nothing exactly when no task has the id; otherwise sends the negation of the first such task's completion |
| `ClientApp.AddNoteToTask` | src/app.js:137-142 | a blank note sends nothing and leaves the state unchanged; otherwise the note is sent and only the note modal closes |
| `ClientApp.Act` | src/app.js:113-147 | no user action edits the task list; a request is withheld only for a blank task text, a blank note, or a toggle of an unknown id |
| `ClientApp.NormalizeTasks` | src/app.js:83-86 | keeps every received task and its fields, with a non-array `notes` replaced by the empty list |
| `ClientApp.HandleMessage` | src/app.js:76-99 | each acknowledgement type triggers exactly one `fetchTasks` and leaves the state unchanged; `update` replaces the task list with the normalized snapshot and sends nothing; any other type changes nothing |
| `ClientApp.UpdateReplacesList` | src/app.js:82-87 | the list after an `update` does not depend on the list before, so a repeated `update` changes nothing |
| `ClientApp.ToggleMovesTask` | src/app.js:124-163 | if the next snapshot reports the completion the toggle asked for, the task moves to the other rendered list |

## Left out

* Express setup, CORS, static file serving and `app.listen` (server.js:1-25). These are transport plumbing.
* SQLite itself. Every handler takes a `fault` parameter. When it is set, the request fails with `StorageError` carrying that message, and the database does not change. No other SQL error mechanics are modelled.
* The two statements of `DELETE /api/task/:id` are modelled as one atomic step. A crash between them, which leaves the task without its notes, is a failure-and-concurrency behaviour and is not modelled.
* Row ids come from a per-table counter that only grows. This abstracts SQLite's `lastID`, which could reuse the largest id after that row is deleted.
* Route parameters are modelled as integers. Non-numeric `:id` strings and SQLite's type-affinity comparison are out of scope.
* Request body values are `undefined`, `null`, booleans, integers and strings. Arrays, objects, fractional numbers and `NaN` are out of scope.
* The `timestamp` column is not written by any route in `server.js`, so it is not modelled on the server side.
* The row order of `GROUP BY` and of `json_group_array` is not specified by SQL. The model lists tasks, and notes within a task, in increasing id order.
* Note ids are table keys, so the model cannot represent a NULL id. The `id IS NULL` half of the cleanup condition therefore never applies.
* The WebSocket connection lifecycle is out of scope: reconnection, the heartbeat interval, `fetchTasks`/`sendMessage` retries while the socket is closed, and `TaskManager.js`. Requests are emitted as if the socket were open.
* `server.js` has no route that changes a task's priority. The client's `changePriority` frame is modelled only as the request it sends (`ClientApp.Act`).
* The WebSocket server that answers the client's frames is not part of this model. The client's messages are modelled on their own.
* React components, `src/index.js`, console logging and the `connection` message are out of scope. The `connection` message only logs.
* On the client, `is_completed` is a boolean and priorities are the three labels, so the comparator's `NaN` rank case never arises.
* `tasks.sort` mutates the state array in place. The model sorts a copy.
* TaskOrder.SortTasks: does not state that tasks with equal keys keep their input order. JavaScript engines guarantee this only since ES2019, and nothing in the application depends on it.
* An `update` frame whose `tasks` is missing or not an array makes `data.tasks.map` throw. `ClientApp.HandleMessage` models this as "no change". It does not model the exception being reported.
