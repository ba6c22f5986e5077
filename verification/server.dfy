/**
 * The Express route handlers of the REST server, each a pure operation on
 * the database that either reports an error (and leaves the database as it
 * was) or yields the new database and the JSON reply.
 */
module Server {
  import opened Wrappers
  import opened JsString
  import opened Priorities
  import opened Store

  /** A field of the JSON request body as `express.json()` parsed it; `Missing` is `undefined`. */
  datatype Json = Missing | Null | Bool(b: bool) | Num(n: int) | Str(s: string)

  /** JavaScript truthiness, as `!note` checks it. */
  predicate Truthy(v: Json) {
    match v
    case Missing => false
    case Null => false
    case Bool(b) => b
    case Num(n) => n != 0
    case Str(s) => s != []
  }

  /** How the sqlite3 driver binds a statement parameter: booleans become 1 or 0, `undefined` and `null` become NULL. */
  function Bind(v: Json): Cell {
    match v
    case Missing => NullCell
    case Null => NullCell
    case Bool(b) => IntCell(if b then 1 else 0)
    case Num(n) => IntCell(n)
    case Str(s) => TextCell(s)
  }

  /** The longest task text accepted, in UTF-16 code units. */
  const MaxTextLength: nat := 5000

  datatype Error =
    | InvalidText
    | InvalidPriority
    | NoteContentEmpty
      /** `note.trim` is not a function: a truthy non-string note throws, and Express answers 500. */
    | NoteNotAString
    | StorageError(message: string)
  {
    function Status(): int {
      if NoteNotAString? then 500 else 400
    }

    function Message(): string {
      match this
      case InvalidText => "Invalid 'text' field"
      case InvalidPriority => "Invalid 'priority' field"
      case NoteContentEmpty => "Note Content Empty"
      case NoteNotAString => "note.trim is not a function"
      case StorageError(m) => m
    }
  }

  /** One element of a task's `notes` array in the listing: `{id, content}`, either possibly null. */
  datatype NoteView = NoteView(id: Option<int>, content: Option<string>)

  /** One element of the listing's `data` array: the task's columns and its notes. */
  datatype TaskView = TaskView(id: int, text: string, priority: string, isCompleted: Cell, notes: seq<NoteView>)

  datatype Reply =
    | Created(id: int)
    | TaskDeleted(id: int)
    | NoteDeleted(noteId: int)
    | Updated(id: int)
    | NoteAdded(id: int)
    | Listing(data: seq<TaskView>)
    | CleanedUp
  {
    function Message(): string {
      match this
      case Created(_) => "success"
      case TaskDeleted(_) => "task and its notes deleted"
      case NoteDeleted(_) => "note deleted"
      case Updated(_) => "updated"
      case NoteAdded(_) => "note added"
      case Listing(_) => "success"
      case CleanedUp => "Null notes cleaned up successfully"
    }
  }

  /** The database after a successful request, and the reply sent for it. */
  datatype Response = Response(db: Db, reply: Reply)

  /** The text check of `POST /api/task`: a string of at most 5000 UTF-16 code units. */
  predicate ValidText(text: Json) {
    text.Str? && Utf16Length(text.s) <= MaxTextLength
  }

  /** `POST /api/task`: validate text, then priority, then insert an incomplete task under a fresh id. */
  function CreateTask(db: Db, text: Json, priority: Json, fault: Option<string>): (r: Result<Response, Error>)
    requires Valid(db)
    ensures !ValidText(text) ==> r == Failure(InvalidText)
    ensures ValidText(text) && (forall p: Priority :: priority != Str(Label(p))) ==> r == Failure(InvalidPriority)
    ensures r.Success? <==> ValidText(text) && (exists p: Priority :: priority == Str(Label(p))) && fault.None?
    ensures ValidText(text) && (exists p: Priority :: priority == Str(Label(p))) && fault.Some?
      ==> r == Failure(StorageError(fault.value))
    ensures r.Success? ==>
      && r.value.reply.Created?
      && var id, db' := r.value.reply.id, r.value.db;
      && Valid(db')
      && id !in db.tasks
      && db'.tasks.Keys == db.tasks.Keys + {id}
      && Label(db'.tasks[id].priority) == priority.s
      && db'.tasks[id].text == text.s
      && db'.tasks[id].isCompleted == IntCell(0)
      && (forall k :: k in db.tasks ==> db'.tasks[k] == db.tasks[k])
      && db'.notes == db.notes
  {
    if !ValidText(text) then Failure(InvalidText)
    else if !priority.Str? || Parse(priority.s).None? then Failure(InvalidPriority)
    else if fault.Some? then Failure(StorageError(fault.value))
    else
      var id := db.nextTaskId;
      var task := Task(text.s, Parse(priority.s).value, IntCell(0));
      Success(Response(db.(tasks := db.tasks[id := task], nextTaskId := id + 1), Created(id)))
  }

  /** `DELETE /api/task/:id`: delete the task's notes, then the task; deleting an absent id succeeds. */
  function DeleteTask(db: Db, id: int, fault: Option<string>): (r: Result<Response, Error>)
    requires Valid(db)
    ensures r.Success? <==> fault.None?
    ensures r.Failure? ==> r.error == StorageError(fault.value)
    ensures r.Success? ==>
      && var db' := r.value.db;
      && r.value.reply == TaskDeleted(id)
      && Valid(db')
      && NotesOf(db', id) == {}
      && db'.tasks.Keys == db.tasks.Keys - {id}
      && db'.notes.Keys == db.notes.Keys - NotesOf(db, id)
      && (forall k :: k in db'.tasks ==> db'.tasks[k] == db.tasks[k])
      && (forall k :: k in db'.notes ==> db'.notes[k] == db.notes[k])
      && db'.nextTaskId == db.nextTaskId && db'.nextNoteId == db.nextNoteId
  {
    if fault.Some? then Failure(StorageError(fault.value))
    else
      var notes := map k | k in db.notes && db.notes[k].taskId != id :: db.notes[k];
      Success(Response(db.(tasks := db.tasks - {id}, notes := notes), TaskDeleted(id)))
  }

  /** `DELETE /api/note/:taskId/:noteId`: delete the note only if it has that id and belongs to that task. */
  function DeleteNote(db: Db, taskId: int, noteId: int, fault: Option<string>): (r: Result<Response, Error>)
    requires Valid(db)
    ensures r.Success? <==> fault.None?
    ensures r.Failure? ==> r.error == StorageError(fault.value)
    ensures r.Success? ==>
      && var db' := r.value.db;
      && r.value.reply == NoteDeleted(noteId)
      && Valid(db')
      && db'.tasks == db.tasks
      && (noteId in db.notes && db.notes[noteId].taskId == taskId ==> db'.notes.Keys == db.notes.Keys - {noteId})
      && (noteId !in db.notes || db.notes[noteId].taskId != taskId ==> db' == db)
      && (forall k :: k in db'.notes ==> db'.notes[k] == db.notes[k])
      && db'.nextTaskId == db.nextTaskId && db'.nextNoteId == db.nextNoteId
  {
    if fault.Some? then Failure(StorageError(fault.value))
    else if noteId in db.notes && db.notes[noteId].taskId == taskId then
      Success(Response(db.(notes := db.notes - {noteId}), NoteDeleted(noteId)))
    else
      Success(Response(db, NoteDeleted(noteId)))
  }

  /** `PUT /api/task/:id/complete`: store the body's `completed` value, unchecked, in `is_completed`. */
  function SetCompletion(db: Db, id: int, completed: Json, fault: Option<string>): (r: Result<Response, Error>)
    requires Valid(db)
    ensures r.Success? <==> fault.None?
    ensures r.Failure? ==> r.error == StorageError(fault.value)
    ensures r.Success? ==>
      && var db' := r.value.db;
      && r.value.reply == Updated(id)
      && Valid(db')
      && db'.notes == db.notes
      && db'.tasks.Keys == db.tasks.Keys
      && (forall k :: k in db.tasks ==>
            && db'.tasks[k].text == db.tasks[k].text
            && db'.tasks[k].priority == db.tasks[k].priority
            && db'.tasks[k].isCompleted == (if k == id then Bind(completed) else db.tasks[k].isCompleted))
      && db'.nextTaskId == db.nextTaskId && db'.nextNoteId == db.nextNoteId
  {
    if fault.Some? then Failure(StorageError(fault.value))
    else if id in db.tasks then
      Success(Response(db.(tasks := db.tasks[id := db.tasks[id].(isCompleted := Bind(completed))]), Updated(id)))
    else
      Success(Response(db, Updated(id)))
  }

  /**
   * `POST /api/task/:id/note`: reject a falsy or blank note, then insert it
   * under a fresh id. Whether task `id` exists is not checked.
   */
  function AddNote(db: Db, id: int, note: Json, fault: Option<string>): (r: Result<Response, Error>)
    requires Valid(db)
    ensures r == Failure(NoteContentEmpty) <==> !Truthy(note) || (note.Str? && Blank(note.s))
    ensures r == Failure(NoteNotAString) <==> Truthy(note) && !note.Str?
    ensures r.Success? <==> note.Str? && !Blank(note.s) && fault.None?
    ensures note.Str? && !Blank(note.s) && fault.Some? ==> r == Failure(StorageError(fault.value))
    ensures r.Success? ==> r.value.reply.NoteAdded? && NoteInserted(db, r.value.db, r.value.reply.id, Note(id, Some(note.s)))
  {
    if !Truthy(note) then Failure(NoteContentEmpty)
    else if !note.Str? then Failure(NoteNotAString)
    else if Trim(note.s) == [] then Failure(NoteContentEmpty)
    else if fault.Some? then Failure(StorageError(fault.value))
    else
      var noteId := db.nextNoteId;
      Success(Response(db.(notes := db.notes[noteId := Note(id, Some(note.s))], nextNoteId := noteId + 1), NoteAdded(noteId)))
  }

  /** `db'` is `db` with `row` added to the notes under the fresh id `noteId`; nothing else changes. */
  predicate NoteInserted(db: Db, db': Db, noteId: int, row: Note) {
    && Valid(db')
    && noteId !in db.notes
    && db'.notes.Keys == db.notes.Keys + {noteId}
    && db'.notes[noteId] == row
    && (forall k :: k in db.notes ==> db'.notes[k] == db.notes[k])
    && db'.tasks == db.tasks
  }

  /** `GET /cleanup-null-notes`: delete every note whose content is NULL (a note id is a row key, never NULL). */
  function CleanupNullNotes(db: Db, fault: Option<string>): (r: Result<Response, Error>)
    requires Valid(db)
    ensures r.Success? <==> fault.None?
    ensures r.Failure? ==> r.error == StorageError(fault.value)
    ensures r.Success? ==>
      && var db' := r.value.db;
      && r.value.reply == CleanedUp
      && Valid(db')
      && db'.tasks == db.tasks
      && (forall k :: k in db'.notes <==> k in db.notes && db.notes[k].content.Some?)
      && (forall k :: k in db'.notes ==> db'.notes[k] == db.notes[k])
      && db'.nextTaskId == db.nextTaskId && db'.nextNoteId == db.nextNoteId
  {
    if fault.Some? then Failure(StorageError(fault.value))
    else
      var notes := map k | k in db.notes && db.notes[k].content.Some? :: db.notes[k];
      Success(Response(db.(notes := notes), CleanedUp))
  }

  /**
   * The rows the `LEFT JOIN` pairs with task `taskId`, one per note, found by
   * scanning note ids 1 .. n-1 in increasing order.
   */
  function JoinedRows(db: Db, taskId: int, n: int): (r: seq<NoteView>)
    ensures forall k :: 0 <= k < |r| ==> r[k].id.Some?
    ensures r == [] <==> forall nid :: 1 <= nid < n && nid in db.notes ==> db.notes[nid].taskId != taskId
    decreases n
  {
    if n <= 1 then []
    else
      JoinedRows(db, taskId, n - 1)
      + (if n - 1 in db.notes && db.notes[n - 1].taskId == taskId
         then [NoteView(Some(n - 1), db.notes[n - 1].content)] else [])
  }

  /** `json_group_array` over the joined rows: a task without notes still gets one row of NULLs. */
  function GroupedNotes(db: Db, taskId: int): (r: seq<NoteView>)
    ensures r != []
    ensures r == [NoteView(None, None)] <==> forall nid :: nid in db.notes && 1 <= nid < db.nextNoteId ==> db.notes[nid].taskId != taskId
  {
    var rows := JoinedRows(db, taskId, db.nextNoteId);
    if rows == [] then [NoteView(None, None)] else assert rows[0].id.Some?; rows
  }

  /** The listing's filter that keeps a note only when both its id and its content are non-null. */
  function DropNullNotes(vs: seq<NoteView>): (r: seq<NoteView>)
    ensures |r| <= |vs|
    ensures forall v :: v in r <==> v in vs && v.id.Some? && v.content.Some?
  {
    if vs == [] then []
    else (if vs[0].id.Some? && vs[0].content.Some? then [vs[0]] else []) + DropNullNotes(vs[1..])
  }

  /**
   * What a task's `notes` array should hold, stated without the join: the
   * notes below `n` that belong to `taskId` and have non-null content, in
   * increasing id order.
   */
  function VisibleNotes(db: Db, taskId: int, n: int): seq<NoteView>
    decreases n
  {
    if n <= 1 then []
    else
      VisibleNotes(db, taskId, n - 1)
      + (if n - 1 in db.notes && db.notes[n - 1].taskId == taskId && db.notes[n - 1].content.Some?
         then [NoteView(Some(n - 1), db.notes[n - 1].content)] else [])
  }

  /** Every element of `vs` is a note below `n` of task `taskId`, with its id and non-null content. */
  predicate OnlyNotesOf(db: Db, taskId: int, n: int, vs: seq<NoteView>) {
    forall k :: 0 <= k < |vs| ==>
      && vs[k].id.Some? && vs[k].content.Some?
      && 1 <= vs[k].id.value < n
      && vs[k].id.value in db.notes
      && db.notes[vs[k].id.value] == Note(taskId, vs[k].content)
  }

  /** The note ids of `vs` are present and strictly increasing, so no note appears twice. */
  predicate NoteIdsIncrease(vs: seq<NoteView>) {
    forall k, l :: 0 <= k < l < |vs| ==> vs[k].id.Some? && vs[l].id.Some? && vs[k].id.value < vs[l].id.value
  }

  /** Every note below `n` of task `taskId` with non-null content appears in `vs`. */
  predicate AllNotesOf(db: Db, taskId: int, n: int, vs: seq<NoteView>) {
    forall nid ::
      (1 <= nid < n && nid in db.notes && db.notes[nid].taskId == taskId && db.notes[nid].content.Some?)
      ==> NoteView(Some(nid), db.notes[nid].content) in vs
  }

  /**
   * The visible notes are exactly the task's notes with non-null content:
   * each shown note is such a note, each such note is shown, and they are
   * shown once each, in increasing id order.
   */
  lemma {:induction false} VisibleNotesExact(db: Db, taskId: int, n: int)
    ensures OnlyNotesOf(db, taskId, n, VisibleNotes(db, taskId, n))
    ensures NoteIdsIncrease(VisibleNotes(db, taskId, n))
    ensures AllNotesOf(db, taskId, n, VisibleNotes(db, taskId, n))
  {
    VisibleNotesOnly(db, taskId, n);
    VisibleNotesIncrease(db, taskId, n);
    VisibleNotesAll(db, taskId, n);
  }

  lemma {:induction false} VisibleNotesOnly(db: Db, taskId: int, n: int)
    ensures OnlyNotesOf(db, taskId, n, VisibleNotes(db, taskId, n))
    decreases n
  {
    if n > 1 {
      VisibleNotesOnly(db, taskId, n - 1);
      var pre, vs := VisibleNotes(db, taskId, n - 1), VisibleNotes(db, taskId, n);
      forall k | 0 <= k < |vs|
        ensures vs[k].id.Some? && vs[k].content.Some? && 1 <= vs[k].id.value < n
        ensures vs[k].id.value in db.notes && db.notes[vs[k].id.value] == Note(taskId, vs[k].content)
      {
        if k == |pre| {
          assert vs[k] == NoteView(Some(n - 1), db.notes[n - 1].content);
        } else {
          assert vs[k] == pre[k];
        }
      }
    }
  }

  lemma {:induction false} VisibleNotesIncrease(db: Db, taskId: int, n: int)
    ensures NoteIdsIncrease(VisibleNotes(db, taskId, n))
    decreases n
  {
    if n > 1 {
      VisibleNotesIncrease(db, taskId, n - 1);
      VisibleNotesOnly(db, taskId, n - 1);
      var pre, vs := VisibleNotes(db, taskId, n - 1), VisibleNotes(db, taskId, n);
      forall k, l | 0 <= k < l < |vs|
        ensures vs[k].id.Some? && vs[l].id.Some? && vs[k].id.value < vs[l].id.value
      {
        assert vs[k] == pre[k];
        if l < |pre| {
          assert vs[l] == pre[l];
        } else {
          assert vs[l] == NoteView(Some(n - 1), db.notes[n - 1].content);
        }
      }
    }
  }

  lemma {:induction false} VisibleNotesAll(db: Db, taskId: int, n: int)
    ensures AllNotesOf(db, taskId, n, VisibleNotes(db, taskId, n))
    decreases n
  {
    if n > 1 {
      VisibleNotesAll(db, taskId, n - 1);
      var pre, vs := VisibleNotes(db, taskId, n - 1), VisibleNotes(db, taskId, n);
      forall nid | 1 <= nid < n && nid in db.notes && db.notes[nid].taskId == taskId && db.notes[nid].content.Some?
        ensures NoteView(Some(nid), db.notes[nid].content) in vs
      {
        if nid < n - 1 {
          var k :| 0 <= k < |pre| && pre[k] == NoteView(Some(nid), db.notes[nid].content);
          assert vs[k] == pre[k];
        } else {
          assert vs[|vs| - 1] == NoteView(Some(nid), db.notes[nid].content);
        }
      }
    }
  }

  /** Filtering distributes over concatenation. */
  lemma {:induction false} DropNullNotesAppend(a: seq<NoteView>, b: seq<NoteView>)
    ensures DropNullNotes(a + b) == DropNullNotes(a) + DropNullNotes(b)
  {
    if a == [] {
      assert a + b == b;
    } else {
      assert (a + b)[1..] == a[1..] + b;
      DropNullNotesAppend(a[1..], b);
    }
  }

  /** Joining and then dropping null rows yields exactly the visible notes. */
  lemma {:induction false} JoinThenFilter(db: Db, taskId: int, n: int)
    ensures DropNullNotes(JoinedRows(db, taskId, n)) == VisibleNotes(db, taskId, n)
    decreases n
  {
    if n > 1 {
      JoinThenFilter(db, taskId, n - 1);
      var row := if n - 1 in db.notes && db.notes[n - 1].taskId == taskId
        then [NoteView(Some(n - 1), db.notes[n - 1].content)] else [];
      DropNullNotesAppend(JoinedRows(db, taskId, n - 1), row);
    }
  }

  /** The listing's notes for a task are its visible notes: the all-NULL row of a note-less task is filtered away. */
  lemma GroupedThenFilter(db: Db, taskId: int)
    ensures DropNullNotes(GroupedNotes(db, taskId)) == VisibleNotes(db, taskId, db.nextNoteId)
  {
    JoinThenFilter(db, taskId, db.nextNoteId);
    var rows := JoinedRows(db, taskId, db.nextNoteId);
    if rows == [] {
      assert DropNullNotes([NoteView(None, None)]) == [NoteView(None, None)][1..] == [];
    }
  }

  /** The listing element for one task, exactly as the route builds it. */
  function ViewOf(db: Db, id: int): (v: TaskView)
    requires id in db.tasks
    ensures Shows(db, v)
    ensures v.id == id
  {
    GroupedThenFilter(db, id);
    var t := db.tasks[id];
    TaskView(id, t.text, Label(t.priority), t.isCompleted, DropNullNotes(GroupedNotes(db, id)))
  }

  /** `v` faithfully shows the task row with its id, together with that task's visible notes. */
  predicate Shows(db: Db, v: TaskView) {
    && v.id in db.tasks
    && v.text == db.tasks[v.id].text
    && v.priority == Label(db.tasks[v.id].priority)
    && v.isCompleted == db.tasks[v.id].isCompleted
    && v.notes == VisibleNotes(db, v.id, db.nextNoteId)
  }

  /** The listing elements for tasks with ids 1 .. n-1, one per task, in increasing id order. */
  function TaskViews(db: Db, n: int): (r: seq<TaskView>)
    ensures forall i :: 0 <= i < |r| ==> r[i].id in db.tasks && 1 <= r[i].id < n
    decreases n
  {
    if n <= 1 then []
    else TaskViews(db, n - 1) + (if n - 1 in db.tasks then [ViewOf(db, n - 1)] else [])
  }

  /** The task ids of `views` strictly increase, so no task is listed twice. */
  predicate TaskIdsIncrease(views: seq<TaskView>) {
    forall i, j :: 0 <= i < j < |views| ==> views[i].id < views[j].id
  }

  /** Every element of `views` shows a task below `n`. */
  predicate AllShowTasksBelow(db: Db, n: int, views: seq<TaskView>) {
    forall i :: 0 <= i < |views| ==> 1 <= views[i].id < n && Shows(db, views[i])
  }

  /** Every task below `n` is listed. */
  predicate AllTasksBelow(db: Db, n: int, views: seq<TaskView>) {
    forall id :: id in db.tasks && 1 <= id < n ==> exists i :: 0 <= i < |views| && views[i].id == id
  }

  /** Each task below `n` is listed exactly once, in increasing id order, as `Shows` describes it. */
  lemma {:induction false} TaskViewsExact(db: Db, n: int)
    ensures TaskIdsIncrease(TaskViews(db, n))
    ensures AllShowTasksBelow(db, n, TaskViews(db, n))
    ensures AllTasksBelow(db, n, TaskViews(db, n))
  {
    TaskViewsIncrease(db, n);
    TaskViewsShow(db, n);
    TaskViewsAll(db, n);
  }

  lemma {:induction false} TaskViewsShow(db: Db, n: int)
    ensures AllShowTasksBelow(db, n, TaskViews(db, n))
    decreases n
  {
    if n > 1 {
      TaskViewsShow(db, n - 1);
      var prefix, views := TaskViews(db, n - 1), TaskViews(db, n);
      forall i | 0 <= i < |views|
        ensures 1 <= views[i].id < n && Shows(db, views[i])
      {
        if i < |prefix| {
          assert views[i] == prefix[i];
        } else {
          assert views[i] == ViewOf(db, n - 1);
        }
      }
    }
  }

  lemma {:induction false} TaskViewsIncrease(db: Db, n: int)
    ensures TaskIdsIncrease(TaskViews(db, n))
    decreases n
  {
    if n > 1 {
      TaskViewsIncrease(db, n - 1);
      TaskViewsShow(db, n - 1);
      var prefix, views := TaskViews(db, n - 1), TaskViews(db, n);
      forall i, j | 0 <= i < j < |views|
        ensures views[i].id < views[j].id
      {
        assert views[i] == prefix[i];
        if j < |prefix| {
          assert views[j] == prefix[j];
        } else {
          assert views[j] == ViewOf(db, n - 1);
        }
      }
    }
  }

  lemma {:induction false} TaskViewsAll(db: Db, n: int)
    ensures AllTasksBelow(db, n, TaskViews(db, n))
    decreases n
  {
    if n > 1 {
      TaskViewsAll(db, n - 1);
      var prefix, views := TaskViews(db, n - 1), TaskViews(db, n);
      assert views[..|prefix|] == prefix;
      forall id | id in db.tasks && 1 <= id < n
        ensures exists i :: 0 <= i < |views| && views[i].id == id
      {
        if id < n - 1 {
          var i :| 0 <= i < |prefix| && prefix[i].id == id;
          assert views[i] == prefix[i];
        } else {
          assert views == prefix + [ViewOf(db, n - 1)];
          assert views[|views| - 1].id == id;
        }
      }
    }
  }

  /**
   * `GET /api/tasks`: every task exactly once, in increasing id order, each
   * with exactly its visible notes. The database is not changed.
   */
  function ListTasks(db: Db, fault: Option<string>): (r: Result<Response, Error>)
    requires Valid(db)
    ensures r.Success? <==> fault.None?
    ensures r.Failure? ==> r.error == StorageError(fault.value)
    ensures r.Success? ==>
      && r.value.db == db
      && r.value.reply.Listing?
      && var views := r.value.reply.data;
      && (forall i, j :: 0 <= i < j < |views| ==> views[i].id < views[j].id)
      && (forall i :: 0 <= i < |views| ==> Shows(db, views[i]))
      && (forall id :: id in db.tasks ==> exists i :: 0 <= i < |views| && views[i].id == id)
  {
    TaskViewsExact(db, db.nextTaskId);
    if fault.Some? then Failure(StorageError(fault.value))
    else Success(Response(db, Listing(TaskViews(db, db.nextTaskId))))
  }
}
