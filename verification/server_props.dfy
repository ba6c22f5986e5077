/** Properties of the REST server that relate several requests. */
module ServerProperties {
  import opened Wrappers
  import opened Priorities
  import opened Store
  import opened Server

  /** Every handler keeps the database free of dangling notes, except adding a note to a task that does not exist. */
  lemma HandlersKeepNotesAttached(db: Db, id: int, noteId: int, text: Json, priority: Json, body: Json)
    requires Valid(db) && NoDanglingNotes(db)
    ensures CreateTask(db, text, priority, None).Success? ==> NoDanglingNotes(CreateTask(db, text, priority, None).value.db)
    ensures NoDanglingNotes(DeleteTask(db, id, None).value.db)
    ensures NoDanglingNotes(DeleteNote(db, id, noteId, None).value.db)
    ensures NoDanglingNotes(SetCompletion(db, id, body, None).value.db)
    ensures NoDanglingNotes(CleanupNullNotes(db, None).value.db)
    ensures AddNote(db, id, body, None).Success? ==>
      (NoDanglingNotes(AddNote(db, id, body, None).value.db) <==> id in db.tasks)
  {
    DeleteTaskKeepsNotesAttached(db, id);
    AddNoteAttachesIff(db, id, body);
  }

  /** Deleting a task deletes its notes with it, so no note is left dangling. */
  lemma DeleteTaskKeepsNotesAttached(db: Db, id: int)
    requires Valid(db) && NoDanglingNotes(db)
    ensures NoDanglingNotes(DeleteTask(db, id, None).value.db)
  {
    var d := DeleteTask(db, id, None).value.db;
    forall k | k in d.notes
      ensures d.notes[k].taskId in d.tasks
    {
      assert k !in NotesOf(db, id);
    }
  }

  /** An added note is attached exactly when its task exists. */
  lemma AddNoteAttachesIff(db: Db, id: int, body: Json)
    requires Valid(db) && NoDanglingNotes(db)
    ensures AddNote(db, id, body, None).Success? ==>
      (NoDanglingNotes(AddNote(db, id, body, None).value.db) <==> id in db.tasks)
  {
    var a := AddNote(db, id, body, None);
    if a.Success? {
      var nid := a.value.reply.id;
      assert a.value.db.notes[nid].taskId == id;
    }
  }

  /**
   * A note added to the id the next created task will receive is not
   * rejected, and it is listed under that task once the task is created.
   */
  lemma OrphanNoteIsAdopted(db: Db, note: string, text: string, p: Priority)
    requires Valid(db)
    requires !JsString.Blank(note)
    requires JsString.Utf16Length(text) <= MaxTextLength
    ensures
      var noted := AddNote(db, db.nextTaskId, Server.Str(note), None);
      && noted.Success?
      && var created := CreateTask(noted.value.db, Server.Str(text), Server.Str(Label(p)), None);
      && created.Success?
      && created.value.reply == Created(db.nextTaskId)
      && var v := ViewWithId(ListTasks(created.value.db, None).value.reply.data, db.nextTaskId);
      && v.Some?
      && NoteView(Some(noted.value.reply.id), Some(note)) in v.value.notes
  {
    Priorities.ParseLabel(p);
    var id := db.nextTaskId;
    var noted := AddNote(db, id, Server.Str(note), None).value;
    var nid := noted.reply.id;
    var created := CreateTask(noted.db, Server.Str(text), Server.Str(Label(p)), None);
    assert created.Success?;
    var db2 := created.value.db;
    assert db2.notes[nid] == Note(id, Some(note));
    ListedViewShows(db2, id);
    VisibleNotesExact(db2, id, db2.nextNoteId);
    assert AllNotesOf(db2, id, db2.nextNoteId, VisibleNotes(db2, id, db2.nextNoteId));
  }

  /** Without notes that point at task `taskId`, the task's visible notes are empty. */
  lemma {:induction false} NoNotesShowNothing(db: Db, taskId: int, n: int)
    requires NotesOf(db, taskId) == {}
    ensures VisibleNotes(db, taskId, n) == []
    decreases n
  {
    if n > 1 {
      NoNotesShowNothing(db, taskId, n - 1);
      assert n - 1 !in NotesOf(db, taskId);
    }
  }

  /** The view of task `id` in a listing, if the listing holds one. */
  function ViewWithId(views: seq<TaskView>, id: int): (r: Option<TaskView>)
    ensures r.Some? ==> r.value in views && r.value.id == id
    ensures r.None? ==> forall i :: 0 <= i < |views| ==> views[i].id != id
  {
    if views == [] then None
    else if views[0].id == id then Some(views[0])
    else ViewWithId(views[1..], id)
  }

  /** A created task is listed with its text and priority, incomplete, and without notes. */
  lemma CreatedTaskIsListed(db: Db, text: string, p: Priority)
    requires Valid(db) && NoDanglingNotes(db)
    requires JsString.Utf16Length(text) <= MaxTextLength
    ensures
      var created := CreateTask(db, Server.Str(text), Server.Str(Label(p)), None);
      && created.Success?
      && NoDanglingNotes(created.value.db)
      && var id := created.value.reply.id;
      && ViewWithId(ListTasks(created.value.db, None).value.reply.data, id)
         == Some(TaskView(id, text, Label(p), IntCell(0), []))
  {
    Priorities.ParseLabel(p);
    var created := CreateTask(db, Server.Str(text), Server.Str(Label(p)), None);
    assert created.Success?;
    var id := created.value.reply.id;
    var db1 := created.value.db;
    assert NotesOf(db1, id) == {} by {
      forall k | k in db1.notes
        ensures db1.notes[k].taskId != id
      {
        assert db1.notes[k].taskId in db.tasks;
      }
    }
    NoNotesShowNothing(db1, id, db1.nextNoteId);
    ListedViewShows(db1, id);
  }

  /** A note added to a task that had none is listed as that task's only note. */
  lemma AddedNoteIsListed(db: Db, id: int, note: string)
    requires Valid(db) && id in db.tasks && NotesOf(db, id) == {}
    requires !JsString.Blank(note)
    ensures
      var noted := AddNote(db, id, Server.Str(note), None);
      && noted.Success?
      && var nid, t := noted.value.reply.id, db.tasks[id];
      && ViewWithId(ListTasks(noted.value.db, None).value.reply.data, id)
         == Some(TaskView(id, t.text, Label(t.priority), t.isCompleted, [NoteView(Some(nid), Some(note))]))
  {
    var noted := AddNote(db, id, Server.Str(note), None);
    var nid := noted.value.reply.id;
    var db2 := noted.value.db;
    assert db2.nextNoteId == nid + 1;
    assert NotesOf(db2, id) == {nid} by {
      forall k | k in db2.notes && k != nid
        ensures db2.notes[k].taskId != id
      {
        assert k !in NotesOf(db, id);
      }
    }
    NoNotesShowNothing(db2.(notes := db.notes), id, nid);
    SameNotesShowSame(db2.(notes := db.notes), db2, id, nid);
    assert VisibleNotes(db2, id, db2.nextNoteId) == [NoteView(Some(nid), Some(note))];
    ListedViewShows(db2, id);
  }

  /** Visible notes below `n` depend only on the notes below `n`. */
  lemma {:induction false} SameNotesShowSame(a: Db, b: Db, taskId: int, n: int)
    requires forall k :: 1 <= k < n ==> (k in a.notes <==> k in b.notes)
    requires forall k :: 1 <= k < n && k in a.notes ==> a.notes[k] == b.notes[k]
    ensures VisibleNotes(a, taskId, n) == VisibleNotes(b, taskId, n)
    decreases n
  {
    if n > 1 {
      SameNotesShowSame(a, b, taskId, n - 1);
    }
  }

  /** A deleted task is no longer listed, and no note refers to it. */
  lemma DeletedTaskIsUnlisted(db: Db, id: int)
    requires Valid(db)
    ensures
      var deleted := DeleteTask(db, id, None).value.db;
      && ViewWithId(ListTasks(deleted, None).value.reply.data, id) == None
      && NotesOf(deleted, id) == {}
  {
    var deleted := DeleteTask(db, id, None).value.db;
    var views := ListTasks(deleted, None).value.reply.data;
    assert forall i :: 0 <= i < |views| ==> views[i].id in deleted.tasks;
  }

  /**
   * The round trip the user sees: a created task is listed incomplete with
   * no notes; after a note is added it is listed with exactly that note;
   * after it is deleted it is no longer listed, and no note points at it.
   */
  lemma CreateNoteDeleteRoundTrip(db: Db, text: string, p: Priority, note: string)
    requires Valid(db) && NoDanglingNotes(db)
    requires JsString.Utf16Length(text) <= MaxTextLength
    requires !JsString.Blank(note)
    ensures
      var created := CreateTask(db, Server.Str(text), Server.Str(Label(p)), None);
      && created.Success?
      && var id := created.value.reply.id;
      && ViewWithId(ListTasks(created.value.db, None).value.reply.data, id)
         == Some(TaskView(id, text, Label(p), IntCell(0), []))
      && var noted := AddNote(created.value.db, id, Server.Str(note), None);
      && noted.Success?
      && var nid := noted.value.reply.id;
      && ViewWithId(ListTasks(noted.value.db, None).value.reply.data, id)
         == Some(TaskView(id, text, Label(p), IntCell(0), [NoteView(Some(nid), Some(note))]))
      && var deleted := DeleteTask(noted.value.db, id, None).value.db;
      && ViewWithId(ListTasks(deleted, None).value.reply.data, id) == None
      && NotesOf(deleted, id) == {}
  {
    CreatedTaskIsListed(db, text, p);
    var created := CreateTask(db, Server.Str(text), Server.Str(Label(p)), None).value;
    var id := created.reply.id;
    assert NotesOf(created.db, id) == {} by {
      forall k | k in created.db.notes
        ensures created.db.notes[k].taskId != id
      {
        assert created.db.notes[k].taskId in db.tasks;
      }
    }
    AddedNoteIsListed(created.db, id, note);
    DeletedTaskIsUnlisted(AddNote(created.db, id, Server.Str(note), None).value.db, id);
  }

  /** The listing's view of a task is the one `Shows` describes. */
  lemma ListedViewShows(db: Db, id: int)
    requires Valid(db) && id in db.tasks
    ensures
      var v := ViewWithId(ListTasks(db, None).value.reply.data, id);
      && v.Some? && Shows(db, v.value)
  {
    var views := ListTasks(db, None).value.reply.data;
    var i :| 0 <= i < |views| && views[i].id == id;
    assert views[i] in views;
  }

  /** Deleting a task twice leaves the database as deleting it once. */
  lemma DeleteTaskIdempotent(db: Db, id: int)
    requires Valid(db)
    ensures
      var once := DeleteTask(db, id, None).value.db;
      DeleteTask(once, id, None).value.db == once
  {
    var once := DeleteTask(db, id, None).value.db;
    var twice := DeleteTask(once, id, None).value.db;
    assert twice.notes == once.notes;
    assert twice.tasks == once.tasks;
  }

  /** Deleting a note twice leaves the database as deleting it once. */
  lemma DeleteNoteIdempotent(db: Db, taskId: int, noteId: int)
    requires Valid(db)
    ensures
      var once := DeleteNote(db, taskId, noteId, None).value.db;
      DeleteNote(once, taskId, noteId, None).value.db == once
  {
  }

  /** Cleanup removes only notes the listing already hides, so the listing is the same before and after. */
  lemma CleanupKeepsListing(db: Db)
    requires Valid(db)
    ensures
      var cleaned := CleanupNullNotes(db, None).value.db;
      ListTasks(cleaned, None).value.reply == ListTasks(db, None).value.reply
  {
    var cleaned := CleanupNullNotes(db, None).value.db;
    CleanupKeepsViews(db, cleaned, db.nextTaskId);
  }

  lemma {:induction false} CleanupKeepsVisibleNotes(db: Db, cleaned: Db, taskId: int, n: int)
    requires Valid(db)
    requires cleaned == CleanupNullNotes(db, None).value.db
    ensures VisibleNotes(cleaned, taskId, n) == VisibleNotes(db, taskId, n)
    decreases n
  {
    if n > 1 {
      CleanupKeepsVisibleNotes(db, cleaned, taskId, n - 1);
    }
  }

  lemma {:induction false} CleanupKeepsViews(db: Db, cleaned: Db, n: int)
    requires Valid(db)
    requires cleaned == CleanupNullNotes(db, None).value.db
    ensures TaskViews(cleaned, n) == TaskViews(db, n)
    decreases n
  {
    if n > 1 {
      CleanupKeepsViews(db, cleaned, n - 1);
      assert cleaned.tasks == db.tasks && cleaned.nextNoteId == db.nextNoteId;
      if n - 1 in db.tasks {
        CleanupKeepsVisibleNotes(db, cleaned, n - 1, cleaned.nextNoteId);
        var a, b := ViewOf(cleaned, n - 1), ViewOf(db, n - 1);
        assert Shows(cleaned, a) && Shows(db, b);
        assert a == b;
        assert TaskViews(cleaned, n) == TaskViews(cleaned, n - 1) + [a];
        assert TaskViews(db, n) == TaskViews(db, n - 1) + [b];
      } else {
        assert TaskViews(cleaned, n) == TaskViews(cleaned, n - 1);
        assert TaskViews(db, n) == TaskViews(db, n - 1);
      }
    }
  }

  /** Listing twice with no request in between yields the same data. */
  lemma ListTwice(db: Db)
    requires Valid(db)
    ensures
      var first := ListTasks(db, None).value;
      ListTasks(first.db, None).value == first
  {
  }
}
