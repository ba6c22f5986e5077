/**
 * The server's SQLite database: the `tasks` table and the `notes` table, each
 * a map from row id to row, plus the row id each table assigns next.
 */
module Store {
  import opened Wrappers
  import opened Priorities

  /** A value in a SQLite column, as the sqlite3 driver binds a JavaScript value. */
  datatype Cell = IntCell(i: int) | TextCell(t: string) | NullCell

  /** A row of `tasks` without its id: the text, the priority label and the `is_completed` column. */
  datatype Task = Task(text: string, priority: Priority, isCompleted: Cell)

  /** A row of `notes` without its id: the owning task's id and the `note` column, which may be NULL. */
  datatype Note = Note(taskId: int, content: Option<string>)

  datatype Db = Db(tasks: map<int, Task>, notes: map<int, Note>, nextTaskId: int, nextNoteId: int)

  /** Row ids start at 1, and every id in use lies below the id its table hands out next. */
  predicate Valid(db: Db) {
    && 1 <= db.nextTaskId
    && 1 <= db.nextNoteId
    && (forall id :: id in db.tasks ==> 1 <= id < db.nextTaskId)
    && (forall id :: id in db.notes ==> 1 <= id < db.nextNoteId)
  }

  /** A freshly created database file. */
  const EmptyDb: Db := Db(map[], map[], 1, 1)

  /** The ids of the notes whose `task_id` is `taskId`. */
  function NotesOf(db: Db, taskId: int): set<int> {
    set id | id in db.notes && db.notes[id].taskId == taskId
  }

  /** Every note points at a task that exists. The schema does not enforce this. */
  predicate NoDanglingNotes(db: Db) {
    forall id :: id in db.notes ==> db.notes[id].taskId in db.tasks
  }
}
