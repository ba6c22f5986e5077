/** The records the React client keeps in its `tasks` state. */
module ClientModel {
  import opened Priorities

  /** A note as the client shows it: `{id, content}`. */
  datatype ClientNote = ClientNote(id: int, content: string)

  /** A task as the client holds it after an `update` message. */
  datatype ClientTask = ClientTask(
    id: int,
    text: string,
    priority: Priority,
    isCompleted: bool,
    timestamp: string,
    notes: seq<ClientNote>)
}
