/**
 * The client's request and message logic: the guards on what the user's
 * actions send to the server, and how an incoming WebSocket message changes
 * the task list and which request it triggers. The list is only ever
 * replaced by an `update` snapshot; every acknowledgement asks for a new one.
 */
module ClientApp {
  import opened Wrappers
  import opened JsString
  import opened Priorities
  import opened ClientModel
  import opened TaskOrder

  /** A frame the client sends over the WebSocket. */
  datatype Request =
    | FetchTasks
    | AddTaskRequest(text: string, priority: string)
    | DeleteTaskRequest(taskId: int)
    | ToggleCompleteRequest(taskId: int, completed: bool)
    | ChangePriorityRequest(taskId: int, newPriority: string)
    | AddNoteRequest(noteTaskId: int, content: string)
    | DeleteNoteRequest(noteTaskId: int, noteId: int)

  /** The component state the logic reads and writes: the task list and the two modal flags. */
  datatype ClientState = ClientState(tasks: seq<ClientTask>, showPriorityModal: bool, showNoteModal: bool)

  /** What the user can do from the page. */
  datatype UserAction =
    | AddTaskAction(text: string, priority: Priority)
    | DeleteTaskAction(taskId: int)
    | ToggleCompleteAction(taskId: int)
    | ChangePriorityAction(taskId: int, newPriority: Priority)
    | AddNoteAction(noteTaskId: int, content: string)
    | DeleteNoteAction(noteTaskId: int, noteId: int)

  /** The index of the first task with id `taskId`, as `tasks.find` picks it. */
  function FindTask(tasks: seq<ClientTask>, taskId: int): (r: Option<nat>)
    ensures r.None? <==> forall k :: 0 <= k < |tasks| ==> tasks[k].id != taskId
    ensures r.Some? ==> r.value < |tasks| && tasks[r.value].id == taskId
    ensures r.Some? ==> forall k :: 0 <= k < r.value ==> tasks[k].id != taskId
  {
    if tasks == [] then None
    else if tasks[0].id == taskId then Some(0)
    else
      match FindTask(tasks[1..], taskId)
      case None => None
      case Some(i) => Some(i + 1)
  }

  /** `addTask`: a text that trims to nothing sends nothing; otherwise the untrimmed text is sent. */
  function AddTask(text: string, priority: Priority): (r: Option<Request>)
    ensures r.None? <==> Blank(text)
    ensures r.Some? ==> r.value.AddTaskRequest? && r.value.text == text && Parse(r.value.priority) == Some(priority)
  {
    ParseLabel(priority);
    if Trim(text) == [] then None else Some(AddTaskRequest(text, Label(priority)))
  }

  /**
   * `toggleCompleteTask`: ask for the opposite of the completion of the first
   * task with the id; send nothing if no task has it.
   */
  function ToggleCompleteTask(state: ClientState, taskId: int): (r: Option<Request>)
    ensures r.None? <==> forall k :: 0 <= k < |state.tasks| ==> state.tasks[k].id != taskId
    ensures r.Some? ==> exists k ::
      && 0 <= k < |state.tasks| && state.tasks[k].id == taskId
      && (forall j :: 0 <= j < k ==> state.tasks[j].id != taskId)
      && r.value == ToggleCompleteRequest(taskId, !state.tasks[k].isCompleted)
  {
    match FindTask(state.tasks, taskId)
    case None => None
    case Some(i) => Some(ToggleCompleteRequest(taskId, !state.tasks[i].isCompleted))
  }

  /** `addNoteToTask`: a blank note sends nothing and keeps the modal open; otherwise it is sent and the modal closes. */
  function AddNoteToTask(state: ClientState, taskId: int, content: string): (r: (ClientState, Option<Request>))
    ensures r.1.None? <==> Blank(content)
    ensures r.1.None? ==> r.0 == state
    ensures r.1.Some? ==> r.1.value == AddNoteRequest(taskId, content) && r.0 == state.(showNoteModal := false)
  {
    if Trim(content) == [] then (state, None)
    else (state.(showNoteModal := false), Some(AddNoteRequest(taskId, content)))
  }

  /**
   * One user action: the new state and the request it sends, if any. No
   * action edits the task list itself; a request is withheld only for a
   * blank task text, a blank note, or a toggle of an unknown task.
   */
  function Act(state: ClientState, action: UserAction): (r: (ClientState, Option<Request>))
    ensures r.0.tasks == state.tasks
    ensures r.1.None? <==>
      || (action.AddTaskAction? && Blank(action.text))
      || (action.AddNoteAction? && Blank(action.content))
      || (action.ToggleCompleteAction? && forall k :: 0 <= k < |state.tasks| ==> state.tasks[k].id != action.taskId)
  {
    match action
    case AddTaskAction(text, p) => (state, AddTask(text, p))
    case DeleteTaskAction(id) => (state, Some(DeleteTaskRequest(id)))
    case ToggleCompleteAction(id) => (state, ToggleCompleteTask(state, id))
    case ChangePriorityAction(id, p) =>
      (state.(showPriorityModal := false), Some(ChangePriorityRequest(id, Label(p))))
    case AddNoteAction(id, content) => AddNoteToTask(state, id, content)
    case DeleteNoteAction(taskId, noteId) => (state, Some(DeleteNoteRequest(taskId, noteId)))
  }

  /** The `notes` field of a task in an `update` frame: an array, or anything else. */
  datatype NotesField = NotesArray(notes: seq<ClientNote>) | NotAnArray

  /** A task as it arrives in an `update` frame. */
  datatype WireTask = WireTask(
    id: int,
    text: string,
    priority: Priority,
    isCompleted: bool,
    timestamp: string,
    notes: NotesField)

  /** An incoming frame: its `type`, and its `tasks` field when that is an array. */
  datatype Message = Message(kind: string, tasks: Option<seq<WireTask>>)

  /** The six acknowledgement types, each answered by asking for the full list again. */
  const AckKinds: seq<string> :=
    ["taskAdded", "taskDeleted", "taskUpdated", "priorityUpdated", "noteAdded", "noteDeleted"]

  /** Keeps every field of each received task, replacing a `notes` that is not an array by `[]`. */
  function NormalizeTasks(ws: seq<WireTask>): (ts: seq<ClientTask>)
    ensures |ts| == |ws|
    ensures forall k :: 0 <= k < |ts| ==>
      && ts[k].id == ws[k].id && ts[k].text == ws[k].text && ts[k].priority == ws[k].priority
      && ts[k].isCompleted == ws[k].isCompleted && ts[k].timestamp == ws[k].timestamp
      && ts[k].notes == (if ws[k].notes.NotesArray? then ws[k].notes.notes else [])
  {
    if ws == [] then []
    else
      var w := ws[0];
      var notes := match w.notes case NotesArray(ns) => ns case NotAnArray => [];
      [ClientTask(w.id, w.text, w.priority, w.isCompleted, w.timestamp, notes)] + NormalizeTasks(ws[1..])
  }

  /**
   * `handleSocketMessage`: the new state and the requests the message
   * triggers. An `update` whose `tasks` is not an array throws before
   * `setTasks`, so it changes nothing.
   */
  function HandleMessage(state: ClientState, msg: Message): (r: (ClientState, seq<Request>))
    ensures msg.kind in AckKinds ==> r == (state, [FetchTasks])
    ensures msg.kind == "update" && msg.tasks.Some? ==>
      && r.1 == []
      && r.0.showPriorityModal == state.showPriorityModal && r.0.showNoteModal == state.showNoteModal
      && |r.0.tasks| == |msg.tasks.value|
      && forall k :: 0 <= k < |r.0.tasks| ==>
           r.0.tasks[k].id == msg.tasks.value[k].id
           && r.0.tasks[k].text == msg.tasks.value[k].text
           && r.0.tasks[k].priority == msg.tasks.value[k].priority
           && r.0.tasks[k].isCompleted == msg.tasks.value[k].isCompleted
           && r.0.tasks[k].timestamp == msg.tasks.value[k].timestamp
           && r.0.tasks[k].notes == (if msg.tasks.value[k].notes.NotesArray? then msg.tasks.value[k].notes.notes else [])
    ensures !(msg.kind == "update" && msg.tasks.Some?) && msg.kind !in AckKinds ==> r == (state, [])
  {
    if msg.kind == "update" then
      match msg.tasks
      case Some(ws) => (state.(tasks := NormalizeTasks(ws)), [])
      case None => (state, [])
    else if msg.kind in AckKinds then (state, [FetchTasks])
    else (state, [])
  }

  /** The task list after an `update` is the received snapshot whatever the list was before, so repeating it changes nothing. */
  lemma UpdateReplacesList(s1: ClientState, s2: ClientState, ws: seq<WireTask>)
    ensures HandleMessage(s1, Message("update", Some(ws))).0.tasks == HandleMessage(s2, Message("update", Some(ws))).0.tasks
    ensures
      var once := HandleMessage(s1, Message("update", Some(ws))).0;
      HandleMessage(once, Message("update", Some(ws))).0 == once
  {
  }

  /**
   * Toggling round trip: if the next snapshot reports the task with the
   * completion the toggle asked for, the task moves to the other list.
   */
  lemma ToggleMovesTask(state: ClientState, i: nat, w: WireTask, ws: seq<WireTask>)
    requires i < |state.tasks|
    requires FindTask(state.tasks, state.tasks[i].id) == Some(i)
    requires w in ws && w.id == state.tasks[i].id
    requires w.isCompleted == ToggleCompleteTask(state, state.tasks[i].id).value.completed
    ensures
      var after := HandleMessage(state, Message("update", Some(ws))).0.tasks;
      exists t :: t in after && t.id == w.id &&
        (state.tasks[i].isCompleted <==> t in IncompleteTasks(after)) &&
        (!state.tasks[i].isCompleted <==> t in CompletedTasks(after))
  {
    var after := HandleMessage(state, Message("update", Some(ws))).0.tasks;
    var k :| 0 <= k < |ws| && ws[k] == w;
    assert after[k] in after;
  }
}
