/**
 Tasks, boards and commands of the control plane, and what commands do to single values.
 */
module WorkItems {
  import opened Outcomes
  import opened Text

  type Id = string

  const U64_MAX: int := 0xFFFF_FFFF_FFFF_FFFF
  const I64_MAX: int := 0x7FFF_FFFF_FFFF_FFFF

  type u64 = n: int | 0 <= n <= U64_MAX
  type i64 = n: int | -I64_MAX - 1 <= n <= I64_MAX

  /** The two's-complement reinterpretation with which unsigned values are stored. */
  function AsI64(n: u64): i64 {
    if n <= I64_MAX then n else n - U64_MAX - 1
  }

  function SaturatingSuccessor(n: u64): u64 {
    if n == U64_MAX then n else n + 1
  }

  datatype Status = Pending | Assigned | InProgress | Done

  datatype Task = Task(
    id: Id, sessionId: Id, title: string, description: string,
    status: Status, statusTimestamps: map<Status, u64>,
    assignedPaneId: Option<string>, assignedRole: Option<string>, baselineRef: Option<string>,
    worktreePath: Option<string>, commitMessage: Option<string>, resultSummary: Option<string>,
    createdAt: u64, updatedAt: u64)

  datatype Brief = Brief(purpose: string, notes: string, updatedAt: string)

  datatype BoardDoc = BoardDoc(revision: u64, tasks: map<Id, Task>, taskOrder: seq<Id>, brief: Option<Brief>)

  /** An absent field keeps its value; a present `None` clears it. */
  type Field = Option<Option<string>>

  datatype TaskPatch = TaskPatch(
    title: Field, description: Field, status: Option<Status>,
    assignedPaneId: Field, assignedRole: Field, baselineRef: Field,
    worktreePath: Field, commitMessage: Field, resultSummary: Field)

  const EMPTY_PATCH: TaskPatch := TaskPatch(None, None, None, None, None, None, None, None, None)

  datatype Command =
    | BoardRead(session: Id)
    | BoardWrite(session: Id, board: BoardDoc, expectedRevision: u64)
    | TaskCreate(session: Id, title: string, description: Option<string>)
    | TaskUpdate(session: Id, taskId: Id, patch: TaskPatch)
    | TaskDelete(session: Id, taskId: Id)
    | TaskDone(session: Id, taskId: Id, commitMessage: Option<string>, resultSummary: Option<string>)
    | TaskNote(session: Id, taskId: Id, message: string)
    | BriefGet(session: Id)
    | BriefSet(session: Id, purpose: string, notes: string)
  {
    predicate Mutates() {
      !BoardRead? && !BriefGet?
    }
  }

  datatype Response = Board(board: BoardDoc) | TaskReply(task: Task) | BriefReply(brief: Option<Brief>) | Ack

  datatype Error =
    | InvalidSession | OperationConflict | StaleRevision(expected: u64, current: u64)
    | MissingTask(id: Id) | SessionMismatch | ConstraintViolation | TaskNotFound(id: Id)
    | TitleRequired | NoteRequired

  /**
   What a command reads from its surroundings: the clock, a fresh identifier, and the
   order in which the hash map of a board's tasks happens to be walked.
   */
  datatype Env = Env(now: u64, nowText: string, uuid: Id, keys: seq<Id>)

  ghost predicate Enumerates<T>(keys: seq<Id>, tasks: map<Id, T>) {
    && (forall i, j :: 0 <= i < j < |keys| ==> keys[i] != keys[j])
    && forall key :: key in keys <==> key in tasks
  }

  // ---------------------------------------------------------------------------
  // Tasks
  // ---------------------------------------------------------------------------

  function NewTask(session: Id, title: string, description: Option<string>, env: Env): Task {
    Task(env.uuid, session, TrimText(title), match description case Some(d) => d case None => "",
         Pending, map[Pending := env.now], None, None, None, None, None, None, env.now, env.now)
  }

  function PatchedField(value: Option<string>, field: Field): Option<string> {
    match field
    case None => value
    case Some(None) => None
    case Some(Some(text)) => if TrimText(text) == "" then None else Some(TrimText(text))
  }

  function WithStatus(task: Task, status: Status, now: u64): Task {
    task.(status := status, statusTimestamps := task.statusTimestamps[status := now])
  }

  function ApplyPatch(task: Task, patch: TaskPatch, now: u64): Result<Task, Error> {
    var title := match patch.title
      case None => Some(task.title)
      case Some(text) =>
        var trimmed := TrimText(if text.Some? then text.value else "");
        if trimmed == "" then None else Some(trimmed);
    if title.None? then Err(TitleRequired)
    else
      var described := task.(
        title := title.value,
        description := match patch.description
                       case None => task.description
                       case Some(text) => if text.Some? then text.value else "");
      var moved := if patch.status.Some? && patch.status.value != task.status
                   then WithStatus(described, patch.status.value, now) else described;
      Ok(moved.(
        assignedPaneId := PatchedField(task.assignedPaneId, patch.assignedPaneId),
        assignedRole := PatchedField(task.assignedRole, patch.assignedRole),
        baselineRef := PatchedField(task.baselineRef, patch.baselineRef),
        worktreePath := PatchedField(task.worktreePath, patch.worktreePath),
        commitMessage := PatchedField(task.commitMessage, patch.commitMessage),
        resultSummary := PatchedField(task.resultSummary, patch.resultSummary),
        updatedAt := now))
  }

  function DonePatch(commitMessage: Option<string>, resultSummary: Option<string>): TaskPatch {
    EMPTY_PATCH.(
      status := Some(Done),
      commitMessage := if commitMessage.Some? then Some(commitMessage) else None,
      resultSummary := if resultSummary.Some? then Some(resultSummary) else None)
  }

  /** Appends a note to the summary; an unfinished task is thereby in progress. */
  function Noted(task: Task, note: string, now: u64): Task {
    var summary := if task.resultSummary.Some? && task.resultSummary.value != ""
                   then task.resultSummary.value + "\n" + note else note;
    var moved := if task.status != Done then WithStatus(task, InProgress, now) else task;
    moved.(resultSummary := Some(summary), updatedAt := now)
  }

  /** The commands that read one task, change it, and write it back. */
  predicate Edits(command: Command) {
    command.TaskUpdate? || command.TaskDone? || command.TaskNote?
  }

  function Edited(task: Task, command: Command, now: u64): Result<Task, Error>
    requires Edits(command)
  {
    match command
    case TaskUpdate(_, _, patch) => ApplyPatch(task, patch, now)
    case TaskDone(_, _, commitMessage, resultSummary) => ApplyPatch(task, DonePatch(commitMessage, resultSummary), now)
    case TaskNote(_, _, message) => Ok(Noted(task, TrimText(message), now))
  }

  /** Editing never changes what a task is: its id, its session, its creation time. */
  lemma EditKeepsIdentity(task: Task, command: Command, now: u64)
    requires Edits(command) && Edited(task, command, now).Ok?
    ensures var edited := Edited(task, command, now).value;
            edited.id == task.id && edited.sessionId == task.sessionId && edited.createdAt == task.createdAt
            && edited.updatedAt == now
  {
  }

  /** A status change is stamped with its time; no other stamp is touched. */
  lemma EditStampsStatus(task: Task, command: Command, now: u64)
    requires Edits(command) && Edited(task, command, now).Ok?
    ensures var edited := Edited(task, command, now).value;
            && (edited.status != task.status ==> edited.status in edited.statusTimestamps
                                                 && edited.statusTimestamps[edited.status] == now)
            && (forall status :: status != edited.status ==>
                  (status in edited.statusTimestamps <==> status in task.statusTimestamps)
                  && (status in task.statusTimestamps ==>
                        edited.statusTimestamps[status] == task.statusTimestamps[status]))
            && (task.status in task.statusTimestamps ==> edited.status in edited.statusTimestamps)
  {
  }

  /** A field a patch does not name keeps its value; one it names holds tight text or nothing. */
  ghost predicate Follows(before: Option<string>, field: Field, after: Option<string>) {
    && (field.None? ==> after == before)
    && (field == Some(None) ==> after == None)
    && (field.Some? && after.Some? ==> after.value != "" && Tight(after.value, UnicodeBlank))
    && (field.Some? && field.value.Some? && after.None? ==> TrimText(field.value.value) == "")
    && (field.Some? && field.value.Some? && after.Some? ==> after.value == TrimText(field.value.value))
  }

  lemma FieldFollows(value: Option<string>, field: Field)
    ensures Follows(value, field, PatchedField(value, field))
  {
    if field.Some? && field.value.Some? {
      TrimIsExact(field.value.value, UnicodeBlank);
    }
  }

  /** Every field of a patched task follows its own field of the patch, and no other. */
  lemma PatchIsFieldwise(task: Task, patch: TaskPatch, now: u64)
    requires ApplyPatch(task, patch, now).Ok?
    ensures var patched := ApplyPatch(task, patch, now).value;
            && Follows(task.assignedPaneId, patch.assignedPaneId, patched.assignedPaneId)
            && Follows(task.assignedRole, patch.assignedRole, patched.assignedRole)
            && Follows(task.baselineRef, patch.baselineRef, patched.baselineRef)
            && Follows(task.worktreePath, patch.worktreePath, patched.worktreePath)
            && Follows(task.commitMessage, patch.commitMessage, patched.commitMessage)
            && Follows(task.resultSummary, patch.resultSummary, patched.resultSummary)
            && Follows(Some(task.title), patch.title, Some(patched.title))
  {
    FieldFollows(task.assignedPaneId, patch.assignedPaneId);
    FieldFollows(task.assignedRole, patch.assignedRole);
    FieldFollows(task.baselineRef, patch.baselineRef);
    FieldFollows(task.worktreePath, patch.worktreePath);
    FieldFollows(task.commitMessage, patch.commitMessage);
    FieldFollows(task.resultSummary, patch.resultSummary);
    FieldFollows(Some(task.title), patch.title);
  }

  /** The description is taken as it is, the status as named, and the update is dated. */
  lemma PatchSetsTheRest(task: Task, patch: TaskPatch, now: u64)
    requires ApplyPatch(task, patch, now).Ok?
    ensures var patched := ApplyPatch(task, patch, now).value;
            && (patch.description.None? ==> patched.description == task.description)
            && (patch.description == Some(None) ==> patched.description == "")
            && (patch.description.Some? && patch.description.value.Some? ==>
                  patched.description == patch.description.value.value)
            && patched.status == (if patch.status.Some? then patch.status.value else task.status)
            && patched.updatedAt == now
  {
  }

  /** A patch is refused exactly when the title it names is null or nothing but blanks. */
  lemma PatchFailsIff(task: Task, patch: TaskPatch, now: u64)
    ensures ApplyPatch(task, patch, now).Err?
            <==> patch.title.Some? && (patch.title.value.Some? ==> AllBlank(patch.title.value.value, UnicodeBlank))
    ensures ApplyPatch(task, patch, now).Err? ==> ApplyPatch(task, patch, now) == Err(TitleRequired)
  {
    if patch.title.Some? && patch.title.value.Some? {
      TrimIsEmptyIff(patch.title.value.value, UnicodeBlank);
    }
  }

  /** A patch applied to its own result, at whatever later time, changes the time of the update only. */
  lemma PatchTwice(task: Task, patch: TaskPatch, now: u64, later: u64)
    requires ApplyPatch(task, patch, now).Ok?
    ensures var patched := ApplyPatch(task, patch, now).value;
            ApplyPatch(patched, patch, later) == Ok(patched.(updatedAt := later))
  {
  }

  // ---------------------------------------------------------------------------
  // Notes
  // ---------------------------------------------------------------------------

  function Joined(lines: seq<string>): string {
    if lines == [] then "" else if |lines| == 1 then lines[0]
    else Joined(lines[..|lines| - 1]) + "\n" + lines[|lines| - 1]
  }

  function NotedAll(task: Task, notes: seq<string>, now: u64): Task {
    if notes == [] then task else Noted(NotedAll(task, notes[..|notes| - 1], now), notes[|notes| - 1], now)
  }

  /** The lines a summary starts with. */
  function SummaryLines(task: Task): seq<string> {
    if task.resultSummary.Some? && task.resultSummary.value != "" then [task.resultSummary.value] else []
  }

  /** Notes accumulate, one line each, in order; they start a task but never reopen a finished one. */
  lemma {:induction false} NotesAccumulate(task: Task, notes: seq<string>, now: u64)
    requires notes != [] && forall i :: 0 <= i < |notes| ==> notes[i] != ""
    ensures NotedAll(task, notes, now).resultSummary == Some(Joined(SummaryLines(task) + notes))
    ensures NotedAll(task, notes, now).status == if task.status == Done then Done else InProgress
  {
    var before, last := notes[..|notes| - 1], notes[|notes| - 1];
    var lines := SummaryLines(task) + notes;
    assert lines[..|lines| - 1] == SummaryLines(task) + before;
    if before == [] {
      assert SummaryLines(task) + before == SummaryLines(task);
    } else {
      NotesAccumulate(task, before, now);
      JoinedIsNotEmpty(SummaryLines(task) + before);
    }
  }

  lemma JoinedIsNotEmpty(lines: seq<string>)
    requires lines != [] && lines[|lines| - 1] != ""
    ensures Joined(lines) != ""
  {
  }

  // ---------------------------------------------------------------------------
  // Boards
  // ---------------------------------------------------------------------------

  /** The listed ids that name a task. */
  function Retained(order: seq<Id>, tasks: map<Id, Task>): seq<Id> {
    if order == [] then []
    else (if order[0] in tasks then [order[0]] else []) + Retained(order[1..], tasks)
  }

  /** The ids of tasks, walked in the order of `keys`, that `listed` leaves out. */
  function Unlisted(keys: seq<Id>, tasks: map<Id, Task>, listed: seq<Id>): seq<Id>
    requires forall key :: key in keys ==> key in tasks
  {
    if keys == [] then []
    else
      var id := tasks[keys[0]].id;
      (if id in listed then [] else [id]) + Unlisted(keys[1..], tasks, listed)
  }

  function CreationKey(id: Id, tasks: map<Id, Task>): u64 {
    if id in tasks then tasks[id].createdAt else 0
  }

  function InsertByCreation(id: Id, ids: seq<Id>, tasks: map<Id, Task>): seq<Id> {
    if ids == [] || CreationKey(id, tasks) <= CreationKey(ids[0], tasks) then [id] + ids
    else [ids[0]] + InsertByCreation(id, ids[1..], tasks)
  }

  /** The stable sort by creation time. */
  function SortedByCreation(ids: seq<Id>, tasks: map<Id, Task>): seq<Id> {
    if ids == [] then [] else InsertByCreation(ids[0], SortedByCreation(ids[1..], tasks), tasks)
  }

  function Normalized(board: BoardDoc, keys: seq<Id>): BoardDoc
    requires Enumerates(keys, board.tasks)
  {
    var listed := Retained(board.taskOrder, board.tasks);
    board.(taskOrder := listed + SortedByCreation(Unlisted(keys, board.tasks, listed), board.tasks))
  }
}
