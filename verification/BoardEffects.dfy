/**
 What a client sees: the reply to each command, the board that is read after it, and the
 board an import leaves.  Everything here is said of boards and texts, so that it can be
 compared with the commands' meaning directly.
 */
module BoardEffects {
  import opened Outcomes
  import opened Text
  import opened WorkItems
  import opened WorkItemTable
  import opened Revisions
  import opened ControlModel
  import opened BoardRefinement
  import opened BoardRoundTrip

  // ---------------------------------------------------------------------------
  // Texts
  // ---------------------------------------------------------------------------

  /** An optional text set from an argument: kept without one, emptied by blanks, else the trimmed argument. */
  ghost predicate TakesText(before: Option<string>, given: Option<string>, after: Option<string>) {
    match given
    case None => after == before
    case Some(text) =>
      if AllBlank(text, UnicodeBlank) then after == None
      else after.Some? && after.value != "" && IsTrimOf(after.value, text, UnicodeBlank)
  }

  lemma PatchedTakesText(before: Option<string>, field: Field)
    ensures field.None? ==> PatchedField(before, field) == before
    ensures field == Some(None) ==> PatchedField(before, field) == None
    ensures field.Some? && field.value.Some? ==> TakesText(before, field.value, PatchedField(before, field))
  {
    if field.Some? && field.value.Some? {
      TrimIsExact(field.value.value, UnicodeBlank);
      TrimIsEmptyIff(field.value.value, UnicodeBlank);
    }
  }

  /** A patched optional text: an absent field keeps it, a null one clears it. */
  ghost predicate TakesField(before: Option<string>, field: Field, after: Option<string>) {
    if field == Some(None) then after == None
    else TakesText(before, if field.Some? then field.value else None, after)
  }

  lemma PatchedTakesField(before: Option<string>, field: Field)
    ensures TakesField(before, field, PatchedField(before, field))
  {
    PatchedTakesText(before, field);
  }

  // ---------------------------------------------------------------------------
  // Boards after a commit
  // ---------------------------------------------------------------------------

  /** The same board at the next revision, but for one task, which keeps its place. */
  function Touched(board: BoardDoc, task: Task): BoardDoc {
    board.(revision := RevisionAfter(board.revision), tasks := board.tasks[task.id := task])
  }

  /** Logging a commit is not seen on any board. */
  lemma LoggedBoard(db: Database, request: Request, response: Response, session: Id)
    requires Sound(db)
    ensures Sound(Logged(db, request, response))
    ensures BoardOf(Logged(db, request, response), session) == BoardOf(db, session)
  {
  }

  lemma HeldIffRow(db: Database, session: Id, id: Id)
    requires Sound(db)
    ensures id in BoardOf(db, session).tasks <==> HasRow(db.items, session, id)
    ensures HasRow(db.items, session, id) ==> BoardOf(db, session).tasks[id] == db.items[id].task
  {
    var ids := Listing(db.items, session);
    if HasRow(db.items, session, id) {
      assert ids[db.items[id].position] == id;
    }
  }

  /** Writing one task back exchanges it on the board of its session. */
  lemma RewriteIsRead(db: Database, task: Task)
    requires Sound(db) && HasRow(db.items, task.sessionId, task.id)
    requires db.items[task.id].task.createdAt == task.createdAt
    ensures var after := Bumped(db.(items := db.items[task.id := Rewritten(db.items[task.id], task)]), task.sessionId);
            Sound(after) && BoardOf(after, task.sessionId) == Touched(BoardOf(db, task.sessionId), task)
  {
    var session, ids := task.sessionId, Listing(db.items, task.sessionId);
    var items := db.items[task.id := Rewritten(db.items[task.id], task)];
    RewriteInPlace(db.items, task);
    var after := Bumped(db.(items := items), session);
    var before, read := BoardOf(db, session), BoardOf(after, session);
    assert ids[db.items[task.id].position] == task.id;
    forall id | id in ids ensures read.tasks[id] == Touched(before, task).tasks[id] {
    }
    assert read.tasks == Touched(before, task).tasks;
  }

  /** The reply to an editing command is the edited task, and the board shows it in its place. */
  lemma EditIsRead(db: Database, request: Request, env: Env, id: Id)
    requires Sound(db) && GoodEnv(request.command, env) && Commits(db, request, env)
    requires Edits(request.command) && id == request.command.taskId
    ensures var before, after := BoardOf(db, request.command.session), Executed(db, request, env);
            && id in before.tasks && after.reply.Ok? && after.reply.value.TaskReply?
            && Edited(before.tasks[id], request.command, env.now) == Ok(after.reply.value.task)
            && Sound(after.db)
            && BoardOf(after.db, request.command.session) == Touched(before, after.reply.value.task)
            && after.reply.value.task.id == id
  {
    var command, session := request.command, request.command.session;
    HeldIffRow(db, session, id);
    var change := Mutated(db, command, env).value;
    EditKeepsIdentity(db.items[id].task, command, env.now);
    RewriteIsRead(db, change.response.task);
    LoggedBoard(change.db, request, change.response, session);
  }

  // ---------------------------------------------------------------------------
  // Done
  // ---------------------------------------------------------------------------

  /** The task is done, with the given message and summary, and otherwise as it was. */
  ghost predicate FinishedAs(before: Task, commitMessage: Option<string>, resultSummary: Option<string>, now: u64,
                             after: Task)
  {
    && after.status == Done
    && after.statusTimestamps
       == (if before.status == Done then before.statusTimestamps else before.statusTimestamps[Done := now])
    && TakesText(before.commitMessage, commitMessage, after.commitMessage)
    && TakesText(before.resultSummary, resultSummary, after.resultSummary)
    && after.updatedAt == now
    && after == before.(status := after.status, statusTimestamps := after.statusTimestamps, updatedAt := now,
                        commitMessage := after.commitMessage, resultSummary := after.resultSummary)
  }

  lemma DoneFinishes(task: Task, command: Command, now: u64)
    requires command.TaskDone?
    ensures Edited(task, command, now).Ok?
    ensures FinishedAs(task, command.commitMessage, command.resultSummary, now, Edited(task, command, now).value)
  {
    var patch := DonePatch(command.commitMessage, command.resultSummary);
    PatchedTakesText(task.commitMessage, patch.commitMessage);
    PatchedTakesText(task.resultSummary, patch.resultSummary);
  }

  /** Completing a task: the reply and the board then show it done. */
  lemma DoneThenRead(db: Database, request: Request, env: Env)
    requires Sound(db) && GoodEnv(request.command, env) && Commits(db, request, env) && request.command.TaskDone?
    ensures var command, before := request.command, BoardOf(db, request.command.session);
            var after := Executed(db, request, env);
            && command.taskId in before.tasks && after.reply.Ok? && after.reply.value.TaskReply?
            && FinishedAs(before.tasks[command.taskId], command.commitMessage, command.resultSummary, env.now,
                          after.reply.value.task)
            && Sound(after.db) && BoardOf(after.db, command.session) == Touched(before, after.reply.value.task)
  {
    EditIsRead(db, request, env, request.command.taskId);
    DoneFinishes(BoardOf(db, request.command.session).tasks[request.command.taskId], request.command, env.now);
  }

  // ---------------------------------------------------------------------------
  // Notes
  // ---------------------------------------------------------------------------

  /** The trimmed note is a new line of the summary, and an unfinished task is in progress from now. */
  ghost predicate NotedAs(before: Task, message: string, now: u64, after: Task) {
    && (exists note :: note != "" && IsTrimOf(note, message, UnicodeBlank)
                       && after.resultSummary == Some(if before.resultSummary in {None, Some("")} then note
                                                      else before.resultSummary.value + "\n" + note))
    && (if before.status == Done
        then after.status == Done && after.statusTimestamps == before.statusTimestamps
        else after.status == InProgress && after.statusTimestamps == before.statusTimestamps[InProgress := now])
    && after.updatedAt == now
    && after == before.(status := after.status, statusTimestamps := after.statusTimestamps, updatedAt := now,
                        resultSummary := after.resultSummary)
  }

  lemma NoteIsAdded(task: Task, command: Command, now: u64)
    requires command.TaskNote? && TrimText(command.message) != ""
    ensures Edited(task, command, now).Ok? && NotedAs(task, command.message, now, Edited(task, command, now).value)
  {
    TrimIsExact(command.message, UnicodeBlank);
    var note := TrimText(command.message);
    assert note != "" && IsTrimOf(note, command.message, UnicodeBlank);
  }

  /** Noting a task: the reply and the board then show the note. */
  lemma NoteThenRead(db: Database, request: Request, env: Env)
    requires Sound(db) && GoodEnv(request.command, env) && Commits(db, request, env) && request.command.TaskNote?
    ensures var command, before := request.command, BoardOf(db, request.command.session);
            var after := Executed(db, request, env);
            && command.taskId in before.tasks && after.reply.Ok? && after.reply.value.TaskReply?
            && NotedAs(before.tasks[command.taskId], command.message, env.now, after.reply.value.task)
            && Sound(after.db) && BoardOf(after.db, command.session) == Touched(before, after.reply.value.task)
  {
    EditIsRead(db, request, env, request.command.taskId);
    NoteIsAdded(BoardOf(db, request.command.session).tasks[request.command.taskId], request.command, env.now);
  }

  // ---------------------------------------------------------------------------
  // Updates
  // ---------------------------------------------------------------------------

  ghost predicate TextsUpdated(before: Task, patch: TaskPatch, after: Task) {
    && (match patch.title
        case None => after.title == before.title
        case Some(None) => false
        case Some(Some(text)) => after.title != "" && IsTrimOf(after.title, text, UnicodeBlank))
    && (match patch.description
        case None => after.description == before.description
        case Some(None) => after.description == ""
        case Some(Some(text)) => after.description == text)
  }

  ghost predicate StatusUpdated(before: Task, status: Option<Status>, now: u64, after: Task) {
    if status.None? || status.value == before.status
    then after.status == before.status && after.statusTimestamps == before.statusTimestamps
    else after.status == status.value && after.statusTimestamps == before.statusTimestamps[status.value := now]
  }

  ghost predicate FieldsUpdated(before: Task, patch: TaskPatch, after: Task) {
    && TakesField(before.assignedPaneId, patch.assignedPaneId, after.assignedPaneId)
    && TakesField(before.assignedRole, patch.assignedRole, after.assignedRole)
    && TakesField(before.baselineRef, patch.baselineRef, after.baselineRef)
    && TakesField(before.worktreePath, patch.worktreePath, after.worktreePath)
    && TakesField(before.commitMessage, patch.commitMessage, after.commitMessage)
    && TakesField(before.resultSummary, patch.resultSummary, after.resultSummary)
  }

  /** Each field of the task follows its own field of the patch. */
  ghost predicate UpdatedAs(before: Task, patch: TaskPatch, now: u64, after: Task) {
    && after.id == before.id && after.sessionId == before.sessionId && after.createdAt == before.createdAt
    && after.updatedAt == now
    && TextsUpdated(before, patch, after)
    && StatusUpdated(before, patch.status, now, after)
    && FieldsUpdated(before, patch, after)
  }

  lemma PatchUpdatesTexts(task: Task, patch: TaskPatch, now: u64)
    requires ApplyPatch(task, patch, now).Ok?
    ensures TextsUpdated(task, patch, ApplyPatch(task, patch, now).value)
  {
    if patch.title.Some? && patch.title.value.Some? {
      TrimIsExact(patch.title.value.value, UnicodeBlank);
    }
  }

  lemma PatchUpdatesFields(task: Task, patch: TaskPatch, now: u64)
    requires ApplyPatch(task, patch, now).Ok?
    ensures FieldsUpdated(task, patch, ApplyPatch(task, patch, now).value)
  {
    PatchedTakesField(task.assignedPaneId, patch.assignedPaneId);
    PatchedTakesField(task.assignedRole, patch.assignedRole);
    PatchedTakesField(task.baselineRef, patch.baselineRef);
    PatchedTakesField(task.worktreePath, patch.worktreePath);
    PatchedTakesField(task.commitMessage, patch.commitMessage);
    PatchedTakesField(task.resultSummary, patch.resultSummary);
  }

  lemma PatchUpdatesStatus(task: Task, patch: TaskPatch, now: u64)
    requires ApplyPatch(task, patch, now).Ok?
    ensures var after := ApplyPatch(task, patch, now).value;
            && StatusUpdated(task, patch.status, now, after)
            && after.id == task.id && after.sessionId == task.sessionId && after.createdAt == task.createdAt
            && after.updatedAt == now
  {
  }

  /** Updating a task: the reply and the board then show it patched. */
  lemma UpdateThenRead(db: Database, request: Request, env: Env)
    requires Sound(db) && GoodEnv(request.command, env) && Commits(db, request, env) && request.command.TaskUpdate?
    ensures var command, before := request.command, BoardOf(db, request.command.session);
            var after := Executed(db, request, env);
            && command.taskId in before.tasks && after.reply.Ok? && after.reply.value.TaskReply?
            && UpdatedAs(before.tasks[command.taskId], command.patch, env.now, after.reply.value.task)
            && Sound(after.db) && BoardOf(after.db, command.session) == Touched(before, after.reply.value.task)
  {
    EditIsRead(db, request, env, request.command.taskId);
    var task, patch := BoardOf(db, request.command.session).tasks[request.command.taskId], request.command.patch;
    PatchUpdatesTexts(task, patch, env.now);
    PatchUpdatesStatus(task, patch, env.now);
    PatchUpdatesFields(task, patch, env.now);
  }

  // ---------------------------------------------------------------------------
  // Creation, deletion and the brief
  // ---------------------------------------------------------------------------

  /** A created task is pending, has the trimmed title, and nothing else is set. */
  ghost predicate CreatedAs(command: Command, env: Env, task: Task)
    requires command.TaskCreate?
  {
    && task.title != "" && IsTrimOf(task.title, command.title, UnicodeBlank)
    && task == Task(env.uuid, command.session, task.title,
                    if command.description.Some? then command.description.value else "",
                    Pending, map[Pending := env.now], None, None, None, None, None, None, env.now, env.now)
  }

  /** A row appended to a session is read last on its board. */
  lemma AppendedBoard(db: Database, after: Database, task: Task)
    requires Sound(db) && Sound(after) && task.id !in db.items
    requires after == Bumped(db.(items := db.items[task.id := RowOf(task, |Listing(db.items, task.sessionId)|)]),
                             task.sessionId)
    ensures var before := BoardOf(db, task.sessionId);
            BoardOf(after, task.sessionId) == Touched(before, task).(taskOrder := before.taskOrder + [task.id])
  {
    var before, read := BoardOf(db, task.sessionId), BoardOf(after, task.sessionId);
    AppendedIsRead(db, after, task);
    assert read.tasks.Keys == before.tasks.Keys + {task.id};
    assert read.tasks == before.tasks[task.id := task];
  }

  /** A created task is read back last on its board, and the rest of the board is as it was. */
  lemma CreateThenRead(db: Database, request: Request, env: Env)
    requires Sound(db) && GoodEnv(request.command, env) && Commits(db, request, env) && request.command.TaskCreate?
    ensures var session, after := request.command.session, Executed(db, request, env);
            var before := BoardOf(db, session);
            && after.reply.Ok? && after.reply.value.TaskReply?
            && var task := after.reply.value.task;
               && CreatedAs(request.command, env, task) && task.id !in db.items
               && Sound(after.db)
               && BoardOf(after.db, session) == Touched(before, task).(taskOrder := before.taskOrder + [task.id])
  {
    var command, change := request.command, Mutated(db, request.command, env).value;
    TrimIsExact(command.title, UnicodeBlank);
    MutatedRefines(db, command, env);
    AppendedBoard(db, change.db, change.response.task);
    LoggedBoard(change.db, request, change.response, command.session);
  }

  /** A board without the task at place `i`. */
  function Dropped(board: BoardDoc, i: nat): BoardDoc
    requires i < |board.taskOrder|
  {
    BoardDoc(RevisionAfter(board.revision), board.tasks - {board.taskOrder[i]},
             board.taskOrder[..i] + board.taskOrder[i + 1..], board.brief)
  }

  lemma RemovedAt(ids: seq<Id>, i: nat, other: Id)
    requires i < |ids| && forall j, k :: 0 <= j < k < |ids| ==> ids[j] != ids[k]
    ensures other in ids[..i] + ids[i + 1..] <==> other in ids && other != ids[i]
  {
    if other in ids {
      var j :| 0 <= j < |ids| && ids[j] == other;
      if j < i {
        assert ids[..i][j] == other;
      } else if j > i {
        assert ids[i + 1..][j - i - 1] == other;
      }
    }
  }

  function TasksAt(items: Items, ids: seq<Id>): map<Id, Task>
    requires forall id :: id in ids ==> id in items
  {
    map id | id in ids :: items[id].task
  }

  lemma TasksWithout(before: Items, after: Items, ids: seq<Id>, i: nat)
    requires i < |ids| && forall j, k :: 0 <= j < k < |ids| ==> ids[j] != ids[k]
    requires forall id :: id in ids ==> id in before
    requires forall id :: id in ids[..i] + ids[i + 1..] ==>
               id in after && id in before && after[id].task == before[id].task
    ensures TasksAt(after, ids[..i] + ids[i + 1..]) == TasksAt(before, ids) - {ids[i]}
  {
    forall other ensures other in ids[..i] + ids[i + 1..] <==> other in ids && other != ids[i] {
      RemovedAt(ids, i, other);
    }
  }

  lemma DeletedTasks(items: Items, session: Id, id: Id)
    requires AllDense(items) && IndexAgrees(items) && HasRow(items, session, id)
    ensures var ids, i := Listing(items, session), items[id].position;
            var after := Shifted(Deleted(items, session, id), session, i);
            && 0 <= i < |ids| && ids[i] == id
            && AllDense(after) && IndexAgrees(after) && Listing(after, session) == ids[..i] + ids[i + 1..]
            && TasksAt(after, ids[..i] + ids[i + 1..]) == TasksAt(items, ids) - {id}
  {
    var ids, i := Listing(items, session), items[id].position;
    DeleteAndShift(items, session, id);
    TasksWithout(items, Shifted(Deleted(items, session, id), session, i), ids, i);
  }

  lemma BoardWithout(db: Database, items: Items, session: Id, i: nat)
    requires Sound(db) && AllDense(items) && IndexAgrees(items)
    requires var ids := Listing(db.items, session);
             && i < |ids| && Listing(items, session) == ids[..i] + ids[i + 1..]
             && TasksAt(items, ids[..i] + ids[i + 1..]) == TasksAt(db.items, ids) - {ids[i]}
    ensures var after := Bumped(db.(items := items), session);
            Sound(after) && BoardOf(after, session) == Dropped(BoardOf(db, session), i)
  {
    assert BoardOf(db, session).tasks == TasksAt(db.items, Listing(db.items, session));
    assert BoardOf(Bumped(db.(items := items), session), session).tasks == TasksAt(items, Listing(items, session));
  }

  /** Deleting takes the task and its place off the board, and nothing else. */
  lemma DeleteThenRead(db: Database, request: Request, env: Env)
    requires Sound(db) && GoodEnv(request.command, env) && Commits(db, request, env) && request.command.TaskDelete?
    ensures var session, id := request.command.session, request.command.taskId;
            var before, after := BoardOf(db, session), Executed(db, request, env);
            && after.reply == Ok(Ack) && Sound(after.db)
            && exists i :: 0 <= i < |before.taskOrder| && before.taskOrder[i] == id
                           && BoardOf(after.db, session) == Dropped(before, i)
  {
    var command, change := request.command, Mutated(db, request.command, env).value;
    var i := db.items[command.taskId].position;
    var items := Shifted(Deleted(db.items, command.session, command.taskId), command.session, i);
    DeletedTasks(db.items, command.session, command.taskId);
    BoardWithout(db, items, command.session, i);
    LoggedBoard(change.db, request, change.response, command.session);
    assert BoardOf(Executed(db, request, env).db, command.session)
           == Dropped(BoardOf(db, command.session), i);
  }

  /** Setting the brief stores its trimmed texts and the time, and leaves the tasks alone. */
  lemma BriefThenRead(db: Database, request: Request, env: Env)
    requires Sound(db) && GoodEnv(request.command, env) && Commits(db, request, env) && request.command.BriefSet?
    ensures var command, before := request.command, BoardOf(db, request.command.session);
            var after := Executed(db, request, env);
            && after.reply.Ok? && after.reply.value.BriefReply? && after.reply.value.brief.Some?
            && var brief := after.reply.value.brief.value;
               && IsTrimOf(brief.purpose, command.purpose, UnicodeBlank)
               && IsTrimOf(brief.notes, command.notes, UnicodeBlank) && brief.updatedAt == env.nowText
               && Sound(after.db)
               && BoardOf(after.db, command.session)
                  == before.(revision := RevisionAfter(before.revision), brief := Some(brief))
  {
    var change := Mutated(db, request.command, env).value;
    TrimIsExact(request.command.purpose, UnicodeBlank);
    TrimIsExact(request.command.notes, UnicodeBlank);
    LoggedBoard(change.db, request, change.response, request.command.session);
  }

  // ---------------------------------------------------------------------------
  // Reads, refusals and events
  // ---------------------------------------------------------------------------

  /** A read answers with the board or its brief, and changes nothing. */
  lemma ReadsAnswer(db: Database, request: Request, env: Env)
    requires Sound(db) && !request.command.Mutates() && request.sessionParses && request.operation !in db.operations
    ensures var board := BoardOf(db, request.command.session);
            Executed(db, request, env)
            == Outcome(db, Ok(if request.command.BoardRead? then Board(board) else BriefReply(board.brief)))
    ensures request.command.BoardRead? || request.command.BriefGet?
  {
  }

  /** Why a command other than a board write is refused, if it is, on a board and a set of ids in use. */
  ghost function Refusal(board: BoardDoc, used: set<Id>, command: Command, env: Env): Option<Error>
    requires command.Mutates() && !command.BoardWrite?
  {
    match command
    case TaskCreate(_, title, _) =>
      if AllBlank(title, UnicodeBlank) then Some(TitleRequired)
      else if env.uuid in used then Some(ConstraintViolation) else None
    case TaskUpdate(_, id, patch) =>
      if id !in board.tasks then Some(TaskNotFound(id))
      else if patch.title == Some(None) then Some(TitleRequired)
      else if patch.title.Some? && AllBlank(patch.title.value.value, UnicodeBlank) then Some(TitleRequired) else None
    case TaskDelete(_, id) => if id in board.tasks then None else Some(TaskNotFound(id))
    case TaskDone(_, id, _, _) => if id in board.tasks then None else Some(TaskNotFound(id))
    case TaskNote(_, id, message) =>
      if AllBlank(message, UnicodeBlank) then Some(NoteRequired)
      else if id in board.tasks then None else Some(TaskNotFound(id))
    case BriefSet(_, _, _) => None
  }

  /** Fresh commands are refused exactly for blank texts, taken ids and missing tasks; then nothing changes. */
  lemma RefusedIff(db: Database, request: Request, env: Env)
    requires Sound(db) && GoodEnv(request.command, env) && request.command.Mutates() && !request.command.BoardWrite?
    requires request.sessionParses && request.operation !in db.operations
    ensures var refusal := Refusal(BoardOf(db, request.command.session), db.items.Keys, request.command, env);
            && (Commits(db, request, env) <==> refusal.None?)
            && (refusal.Some? ==> Executed(db, request, env) == Outcome(db, Err(refusal.value)))
  {
    match request.command
    case TaskCreate(_, title, _) => TrimIsEmptyIff(title, UnicodeBlank);
    case TaskUpdate(session, id, patch) =>
      HeldIffRow(db, session, id);
      if id in db.items {
        PatchFailsIff(db.items[id].task, patch, env.now);
      }
    case TaskDelete(session, id) => HeldIffRow(db, session, id);
    case TaskDone(session, id, _, _) =>
      HeldIffRow(db, session, id);
      if id in db.items {
        DoneFinishes(db.items[id].task, request.command, env.now);
      }
    case TaskNote(session, id, message) =>
      TrimIsEmptyIff(message, UnicodeBlank);
      HeldIffRow(db, session, id);
    case BriefSet(_, _, _) =>
  }

  /** A board write is refused as stale whenever its expectation is not the revision that is read. */
  lemma StaleWriteIsRefused(db: Database, request: Request, env: Env)
    requires Sound(db) && GoodEnv(request.command, env) && request.command.BoardWrite?
    requires request.sessionParses && request.operation !in db.operations
    ensures var current := BoardOf(db, request.command.session).revision;
            request.command.expectedRevision != current ==>
              Executed(db, request, env)
              == Outcome(db, Err(StaleRevision(request.command.expectedRevision, current)))
    ensures Commits(db, request, env) ==> Executed(db, request, env).reply == Ok(Ack)
  {
  }

  /**
   A replacement that is not stale and yet refused fails at the first listed id that names
   no task, or a task of another session, or one whose id is taken.
   */
  lemma {:induction false} InsertAllStops(items: Items, session: Id, tasks: map<Id, Task>, order: seq<Id>, from: nat)
    returns (k: nat)
    requires Placed(items, session, tasks, order, from) && IndexAgrees(items)
    requires InsertAll(items, session, tasks, order, from).Err?
    ensures from <= k < |order| && InsertAll(items, session, tasks, order[..k], from).Ok?
    ensures InsertAll(items, session, tasks, order, from).error
         == if order[k] !in tasks then MissingTask(order[k])
            else if tasks[order[k]].sessionId != session then SessionMismatch else ConstraintViolation
    ensures order[k] in tasks && tasks[order[k]].sessionId == session ==>
              tasks[order[k]].id in InsertAll(items, session, tasks, order[..k], from).value
    decreases |order| - from
  {
    k := from;
    if order[from] in tasks && tasks[order[from]].sessionId == session {
      var task := tasks[order[from]];
      PlaceOne(items, session, tasks, order, from);
      if task.id !in items {
        k := InsertAllStops(items[task.id := RowOf(task, from)], session, tasks, order, from + 1);
        assert order[..k][from] == order[from];
      }
    }
  }

  /** The first listed id that stands in the way of a board write. */
  lemma WriteRefusalNames(db: Database, request: Request, env: Env) returns (k: nat)
    requires Sound(db) && GoodEnv(request.command, env) && request.command.BoardWrite?
    requires request.sessionParses && request.operation !in db.operations && !Commits(db, request, env)
    requires request.command.expectedRevision == BoardOf(db, request.command.session).revision
    ensures var board, session := Normalized(request.command.board, env.keys), request.command.session;
            && k < |board.taskOrder|
            && Executed(db, request, env)
               == Outcome(db, Err(
                    if board.taskOrder[k] !in board.tasks then MissingTask(board.taskOrder[k])
                    else if board.tasks[board.taskOrder[k]].sessionId != session then SessionMismatch
                    else ConstraintViolation))
  {
    var board, session := Normalized(request.command.board, env.keys), request.command.session;
    DeleteSession(db.items, session);
    k := InsertAllStops(SessionDeleted(db.items, session), session, board.tasks, board.taskOrder, 0);
  }

  /** An unreadable session id is refused before anything else, even for an operation that is known. */
  lemma BadSessionIsRefused(db: Database, request: Request, env: Env)
    requires Sound(db) && GoodEnv(request.command, env) && !request.sessionParses
    ensures Executed(db, request, env) == Outcome(db, Err(InvalidSession))
  {
  }

  /** A commit is announced by the event of its kind. */
  lemma CommitIsAnnounced(db: Database, request: Request, env: Env)
    requires Sound(db) && GoodEnv(request.command, env) && Commits(db, request, env)
    ensures var name := match request.command
              case BoardWrite(_, _, _) => "work_items.replaced"
              case TaskCreate(_, _, _) => "work_item.created"
              case TaskUpdate(_, _, _) => "work_item.updated"
              case TaskDelete(_, _) => "work_item.deleted"
              case TaskDone(_, _, _, _) => "work_item.completed"
              case TaskNote(_, _, _) => "work_item.noted"
              case BriefSet(_, _, _) => "workspace_brief.updated"
              case _ => "";
            Executed(db, request, env).db.events
            == db.events + [Event(name, request.command.session, request.operation)]
  {
    MutatedRefines(db, request.command, env);
  }

  // ---------------------------------------------------------------------------
  // Imports
  // ---------------------------------------------------------------------------

  /**
   A file is refused exactly when it is to be imported and its name is no session id, or
   its session is empty and its board cannot be stored.
   */
  lemma ImportRefusedIff(db: Database, file: LegacyFile)
    requires Sound(db) && GoodFile(file)
    ensures var seen := file.path in db.imports && db.imports[file.path] == Digest(file.bytes);
            Imported(db, file).Err?
            <==> && !seen && file.board.Some?
                 && (!file.sessionParses
                     || (TasksOf(db.items, file.session) == []
                         && !Storable(db.items, file.session, Normalized(file.board.value, file.keys))))
    ensures Imported(db, file).Err? && !file.sessionParses ==> Imported(db, file) == Err(InvalidSession)
  {
    EmptyIffNoItems(db, file.session);
    if file.board.Some? {
      ReplacedRefines(db, file.session, Normalized(file.board.value, file.keys), None);
    }
  }

  lemma EmptyIffNoItems(db: Database, session: Id)
    requires Sound(db)
    ensures TasksOf(db.items, session) == [] <==> !HasWorkItems(db, session)
  {
    if TasksOf(db.items, session) != [] {
      assert HasRow(db.items, session, Listing(db.items, session)[0]);
    }
  }

  /** A file new to the plane is remembered, and its board is stored if the session has no tasks. */
  lemma ImportStoresBoard(db: Database, file: LegacyFile)
    requires Sound(db) && GoodFile(file) && file.board.Some? && Imported(db, file).Ok?
    requires !(file.path in db.imports && db.imports[file.path] == Digest(file.bytes))
    ensures var before, after := ViewOf(db, file.session), Imported(db, file).value;
            && Sound(after) && after.imports == db.imports[file.path := Digest(file.bytes)]
            && (if before.tasks != [] then ViewOf(after, file.session) == before
                else
                  var normalized := Normalized(file.board.value, file.keys);
                  && IsComplete(normalized)
                  && ViewOf(after, file.session)
                     == View(RevisionAfter(before.revision), Chosen(normalized), file.board.value.brief))
  {
    EmptyIffNoItems(db, file.session);
    var normalized := Normalized(file.board.value, file.keys);
    ReplacedRefines(db, file.session, normalized, None);
  }

  /** A board filed by id is read after its import with the same tasks and brief, each task listed once. */
  lemma ImportThenRead(db: Database, file: LegacyFile)
    requires Sound(db) && GoodFile(file) && file.board.Some? && Imported(db, file).Ok?
    requires !(file.path in db.imports && db.imports[file.path] == Digest(file.bytes))
    requires KeyedById(file.board.value.tasks) && TasksOf(db.items, file.session) == []
    ensures var board, after := file.board.value, Imported(db, file).value;
            && Sound(after)
            && BoardOf(after, file.session)
               == BoardDoc(RevisionAfter(CurrentRevision(db, file.session)), board.tasks,
                           Normalized(board, file.keys).taskOrder, board.brief)
            && forall id :: id in board.tasks ==> multiset(Normalized(board, file.keys).taskOrder)[id] == 1
  {
    var session, normalized := file.session, Normalized(file.board.value, file.keys);
    EmptyIffNoItems(db, session);
    ImportStoresBoard(db, file);
    NormalizedCovers(file.board.value, file.keys);
    ReplacedRefines(db, session, normalized, None);
    ReadsBack(Imported(db, file).value, session, normalized);
    StorableHasNoDuplicates(db.items, session, normalized);
    forall id | id in normalized.tasks ensures multiset(normalized.taskOrder)[id] == 1 {
      OccursOnce(normalized.taskOrder, id);
    }
  }
}
