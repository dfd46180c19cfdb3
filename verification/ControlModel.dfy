/**
 The control plane's database, and what commands and imports do to it.

 A command runs in a transaction: it either yields a whole new database and a response,
 or an error and no change.
 */
module ControlModel {
  import opened Outcomes
  import opened Text
  import opened WorkItems
  import opened WorkItemTable

  /** A request is identified by the hash of its text; hashing is taken to be injective. */
  datatype Digest = Digest(text: string)

  datatype Operation = Operation(request: Digest, response: Response)

  datatype Event = Event(eventType: string, session: Id, operation: Id)

  datatype Database = Database(
    items: Items, revisions: map<Id, i64>, briefs: map<Id, Brief>,
    operations: map<Id, Operation>, events: seq<Event>, imports: map<string, Digest>)

  const EMPTY_DATABASE: Database := Database(map[], map[], map[], map[], [], map[])

  datatype Change = Change(db: Database, response: Response)

  ghost predicate Sound(db: Database) {
    AllDense(db.items) && IndexAgrees(db.items)
  }

  // ---------------------------------------------------------------------------
  // Revisions
  // ---------------------------------------------------------------------------

  function CurrentRevision(db: Database, session: Id): u64 {
    if session in db.revisions && db.revisions[session] > 0 then db.revisions[session] else 0
  }

  function WithRevision(db: Database, session: Id, revision: u64): Database {
    db.(revisions := db.revisions[session := AsI64(revision)])
  }

  function Bumped(db: Database, session: Id): Database {
    WithRevision(db, session, SaturatingSuccessor(CurrentRevision(db, session)))
  }

  // ---------------------------------------------------------------------------
  // What commands do
  // ---------------------------------------------------------------------------

  /** Inserting the tasks named by `order[from..]` at positions `from`, `from + 1`, ... */
  function InsertAll(items: Items, session: Id, tasks: map<Id, Task>, order: seq<Id>, from: nat): Result<Items, Error>
    requires from <= |order|
    decreases |order| - from
  {
    if from == |order| then Ok(items)
    else if order[from] !in tasks then Err(MissingTask(order[from]))
    else
      var task := tasks[order[from]];
      if task.sessionId != session then Err(SessionMismatch)
      else if !CanInsert(items, task, from) then Err(ConstraintViolation)
      else InsertAll(items[task.id := RowOf(task, from)], session, tasks, order, from + 1)
  }

  function WithBrief(db: Database, session: Id, brief: Option<Brief>): Database {
    match brief
    case Some(value) => db.(briefs := db.briefs[session := value])
    case None => db.(briefs := db.briefs - {session})
  }

  function Replaced(db: Database, session: Id, board: BoardDoc, expected: Option<u64>): Result<Database, Error> {
    var revision := CurrentRevision(db, session);
    if expected.Some? && expected.value != revision then Err(StaleRevision(expected.value, revision))
    else match InsertAll(SessionDeleted(db.items, session), session, board.tasks, board.taskOrder, 0)
      case Err(error) => Err(error)
      case Ok(items) =>
        Ok(WithRevision(WithBrief(db.(items := items), session, board.brief), session, SaturatingSuccessor(revision)))
  }

  predicate HasBlankText(command: Command) {
    || (command.TaskCreate? && TrimText(command.title) == "")
    || (command.TaskNote? && TrimText(command.message) == "")
  }

  ghost predicate GoodEnv(command: Command, env: Env) {
    command.BoardWrite? ==> Enumerates(env.keys, command.board.tasks)
  }

  /** The transaction of a mutating command: the new database and response, or the error. */
  ghost function Mutated(db: Database, command: Command, env: Env): Result<Change, Error>
    requires Sound(db) && command.Mutates() && GoodEnv(command, env)
  {
    var session := command.session;
    match command
    case BoardWrite(_, board, expected) =>
      (match Replaced(db, session, Normalized(board, env.keys), Some(expected))
       case Err(error) => Err(error)
       case Ok(after) => Ok(Change(after, Ack)))
    case TaskCreate(_, title, description) =>
      var task := NewTask(session, title, description, env);
      if HasBlankText(command) then Err(TitleRequired)
      else if task.id in db.items then Err(ConstraintViolation)
      else
        var row := RowOf(task, |Listing(db.items, session)|);
        Ok(Change(Bumped(db.(items := db.items[task.id := row]), session), TaskReply(task)))
    case TaskDelete(_, id) =>
      if !HasRow(db.items, session, id) then Err(TaskNotFound(id))
      else
        var shifted := Shifted(Deleted(db.items, session, id), session, db.items[id].position);
        Ok(Change(Bumped(db.(items := shifted), session), Ack))
    case BriefSet(_, purpose, notes) =>
      var brief := Brief(TrimText(purpose), TrimText(notes), env.nowText);
      Ok(Change(Bumped(WithBrief(db, session, Some(brief)), session), BriefReply(Some(brief))))
    case TaskUpdate(_, id, _) => EditedRow(db, command, id, env)
    case TaskDone(_, id, _, _) => EditedRow(db, command, id, env)
    case TaskNote(_, id, _) => EditedRow(db, command, id, env)
  }

  /** Reading a task, changing it, and writing it back. */
  function EditedRow(db: Database, command: Command, id: Id, env: Env): Result<Change, Error>
    requires Edits(command)
  {
    if HasBlankText(command) then Err(NoteRequired)
    else if !HasRow(db.items, command.session, id) then Err(TaskNotFound(id))
    else
      var row := db.items[id];
      match Edited(row.task, command, env.now)
      case Err(error) => Err(error)
      case Ok(task) =>
        Ok(Change(Bumped(db.(items := db.items[task.id := Rewritten(row, task)]), command.session), TaskReply(task)))
  }

  ghost function BoardOf(db: Database, session: Id): BoardDoc
    requires Sound(db)
  {
    var ids := Listing(db.items, session);
    BoardDoc(CurrentRevision(db, session), map id | id in ids :: db.items[id].task, ids, BriefOf(db, session))
  }

  function BriefOf(db: Database, session: Id): Option<Brief> {
    if session in db.briefs then Some(db.briefs[session]) else None
  }

  ghost function Answered(db: Database, command: Command): Response
    requires Sound(db) && !command.Mutates()
  {
    match command
    case BoardRead(session) => Board(BoardOf(db, session))
    case _ => BriefReply(BriefOf(db, command.session))
  }

  function EventType(command: Command): string {
    match command
    case BoardRead(_) => "control.read"
    case BriefGet(_) => "control.read"
    case BoardWrite(_, _, _) => "work_items.replaced"
    case TaskCreate(_, _, _) => "work_item.created"
    case TaskUpdate(_, _, _) => "work_item.updated"
    case TaskDelete(_, _) => "work_item.deleted"
    case TaskDone(_, _, _, _) => "work_item.completed"
    case TaskNote(_, _, _) => "work_item.noted"
    case BriefSet(_, _, _) => "workspace_brief.updated"
  }

  /** `text` is the serialised command; `sessionParses` tells whether the session id is a UUID. */
  datatype Request = Request(operation: Id, text: string, sessionParses: bool, command: Command)

  datatype Outcome = Outcome(db: Database, reply: Result<Response, Error>)

  function Logged(db: Database, request: Request, response: Response): Database {
    db.(operations := db.operations[request.operation := Operation(Digest(request.text), response)],
        events := db.events + [Event(EventType(request.command), request.command.session, request.operation)])
  }

  ghost function Executed(db: Database, request: Request, env: Env): Outcome
    requires Sound(db) && GoodEnv(request.command, env)
  {
    if !request.sessionParses then Outcome(db, Err(InvalidSession))
    else if request.operation in db.operations then
      var stored := db.operations[request.operation];
      Outcome(db, if stored.request != Digest(request.text) then Err(OperationConflict) else Ok(stored.response))
    else if !request.command.Mutates() then
      Outcome(db, Ok(Answered(db, request.command)))
    else match Mutated(db, request.command, env)
      case Err(error) => Outcome(db, Err(error))
      case Ok(change) => Outcome(Logged(change.db, request, change.response), Ok(change.response))
  }

  // ---------------------------------------------------------------------------
  // Import of boards in the old format
  // ---------------------------------------------------------------------------

  /** A file of the old format: its bytes, the board they parse to, and its session. */
  datatype LegacyFile = LegacyFile(
    path: string, bytes: string, board: Option<BoardDoc>, session: Id, sessionParses: bool, keys: seq<Id>)

  ghost predicate GoodFile(file: LegacyFile) {
    file.board.Some? ==> Enumerates(file.keys, file.board.value.tasks)
  }

  predicate AlreadyImported(db: Database, file: LegacyFile) {
    file.path in db.imports && db.imports[file.path] == Digest(file.bytes)
  }

  predicate HasWorkItems(db: Database, session: Id) {
    exists id :: id in db.items && db.items[id].session == session
  }

  /** One file of an import: skipped, refused, or imported and remembered. */
  function Imported(db: Database, file: LegacyFile): Result<Database, Error>
    requires GoodFile(file)
  {
    if AlreadyImported(db, file) || file.board.None? then Ok(db)
    else if !file.sessionParses then Err(InvalidSession)
    else
      var replaced := if HasWorkItems(db, file.session) then Ok(db)
                      else Replaced(db, file.session, Normalized(file.board.value, file.keys), None);
      match replaced
      case Err(error) => Err(error)
      case Ok(after) => Ok(after.(imports := after.imports[file.path := Digest(file.bytes)]))
  }

  /** Files are imported one by one, each in its own transaction, up to the first refusal. */
  function ImportedAll(db: Database, files: seq<LegacyFile>, from: nat): (Database, Option<Error>)
    requires from <= |files| && forall i :: 0 <= i < |files| ==> GoodFile(files[i])
    decreases |files| - from
  {
    if from == |files| then (db, None)
    else match Imported(db, files[from])
      case Err(error) => (db, Some(error))
      case Ok(after) => ImportedAll(after, files, from + 1)
  }
}
