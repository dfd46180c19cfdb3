/**
 The daemon's control plane: commands change boards in transactions, statement by
 statement, and a log of operations makes repeated commands harmless.  Every method is
 proved against `ControlModel`.
 */
module ControlPlane {
  import opened Outcomes
  import opened Text
  import opened WorkItems
  import opened WorkItemTable
  import opened ControlModel
  import opened BoardRefinement

  // ---------------------------------------------------------------------------
  // Transactions
  // ---------------------------------------------------------------------------

  /** A working copy of the database; dropping it rolls back. */
  class Transaction {
    var db: Database

    constructor (db: Database)
      ensures this.db == db
    {
      this.db := db;
    }

    method InsertTask(task: Task, position: int) returns (result: Result<(), Error>)
      modifies this
      ensures if CanInsert(old(db).items, task, position)
              then result == Ok(()) && db == old(db).(items := old(db).items[task.id := RowOf(task, position)])
              else result == Err(ConstraintViolation) && db == old(db)
    {
      if !CanInsert(db.items, task, position) {
        return Err(ConstraintViolation);
      }
      db := db.(items := db.items[task.id := RowOf(task, position)]);
      return Ok(());
    }

    /**
     The statement changes the rows that match both keys, and must change exactly one.  On a
     sound database that exchanges the task at its place in its session's list and nothing
     else, and the columns still agree exactly when the task's creation time is the old one:
     it is the one column the statement does not set.
     */
    method UpdateTask(task: Task) returns (result: Result<(), Error>)
      modifies this
      ensures if HasRow(old(db).items, task.sessionId, task.id)
              then result == Ok(())
                   && db == old(db).(items := old(db).items[task.id := Rewritten(old(db).items[task.id], task)])
              else result == Err(TaskNotFound(task.id)) && db == old(db)
      ensures Sound(old(db)) && result.Ok? ==>
                var before := TasksOf(old(db).items, task.sessionId);
                && AllDense(db.items) && Exchanged(before, TasksOf(db.items, task.sessionId), task)
                && (forall other :: other != task.sessionId ==> SameRows(old(db).items, db.items, other))
                && (Sound(db) <==> old(db).items[task.id].task.createdAt == task.createdAt)
    {
      if !HasRow(db.items, task.sessionId, task.id) {
        return Err(TaskNotFound(task.id));
      }
      if Sound(db) {
        RewriteExchanges(db.items, task);
      }
      db := db.(items := db.items[task.id := Rewritten(db.items[task.id], task)]);
      return Ok(());
    }

    method ReadTask(session: Id, id: Id) returns (result: Result<Task, Error>)
      ensures result == if HasRow(db.items, session, id) then Ok(db.items[id].task) else Err(TaskNotFound(id))
    {
      return if HasRow(db.items, session, id) then Ok(db.items[id].task) else Err(TaskNotFound(id));
    }

    method BumpRevision(session: Id)
      modifies this
      ensures db == Bumped(old(db), session)
    {
      var next := SaturatingSuccessor(CurrentRevision(db, session));
      db := WithRevision(db, session, next);
    }

    /** `SELECT COALESCE(MAX(position), -1) + 1` over the rows of a session. */
    method NextPosition(session: Id) returns (next: int)
      requires Dense(db.items, session)
      ensures IsTop(db.items, session, next - 1) && next == |Listing(db.items, session)|
    {
      var top := -1;
      var rest := db.items.Keys;
      while rest != {}
        invariant rest <= db.items.Keys
        invariant forall id :: id in db.items.Keys - rest && db.items[id].session == session ==>
                    db.items[id].position <= top
        invariant top == -1 || exists id ::
                    id in db.items && db.items[id].session == session && db.items[id].position == top
        decreases rest
      {
        var id :| id in rest;
        if db.items[id].session == session && db.items[id].position > top {
          top := db.items[id].position;
        }
        rest := rest - {id};
      }
      TopIsLast(db.items, session, top);
      next := top + 1;
    }

    method DeleteTask(session: Id, id: Id) returns (result: Result<(), Error>)
      requires Sound(db)
      modifies this
      ensures if HasRow(old(db).items, session, id)
              then result == Ok(())
                   && db == old(db).(items := Shifted(Deleted(old(db).items, session, id), session,
                                                      old(db).items[id].position))
              else result == Err(TaskNotFound(id)) && db == old(db)
    {
      if !HasRow(db.items, session, id) {
        return Err(TaskNotFound(id));
      }
      var position := db.items[id].position;
      ghost var ids := Listing(db.items, session);
      DeletingLeavesGap(db.items, session, ids, position);
      DenseIsUnique(db.items);
      db := db.(items := Deleted(db.items, session, id));
      var _, shifted := ShiftDown(db.items, session, position, ids[..position] + ids[position + 1..]);
      db := db.(items := shifted);
      return Ok(());
    }

    method ReplaceBoard(session: Id, board: BoardDoc, expected: Option<u64>) returns (result: Result<(), Error>)
      modifies this
      ensures match Replaced(old(db), session, board, expected)
              case Ok(after) => result == Ok(()) && db == after
              case Err(error) => result == Err(error)
    {
      var revision := CurrentRevision(db, session);
      if expected.Some? && expected.value != revision {
        return Err(StaleRevision(expected.value, revision));
      }
      db := db.(items := SessionDeleted(db.items, session));
      ghost var cleared := db;
      for position := 0 to |board.taskOrder|
        invariant db == cleared.(items := db.items)
        invariant InsertAll(db.items, session, board.tasks, board.taskOrder, position)
               == InsertAll(cleared.items, session, board.tasks, board.taskOrder, 0)
      {
        var taskId := board.taskOrder[position];
        if taskId !in board.tasks {
          return Err(MissingTask(taskId));
        }
        var task := board.tasks[taskId];
        if task.sessionId != session {
          return Err(SessionMismatch);
        }
        var inserted := InsertTask(task, position);
        if inserted.Err? {
          return Err(inserted.error);
        }
      }
      db := WithBrief(db, session, board.brief);
      db := WithRevision(db, session, SaturatingSuccessor(revision));
      return Ok(());
    }

    /** Read one task, change it, write it back. */
    method EditTask(command: Command, id: Id, env: Env) returns (result: Result<Response, Error>)
      requires Sound(db) && Edits(command)
      modifies this
      ensures match EditedRow(old(db), command, id, env)
              case Ok(change) => result == Ok(change.response) && db == change.db
              case Err(error) => result == Err(error)
    {
      if HasBlankText(command) {
        return Err(NoteRequired);
      }
      var read := ReadTask(command.session, id);
      if read.Err? {
        return Err(read.error);
      }
      var edited := Edited(read.value, command, env.now);
      if edited.Err? {
        return Err(edited.error);
      }
      EditKeepsIdentity(read.value, command, env.now);
      var updated := UpdateTask(edited.value);
      // Columns and stored task agree, so the row just read is the one row that changes.
      assert updated.Ok?;
      BumpRevision(command.session);
      return Ok(TaskReply(edited.value));
    }

    method CreateTask(command: Command, env: Env) returns (result: Result<Response, Error>)
      requires Sound(db) && command.TaskCreate?
      modifies this
      ensures match Mutated(old(db), command, env)
              case Ok(change) => result == Ok(change.response) && db == change.db
              case Err(error) => result == Err(error)
    {
      if HasBlankText(command) {
        return Err(TitleRequired);
      }
      var task := NewTask(command.session, command.title, command.description, env);
      var position := NextPosition(command.session);
      if task.id !in db.items {
        InsertAtEnd(db.items, task);
      }
      var inserted := InsertTask(task, position);
      if inserted.Err? {
        return Err(inserted.error);
      }
      BumpRevision(command.session);
      return Ok(TaskReply(task));
    }

    /** `execute_mutation`. */
    method Execute(command: Command, env: Env) returns (result: Result<Response, Error>)
      requires Sound(db) && command.Mutates() && GoodEnv(command, env)
      modifies this
      ensures match Mutated(old(db), command, env)
              case Ok(change) => result == Ok(change.response) && db == change.db
              case Err(error) => result == Err(error)
    {
      match command {
        case BoardWrite(session, board, expected) =>
          var replaced := ReplaceBoard(session, Normalized(board, env.keys), Some(expected));
          return if replaced.Err? then Err(replaced.error) else Ok(Ack);
        case TaskCreate(_, _, _) =>
          result := CreateTask(command, env);
        case TaskUpdate(_, id, _) =>
          result := EditTask(command, id, env);
        case TaskDone(_, id, _, _) =>
          result := EditTask(command, id, env);
        case TaskNote(_, id, _) =>
          result := EditTask(command, id, env);
        case TaskDelete(session, id) =>
          var deleted := DeleteTask(session, id);
          if deleted.Err? {
            return Err(deleted.error);
          }
          BumpRevision(session);
          return Ok(Ack);
        case BriefSet(session, purpose, notes) =>
          var brief := Brief(TrimText(purpose), TrimText(notes), env.nowText);
          db := WithBrief(db, session, Some(brief));
          BumpRevision(session);
          return Ok(BriefReply(Some(brief)));
      }
    }
  }

  // ---------------------------------------------------------------------------
  // The plane
  // ---------------------------------------------------------------------------

  /** `SELECT id ... WHERE session_id = ? ORDER BY position ASC` */
  method SelectByPosition(items: Items, session: Id) returns (ids: seq<Id>)
    requires Dense(items, session)
    ensures ids == Listing(items, session)
  {
    ghost var listing := Listing(items, session);
    var rest := set id | id in items && items[id].session == session;
    ids := [];
    while rest != {}
      invariant |ids| <= |listing| && ids == listing[..|ids|]
      invariant forall id :: id in rest <==>
                  id in items && items[id].session == session && items[id].position >= |ids|
      decreases rest
    {
      FirstOfRest(items, session, rest, |ids|);
      var id :| id in rest && forall other :: other in rest ==> items[id].position <= items[other].position;
      ids := ids + [id];
      rest := rest - {id};
    }
    if |ids| < |listing| {
      RowAt(items, session, |ids|);
    }
  }

  lemma RowAt(items: Items, session: Id, position: nat)
    requires Dense(items, session) && position < |Listing(items, session)|
    ensures exists id :: id in items && items[id].session == session && items[id].position >= position
  {
    assert items[Listing(items, session)[position]].position == position;
  }

  lemma FirstOfRest(items: Items, session: Id, rest: set<Id>, from: nat)
    requires Dense(items, session) && rest != {}
    requires forall id :: id in rest <==> id in items && items[id].session == session && items[id].position >= from
    ensures from < |Listing(items, session)| && Listing(items, session)[from] in rest
    ensures items[Listing(items, session)[from]].position == from
    ensures forall id :: id in rest && id != Listing(items, session)[from] ==> items[id].position > from
  {
    var id :| id in rest;
    var first := Listing(items, session)[from];
    assert items[first].position == from;
  }

  class Plane {
    var db: Database

    ghost predicate Valid()
      reads this
    {
      Sound(db)
    }

    constructor ()
      ensures Valid() && db == EMPTY_DATABASE
    {
      db := EMPTY_DATABASE;
      new;
      EmptyIsSound();
    }

    method ReadBoard(session: Id) returns (board: BoardDoc)
      requires Valid()
      ensures board == BoardOf(db, session)
    {
      var order := SelectByPosition(db.items, session);
      board := BoardDoc(CurrentRevision(db, session), map id | id in order :: db.items[id].task, order,
                        BriefOf(db, session));
    }

    method Execute(request: Request, env: Env) returns (reply: Result<Response, Error>)
      requires Valid() && GoodEnv(request.command, env)
      modifies this
      ensures Outcome(db, reply) == Executed(old(db), request, env)
      ensures Valid()
    {
      ExecutedIsSound(db, request, env);
      if !request.sessionParses {
        return Err(InvalidSession);
      }
      if request.operation in db.operations {
        var stored := db.operations[request.operation];
        return if stored.request != Digest(request.text) then Err(OperationConflict) else Ok(stored.response);
      }
      if !request.command.Mutates() {
        if request.command.BoardRead? {
          var board := ReadBoard(request.command.session);
          return Ok(Board(board));
        }
        return Ok(BriefReply(BriefOf(db, request.command.session)));
      }
      var transaction := new Transaction(db);
      var result := transaction.Execute(request.command, env);
      if result.Err? {
        return Err(result.error);
      }
      db := Logged(transaction.db, request, result.value);
      return Ok(result.value);
    }

    method ImportLegacyBoards(files: seq<LegacyFile>) returns (failure: Option<Error>)
      requires Valid() && forall i :: 0 <= i < |files| ==> GoodFile(files[i])
      modifies this
      ensures (db, failure) == ImportedAll(old(db), files, 0)
      ensures Valid()
    {
      for i := 0 to |files|
        invariant Valid() && ImportedAll(db, files, i) == ImportedAll(old(db), files, 0)
      {
        var file := files[i];
        ImportedIsSound(db, file);
        if AlreadyImported(db, file) || file.board.None? {
          continue;
        }
        if !file.sessionParses {
          return Some(InvalidSession);
        }
        var transaction := new Transaction(db);
        if !HasWorkItems(transaction.db, file.session) {
          var replaced := transaction.ReplaceBoard(file.session, Normalized(file.board.value, file.keys), None);
          if replaced.Err? {
            return Some(replaced.error);
          }
        }
        db := transaction.db.(imports := transaction.db.imports[file.path := Digest(file.bytes)]);
      }
      return None;
    }
  }
}
