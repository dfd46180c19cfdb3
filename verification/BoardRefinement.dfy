/**
 The database refines a collection of boards.

 Each session is seen as a revision, a list of tasks and a brief.  Every command changes
 the view of its own session in the obvious way and leaves all other sessions alone; in
 particular rows stay densely numbered and columns agree with the stored tasks.
 */
module BoardRefinement {
  import opened Outcomes
  import opened Text
  import opened WorkItems
  import opened WorkItemTable
  import opened Revisions
  import opened ControlModel

  datatype View = View(revision: u64, tasks: seq<Task>, brief: Option<Brief>)

  ghost function TasksOf(items: Items, session: Id): (tasks: seq<Task>)
    requires Dense(items, session)
    ensures |tasks| == |Listing(items, session)|
    ensures forall i :: 0 <= i < |tasks| ==> tasks[i] == items[Listing(items, session)[i]].task
  {
    var ids := Listing(items, session);
    seq(|ids|, i requires 0 <= i < |ids| => items[ids[i]].task)
  }

  ghost function ViewOf(db: Database, session: Id): View
    requires Sound(db)
  {
    View(CurrentRevision(db, session), TasksOf(db.items, session), BriefOf(db, session))
  }

  // ---------------------------------------------------------------------------
  // Boards as lists
  // ---------------------------------------------------------------------------

  /** Where the task `id` is in the list; the length when it is nowhere. */
  function IndexOf(tasks: seq<Task>, id: Id): (i: nat)
    ensures i <= |tasks|
    ensures i < |tasks| ==> tasks[i].id == id
    ensures forall j :: 0 <= j < i ==> tasks[j].id != id
  {
    if tasks == [] || tasks[0].id == id then 0 else 1 + IndexOf(tasks[1..], id)
  }

  /** The tasks a board names, in its order. */
  function Chosen(board: BoardDoc): seq<Task>
    requires forall id :: id in board.taskOrder ==> id in board.tasks
  {
    seq(|board.taskOrder|, i requires 0 <= i < |board.taskOrder| => board.tasks[board.taskOrder[i]])
  }

  predicate IsComplete(board: BoardDoc) {
    forall id :: id in board.taskOrder ==> id in board.tasks
  }

  function TasksAfter(tasks: seq<Task>, command: Command, env: Env): seq<Task>
    requires command.BoardWrite? ==> Enumerates(env.keys, command.board.tasks)
  {
    match command
    case BoardWrite(_, board, _) =>
      var normalized := Normalized(board, env.keys);
      if IsComplete(normalized) then Chosen(normalized) else tasks
    case TaskCreate(session, title, description) => tasks + [NewTask(session, title, description, env)]
    case TaskDelete(_, id) =>
      var i := IndexOf(tasks, id);
      if i < |tasks| then tasks[..i] + tasks[i + 1..] else tasks
    case TaskUpdate(_, id, _) => TasksAfterEdit(tasks, command, id, env)
    case TaskDone(_, id, _, _) => TasksAfterEdit(tasks, command, id, env)
    case TaskNote(_, id, _) => TasksAfterEdit(tasks, command, id, env)
    case _ => tasks
  }

  function TasksAfterEdit(tasks: seq<Task>, command: Command, id: Id, env: Env): seq<Task>
    requires Edits(command)
  {
    var i := IndexOf(tasks, id);
    if i < |tasks| && Edited(tasks[i], command, env.now).Ok?
    then tasks[i := Edited(tasks[i], command, env.now).value] else tasks
  }

  function BriefAfter(brief: Option<Brief>, command: Command, env: Env): Option<Brief> {
    match command
    case BoardWrite(_, board, _) => board.brief
    case BriefSet(_, purpose, notes) => Some(Brief(TrimText(purpose), TrimText(notes), env.nowText))
    case _ => brief
  }

  /** Everything but the view of `session` is as it was. */
  ghost predicate OnlyChanges(before: Database, after: Database, session: Id)
    requires Sound(before) && Sound(after)
  {
    && (forall other :: other != session ==>
          SameRows(before.items, after.items, other) && ViewOf(after, other) == ViewOf(before, other))
    && after.operations == before.operations && after.events == before.events && after.imports == before.imports
  }

  // ---------------------------------------------------------------------------
  // Table changes seen as list changes
  // ---------------------------------------------------------------------------

  lemma SameRowsSameTasks(a: Items, b: Items, session: Id)
    requires SameRows(a, b, session) && Dense(a, session)
    ensures Dense(b, session) && TasksOf(b, session) == TasksOf(a, session)
  {
    SameRowsSameListing(a, b, session);
    var ids := Listing(a, session);
    assert forall i :: 0 <= i < |ids| ==> a[ids[i]] == b[ids[i]];
  }

  lemma IndexIsPosition(items: Items, session: Id, id: Id)
    requires AllDense(items) && IndexAgrees(items)
    ensures HasRow(items, session, id) ==> IndexOf(TasksOf(items, session), id) == items[id].position
    ensures !HasRow(items, session, id) ==> IndexOf(TasksOf(items, session), id) == |TasksOf(items, session)|
  {
    var tasks, ids := TasksOf(items, session), Listing(items, session);
    assert forall i :: 0 <= i < |tasks| ==> tasks[i].id == ids[i];
    var i := IndexOf(tasks, id);
    if i < |tasks| {
      assert items[ids[i]].position == i;
    }
  }

  /** The new table is in order and differs in the rows of `session` only, which hold `tasks`. */
  ghost predicate Becomes(before: Items, after: Items, session: Id, tasks: seq<Task>) {
    && AllDense(after) && IndexAgrees(after) && TasksOf(after, session) == tasks
    && forall other :: other != session ==> SameRows(before, after, other)
  }

  lemma InsertAppends(items: Items, task: Task)
    requires AllDense(items) && IndexAgrees(items) && task.id !in items
    ensures var tasks := TasksOf(items, task.sessionId);
            Becomes(items, items[task.id := RowOf(task, |tasks|)], task.sessionId, tasks + [task])
  {
    var ids := Listing(items, task.sessionId);
    InsertAtEnd(items, task);
    assert forall i :: 0 <= i < |ids| ==> ids[i] in items && ids[i] != task.id;
  }

  lemma RewriteReplaces(items: Items, task: Task)
    requires AllDense(items) && IndexAgrees(items) && HasRow(items, task.sessionId, task.id)
    requires items[task.id].task.createdAt == task.createdAt
    ensures var tasks := TasksOf(items, task.sessionId);
            var i := IndexOf(tasks, task.id);
            && i < |tasks| && tasks[i] == items[task.id].task
            && Becomes(items, items[task.id := Rewritten(items[task.id], task)], task.sessionId, tasks[i := task])
  {
    var ids := Listing(items, task.sessionId);
    RewriteInPlace(items, task);
    IndexIsPosition(items, task.sessionId, task.id);
    assert forall i :: 0 <= i < |ids| ==> (ids[i] == task.id <==> i == items[task.id].position);
  }

  /** The same tasks in the same order, but for the one with the id of `task`. */
  ghost predicate Exchanged(before: seq<Task>, after: seq<Task>, task: Task) {
    && |after| == |before| && (exists i :: 0 <= i < |before| && before[i].id == task.id)
    && forall i :: 0 <= i < |before| ==> after[i] == if before[i].id == task.id then task else before[i]
  }

  lemma RewriteExchanges(items: Items, task: Task)
    requires AllDense(items) && IndexAgrees(items) && HasRow(items, task.sessionId, task.id)
    ensures var after := items[task.id := Rewritten(items[task.id], task)];
            && AllDense(after)
            && Exchanged(TasksOf(items, task.sessionId), TasksOf(after, task.sessionId), task)
            && (forall other :: other != task.sessionId ==> SameRows(items, after, other))
            && (IndexAgrees(after) <==> items[task.id].task.createdAt == task.createdAt)
  {
    var tasks, ids := TasksOf(items, task.sessionId), Listing(items, task.sessionId);
    RewriteInPlace(items, task);
    IndexIsPosition(items, task.sessionId, task.id);
    assert forall i :: 0 <= i < |ids| ==> tasks[i].id == ids[i];
    assert tasks[items[task.id].position].id == task.id;
  }

  lemma DeleteRemoves(items: Items, session: Id, id: Id)
    requires AllDense(items) && IndexAgrees(items) && HasRow(items, session, id)
    ensures var tasks := TasksOf(items, session);
            var i := IndexOf(tasks, id);
            && i < |tasks|
            && Becomes(items, Shifted(Deleted(items, session, id), session, items[id].position), session,
                       tasks[..i] + tasks[i + 1..])
  {
    var tasks, ids, i := TasksOf(items, session), Listing(items, session), items[id].position;
    var after := Shifted(Deleted(items, session, id), session, i);
    DeleteAndShift(items, session, id);
    IndexIsPosition(items, session, id);
    forall other | other in after ensures other in items && after[other].task == items[other].task {
    }
    RemovedTasks(items, after, session, ids, i);
  }

  lemma RemovedTasks(items: Items, after: Items, session: Id, ids: seq<Id>, i: nat)
    requires Dense(items, session) && Listing(items, session) == ids && i < |ids|
    requires Dense(after, session) && Listing(after, session) == ids[..i] + ids[i + 1..]
    requires forall id :: id in after ==> id in items && after[id].task == items[id].task
    ensures TasksOf(after, session) == TasksOf(items, session)[..i] + TasksOf(items, session)[i + 1..]
  {
    var left := Listing(after, session);
    forall j | 0 <= j < |left| ensures after[left[j]].task == items[ids[if j < i then j else j + 1]].task {
      assert left[j] == ids[if j < i then j else j + 1];
    }
  }

  // ---------------------------------------------------------------------------
  // Each command
  // ---------------------------------------------------------------------------

  /** What holds of a committed change. */
  ghost predicate Refines(before: Database, command: Command, env: Env, after: Database)
    requires Sound(before) && GoodEnv(command, env)
  {
    var session, view := command.session, ViewOf(before, command.session);
    && Sound(after)
    && ViewOf(after, session) == View(RevisionAfter(view.revision), TasksAfter(view.tasks, command, env),
                                      BriefAfter(view.brief, command, env))
    && OnlyChanges(before, after, session)
  }

  /** From a change of the table to a change of views, with one more revision. */
  lemma BumpedRefines(db: Database, items: Items, session: Id, tasks: seq<Task>)
    requires Sound(db) && Becomes(db.items, items, session, tasks)
    ensures var after := Bumped(db.(items := items), session);
            && Sound(after) && OnlyChanges(db, after, session)
            && ViewOf(after, session) == View(RevisionAfter(CurrentRevision(db, session)), tasks, BriefOf(db, session))
  {
    var after := Bumped(db.(items := items), session);
    forall other | other != session ensures ViewOf(after, other) == ViewOf(db, other) {
      SameRowsSameTasks(db.items, items, other);
    }
  }

  lemma EditRefines(db: Database, command: Command, id: Id, env: Env)
    requires Sound(db) && Edits(command) && id == command.taskId && EditedRow(db, command, id, env).Ok?
    ensures Refines(db, command, env, EditedRow(db, command, id, env).value.db)
  {
    var row, tasks := db.items[id], TasksOf(db.items, command.session);
    var task := Edited(row.task, command, env.now).value;
    EditKeepsIdentity(row.task, command, env.now);
    RewriteReplaces(db.items, task);
    BumpedRefines(db, db.items[id := Rewritten(row, task)], command.session, tasks[IndexOf(tasks, id) := task]);
  }

  lemma BriefRefines(db: Database, session: Id, brief: Option<Brief>)
    requires Sound(db)
    ensures var after := Bumped(WithBrief(db, session, brief), session);
            && Sound(after) && OnlyChanges(db, after, session)
            && ViewOf(after, session)
               == View(RevisionAfter(CurrentRevision(db, session)), TasksOf(db.items, session), brief)
  {
  }

  // ---------------------------------------------------------------------------
  // Whole-board replacement
  // ---------------------------------------------------------------------------

  /** The session's rows are the first `n` tasks of the order, each at its index. */
  ghost predicate Placed(items: Items, session: Id, tasks: map<Id, Task>, order: seq<Id>, n: nat) {
    && n <= |order|
    && (forall k :: 0 <= k < n ==>
          && order[k] in tasks && tasks[order[k]].sessionId == session
          && tasks[order[k]].id in items && items[tasks[order[k]].id] == RowOf(tasks[order[k]], k))
    && (forall id :: id in items && items[id].session == session ==>
          0 <= items[id].position < n && tasks[order[items[id].position]].id == id)
  }

  /** The remaining tasks exist, are of this session, and have ids that are new and distinct. */
  ghost predicate Insertable(items: Items, session: Id, tasks: map<Id, Task>, order: seq<Id>, from: nat) {
    && (forall k :: from <= k < |order| ==>
          order[k] in tasks && tasks[order[k]].sessionId == session && tasks[order[k]].id !in items)
    && (forall k, l :: from <= k < l < |order| ==> tasks[order[k]].id != tasks[order[l]].id)
  }

  lemma PlaceOne(items: Items, session: Id, tasks: map<Id, Task>, order: seq<Id>, n: nat)
    requires n < |order| && Placed(items, session, tasks, order, n) && IndexAgrees(items)
    requires order[n] in tasks && tasks[order[n]].sessionId == session
    ensures CanInsert(items, tasks[order[n]], n) <==> tasks[order[n]].id !in items
    ensures tasks[order[n]].id !in items ==>
              var after := items[tasks[order[n]].id := RowOf(tasks[order[n]], n)];
              && Placed(after, session, tasks, order, n + 1) && IndexAgrees(after)
              && forall other :: other != session ==> SameRows(items, after, other)
  {
  }

  /** Inserting succeeds exactly for insertable tasks, and then places them all. */
  lemma {:induction false} InsertAllIff(items: Items, session: Id, tasks: map<Id, Task>, order: seq<Id>, from: nat)
    requires Placed(items, session, tasks, order, from) && IndexAgrees(items)
    ensures var inserted := InsertAll(items, session, tasks, order, from);
            && (inserted.Ok? <==> Insertable(items, session, tasks, order, from))
            && (inserted.Ok? ==>
                  && Placed(inserted.value, session, tasks, order, |order|) && IndexAgrees(inserted.value)
                  && forall other :: other != session ==> SameRows(items, inserted.value, other))
    decreases |order| - from
  {
    if from < |order| && order[from] in tasks && tasks[order[from]].sessionId == session {
      var task := tasks[order[from]];
      PlaceOne(items, session, tasks, order, from);
      if task.id !in items {
        var next := items[task.id := RowOf(task, from)];
        InsertAllIff(next, session, tasks, order, from + 1);
        InsertableStep(items, session, tasks, order, from);
        var inserted := InsertAll(next, session, tasks, order, from + 1);
        if inserted.Ok? {
          SameRowsChain(items, next, inserted.value, session);
        }
      }
    }
  }

  lemma InsertableStep(items: Items, session: Id, tasks: map<Id, Task>, order: seq<Id>, from: nat)
    requires from < |order| && order[from] in tasks && tasks[order[from]].sessionId == session
    requires tasks[order[from]].id !in items
    ensures Insertable(items, session, tasks, order, from)
            <==> Insertable(items[tasks[order[from]].id := RowOf(tasks[order[from]], from)], session, tasks, order,
                            from + 1)
  {
  }

  lemma SameRowsChain(a: Items, b: Items, c: Items, session: Id)
    requires forall other :: other != session ==> SameRows(a, b, other)
    requires forall other :: other != session ==> SameRows(b, c, other)
    ensures forall other :: other != session ==> SameRows(a, c, other)
  {
    forall other | other != session ensures SameRows(a, c, other) {
      assert SameRows(a, b, other) && SameRows(b, c, other);
    }
  }

  lemma PlacedIsChosen(before: Items, items: Items, session: Id, board: BoardDoc)
    requires AllDense(before) && IndexAgrees(items)
    requires Placed(items, session, board.tasks, board.taskOrder, |board.taskOrder|)
    requires forall other :: other != session ==> SameRows(before, items, other)
    ensures IsComplete(board) && Becomes(before, items, session, Chosen(board))
  {
    var tasks, order := board.tasks, board.taskOrder;
    var ids := seq(|order|, k requires 0 <= k < |order| => tasks[order[k]].id);
    assert IsListing(items, session, ids);
    ListingAfter(before, items, session, ids);
  }

  /** What a board must be like for its tasks to be stored. */
  ghost predicate Storable(items: Items, session: Id, board: BoardDoc) {
    Insertable(SessionDeleted(items, session), session, board.tasks, board.taskOrder, 0)
  }

  lemma RewrittenRefines(db: Database, items: Items, session: Id, tasks: seq<Task>, brief: Option<Brief>)
    requires Sound(db) && Becomes(db.items, items, session, tasks)
    ensures var after := WithRevision(WithBrief(db.(items := items), session, brief), session,
                                      SaturatingSuccessor(CurrentRevision(db, session)));
            && Sound(after) && OnlyChanges(db, after, session)
            && ViewOf(after, session) == View(RevisionAfter(CurrentRevision(db, session)), tasks, brief)
  {
    var after := WithRevision(WithBrief(db.(items := items), session, brief), session,
                              SaturatingSuccessor(CurrentRevision(db, session)));
    forall other | other != session ensures ViewOf(after, other) == ViewOf(db, other) {
      SameRowsSameTasks(db.items, items, other);
    }
  }

  /** A replacement commits exactly at the expected revision and for a storable board. */
  lemma ReplacedRefines(db: Database, session: Id, board: BoardDoc, expected: Option<u64>)
    requires Sound(db)
    ensures Replaced(db, session, board, expected).Ok?
            <==> (expected.Some? ==> expected.value == CurrentRevision(db, session))
                 && Storable(db.items, session, board)
    ensures Replaced(db, session, board, expected).Ok? ==>
              var after := Replaced(db, session, board, expected).value;
              && Sound(after) && OnlyChanges(db, after, session) && IsComplete(board)
              && ViewOf(after, session)
                 == View(RevisionAfter(CurrentRevision(db, session)), Chosen(board), board.brief)
  {
    var cleared := SessionDeleted(db.items, session);
    DeleteSession(db.items, session);
    InsertAllIff(cleared, session, board.tasks, board.taskOrder, 0);
    var inserted := InsertAll(cleared, session, board.tasks, board.taskOrder, 0);
    if inserted.Ok? {
      SameRowsChain(db.items, cleared, inserted.value, session);
      PlacedIsChosen(db.items, inserted.value, session, board);
      RewrittenRefines(db, inserted.value, session, Chosen(board), board.brief);
    }
  }

  // ---------------------------------------------------------------------------
  // All commands, executions and imports
  // ---------------------------------------------------------------------------

  /** Every committed command does to its session's view what it says, and nothing else. */
  lemma MutatedRefines(db: Database, command: Command, env: Env)
    requires Sound(db) && command.Mutates() && GoodEnv(command, env) && Mutated(db, command, env).Ok?
    ensures Refines(db, command, env, Mutated(db, command, env).value.db)
  {
    var session := command.session;
    match command
    case BoardWrite(_, board, expected) =>
      ReplacedRefines(db, session, Normalized(board, env.keys), Some(expected));
    case TaskCreate(_, title, description) =>
      var task := NewTask(session, title, description, env);
      var tasks := TasksOf(db.items, session);
      InsertAppends(db.items, task);
      BumpedRefines(db, db.items[task.id := RowOf(task, |tasks|)], session, tasks + [task]);
    case TaskDelete(_, id) =>
      var tasks, i := TasksOf(db.items, session), IndexOf(TasksOf(db.items, session), id);
      DeleteRemoves(db.items, session, id);
      BumpedRefines(db, Shifted(Deleted(db.items, session, id), session, db.items[id].position), session,
                    tasks[..i] + tasks[i + 1..]);
    case BriefSet(_, purpose, notes) =>
      BriefRefines(db, session, Some(Brief(TrimText(purpose), TrimText(notes), env.nowText)));
    case TaskUpdate(_, id, _) => EditRefines(db, command, id, env);
    case TaskDone(_, id, _, _) => EditRefines(db, command, id, env);
    case TaskNote(_, id, _) => EditRefines(db, command, id, env);
  }

  lemma EmptyIsSound()
    ensures Sound(EMPTY_DATABASE)
    ensures forall session :: ViewOf(EMPTY_DATABASE, session) == View(0, [], None)
  {
    forall session ensures Dense(EMPTY_DATABASE.items, session) && Listing(EMPTY_DATABASE.items, session) == [] {
      assert IsListing(EMPTY_DATABASE.items, session, []);
      ListingIsUnique(EMPTY_DATABASE.items, session, []);
    }
  }

  lemma ExecutedIsSound(db: Database, request: Request, env: Env)
    requires Sound(db) && GoodEnv(request.command, env)
    ensures Sound(Executed(db, request, env).db)
  {
    if Commits(db, request, env) {
      MutatedRefines(db, request.command, env);
    }
  }

  /** The request runs its command and the transaction commits. */
  ghost predicate Commits(db: Database, request: Request, env: Env)
    requires Sound(db) && GoodEnv(request.command, env)
  {
    && request.sessionParses && request.operation !in db.operations && request.command.Mutates()
    && Mutated(db, request.command, env).Ok?
  }

  lemma ImportedIsSound(db: Database, file: LegacyFile)
    requires Sound(db) && GoodFile(file)
    ensures Imported(db, file).Ok? ==> Sound(Imported(db, file).value)
  {
    if file.board.Some? {
      ReplacedRefines(db, file.session, Normalized(file.board.value, file.keys), None);
    }
  }
}
