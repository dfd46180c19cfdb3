/**
 What the control plane guarantees over whole runs: any number of calls, repeated or not,
 with restarts that import old boards in between.
 */
module ControlRuns {
  import opened Outcomes
  import opened WorkItems
  import opened WorkItemTable
  import opened Revisions
  import opened ControlModel
  import opened BoardRefinement

  datatype Action = Call(request: Request, env: Env) | Open(files: seq<LegacyFile>)

  ghost predicate GoodFiles(files: seq<LegacyFile>) {
    forall i :: 0 <= i < |files| ==> GoodFile(files[i])
  }

  ghost predicate Good(action: Action) {
    match action
    case Call(request, env) => GoodEnv(request.command, env)
    case Open(files) => GoodFiles(files)
  }

  ghost predicate AllGood(actions: seq<Action>) {
    forall i :: 0 <= i < |actions| ==> Good(actions[i])
  }

  function Opened(db: Database, files: seq<LegacyFile>): Database
    requires forall i :: 0 <= i < |files| ==> GoodFile(files[i])
  {
    ImportedAll(db, files, 0).0
  }

  ghost function After(db: Database, action: Action): (after: Database)
    requires Sound(db) && Good(action)
    ensures Sound(after)
  {
    match action
    case Call(request, env) =>
      ExecutedIsSound(db, request, env);
      Executed(db, request, env).db
    case Open(files) =>
      OpenedIsSound(db, files, 0);
      Opened(db, files)
  }

  lemma {:induction false} OpenedIsSound(db: Database, files: seq<LegacyFile>, from: nat)
    requires Sound(db) && GoodFiles(files) && from <= |files|
    ensures Sound(ImportedAll(db, files, from).0)
    decreases |files| - from
  {
    if from < |files| {
      ImportedIsSound(db, files[from]);
      if Imported(db, files[from]).Ok? {
        OpenedIsSound(Imported(db, files[from]).value, files, from + 1);
      }
    }
  }

  ghost function Run(db: Database, actions: seq<Action>): (after: Database)
    requires Sound(db) && AllGood(actions)
    ensures Sound(after)
    decreases actions
  {
    if actions == [] then db else Run(After(db, actions[0]), actions[1..])
  }

  /** The database a run leads to from a new one. */
  ghost function Reached(actions: seq<Action>): (db: Database)
    requires AllGood(actions)
    ensures Sound(db)
  {
    EmptyIsSound();
    Run(EMPTY_DATABASE, actions)
  }

  /**
   In every reachable state the rows of a session have the positions 0..n-1, each once,
   and the columns of every row agree with the task it stores.
   */
  lemma ReachableBoardsAreInOrder(actions: seq<Action>, session: Id)
    requires AllGood(actions)
    ensures var items := Reached(actions).items;
            && (forall p :: Occupied(items, session, p) <==> 0 <= p < |RowsOf(items, session)|)
            && (forall a, b :: HasRow(items, session, a) && HasRow(items, session, b) && a != b ==>
                  items[a].position != items[b].position)
            && (forall id :: HasRow(items, session, id) ==>
                  var row := items[id];
                  && row.task.id == id && row.task.sessionId == session
                  && row.title == row.task.title && row.description == row.task.description
                  && row.status == row.task.status
                  && row.createdAt == AsI64(row.task.createdAt) && row.updatedAt == AsI64(row.task.updatedAt))
  {
    PositionsAreExact(Reached(actions).items, session);
  }

  // ---------------------------------------------------------------------------
  // Each operation takes effect at most once
  // ---------------------------------------------------------------------------

  /** A call changes the database exactly when its transaction commits. */
  lemma ChangesIffCommits(db: Database, request: Request, env: Env)
    requires Sound(db) && GoodEnv(request.command, env)
    ensures Executed(db, request, env).db != db <==> Commits(db, request, env)
    ensures Commits(db, request, env) ==>
              var after := Executed(db, request, env);
              && after.db.operations
                 == db.operations[request.operation := Operation(Digest(request.text), after.reply.value)]
              && after.db.events
                 == db.events + [Event(EventType(request.command), request.command.session, request.operation)]
              && after.db.imports == db.imports
  {
    if Commits(db, request, env) {
      MutatedRefines(db, request.command, env);
      var change := Mutated(db, request.command, env).value;
      assert |Logged(change.db, request, change.response).events| == |db.events| + 1;
    }
  }

  lemma {:induction false} OpenedKeepsLog(db: Database, files: seq<LegacyFile>, from: nat)
    requires Sound(db) && GoodFiles(files) && from <= |files|
    ensures ImportedAll(db, files, from).0.operations == db.operations
    ensures ImportedAll(db, files, from).0.events == db.events
    decreases |files| - from
  {
    if from < |files| && Imported(db, files[from]).Ok? {
      ImportedKeepsOthers(db, files[from]);
      ImportedIsSound(db, files[from]);
      OpenedKeepsLog(Imported(db, files[from]).value, files, from + 1);
    }
  }

  /** An import changes its own session at most, and that only when it has no work items. */
  lemma ImportedKeepsOthers(db: Database, file: LegacyFile)
    requires Sound(db) && GoodFile(file) && Imported(db, file).Ok?
    ensures var after := Imported(db, file).value;
            && after.operations == db.operations && after.events == db.events
            && after.imports == (if AlreadyImported(db, file) || file.board.None? then db.imports
                                 else db.imports[file.path := Digest(file.bytes)])
            && Sound(after)
            && (forall session :: session != file.session ==> ViewOf(after, session) == ViewOf(db, session))
            && (HasWorkItems(db, file.session) || AlreadyImported(db, file) ==>
                  ViewOf(after, file.session) == ViewOf(db, file.session))
  {
    ImportedIsSound(db, file);
    if file.board.Some? {
      var board := Normalized(file.board.value, file.keys);
      ReplacedRefines(db, file.session, board, None);
      if Replaced(db, file.session, board, None).Ok? {
        SameViews(Replaced(db, file.session, board, None).value, Imported(db, file).value);
      }
    }
    SameViews(db, Imported(db, file).value);
  }

  /** Views depend on the three board tables only. */
  lemma SameViews(a: Database, b: Database)
    requires Sound(a)
    ensures a.items == b.items && a.revisions == b.revisions && a.briefs == b.briefs ==>
              Sound(b) && forall session :: ViewOf(b, session) == ViewOf(a, session)
  {
  }

  function EventCount(events: seq<Event>, operation: Id): nat {
    if events == [] then 0
    else EventCount(events[..|events| - 1], operation) + if events[|events| - 1].operation == operation then 1 else 0
  }

  function Once(present: bool): nat {
    if present then 1 else 0
  }

  /** How often `operation` takes effect in a run. */
  ghost function Effects(db: Database, actions: seq<Action>, operation: Id): nat
    requires Sound(db) && AllGood(actions)
    decreases actions
  {
    if actions == [] then 0
    else
      var a := actions[0];
      Once(a.Call? && a.request.operation == operation && Commits(db, a.request, a.env))
      + Effects(After(db, a), actions[1..], operation)
  }

  lemma StepLogsEffect(db: Database, action: Action, operation: Id)
    requires Sound(db) && Good(action)
    ensures var after := After(db, action);
            var effect := Once(action.Call? && action.request.operation == operation
                               && Commits(db, action.request, action.env));
            && Once(operation in after.operations) == Once(operation in db.operations) + effect
            && EventCount(after.events, operation) == EventCount(db.events, operation) + effect
            && (operation in db.operations ==> after.operations[operation] == db.operations[operation])
  {
    match action
    case Call(request, env) =>
      ChangesIffCommits(db, request, env);
      var event := Event(EventType(request.command), request.command.session, request.operation);
      assert (db.events + [event])[..|db.events + [event]| - 1] == db.events;
    case Open(files) =>
      OpenedKeepsLog(db, files, 0);
  }

  /**
   Over any run an operation takes effect at most once, not at all if it is already
   logged, and leaves exactly one operations row and one event for its effect.
   */
  lemma {:induction false} AtMostOnce(db: Database, actions: seq<Action>, operation: Id)
    requires Sound(db) && AllGood(actions)
    ensures var effects := Effects(db, actions, operation);
            && effects + Once(operation in db.operations) == Once(operation in Run(db, actions).operations) <= 1
            && EventCount(Run(db, actions).events, operation) == EventCount(db.events, operation) + effects
    ensures operation in db.operations ==>
              operation in Run(db, actions).operations
              && Run(db, actions).operations[operation] == db.operations[operation]
    decreases actions
  {
    if actions != [] {
      StepLogsEffect(db, actions[0], operation);
      AtMostOnce(After(db, actions[0]), actions[1..], operation);
    }
  }

  /**
   However much happens in between, repeating a committed call returns its response and
   changes nothing; the same operation with another text is refused and changes nothing.
   */
  lemma ReplayReturnsStoredResponse(db: Database, first: Request, env: Env, between: seq<Action>,
                                    again: Request, env': Env)
    requires Sound(db) && GoodEnv(first.command, env) && Commits(db, first, env) && AllGood(between)
    requires again.operation == first.operation && again.sessionParses && GoodEnv(again.command, env')
    ensures var after := After(db, Call(first, env));
            var later := Run(after, between);
            Executed(later, again, env')
              == Outcome(later, if again.text == first.text then Executed(db, first, env).reply
                                else Err(OperationConflict))
  {
    ChangesIffCommits(db, first, env);
    AtMostOnce(After(db, Call(first, env)), between, first.operation);
  }

  // ---------------------------------------------------------------------------
  // No lost updates
  // ---------------------------------------------------------------------------

  /**
   A committed command raises the revision of its own session, by exactly one short of
   the largest storable revision, and changes no other session's view.
   */
  lemma CommitRaisesOwnRevision(db: Database, request: Request, env: Env)
    requires Sound(db) && GoodEnv(request.command, env) && Commits(db, request, env)
    ensures var after, session := Executed(db, request, env).db, request.command.session;
            && Sound(after)
            && (CurrentRevision(after, session) == CurrentRevision(db, session) + 1
                <==> CurrentRevision(db, session) != I64_MAX)
            && (CurrentRevision(db, session) == I64_MAX ==> CurrentRevision(after, session) == 0)
            && forall other :: other != session ==> ViewOf(after, other) == ViewOf(db, other)
  {
    MutatedRefines(db, request.command, env);
    var change := Mutated(db, request.command, env).value;
    SameViews(change.db, Logged(change.db, request, change.response));
  }

  /** A whole-board write commits exactly at its expected revision and for a storable board. */
  lemma BoardWriteCommitsIff(db: Database, request: Request, env: Env)
    requires Sound(db) && GoodEnv(request.command, env) && request.command.BoardWrite?
    requires request.sessionParses && request.operation !in db.operations
    ensures Commits(db, request, env)
            <==> request.command.expectedRevision == CurrentRevision(db, request.command.session)
                 && Storable(db.items, request.command.session, Normalized(request.command.board, env.keys))
  {
    ReplacedRefines(db, request.command.session, Normalized(request.command.board, env.keys),
                    Some(request.command.expectedRevision));
  }

  /** The import of `file` goes through and is remembered. */
  predicate Takes(db: Database, file: LegacyFile)
    requires GoodFile(file)
  {
    !AlreadyImported(db, file) && file.board.Some? && Imported(db, file).Ok?
  }

  /** How often the files replace the board of `session`. */
  function Replacements(db: Database, files: seq<LegacyFile>, from: nat, session: Id): nat
    requires from <= |files| && forall i :: 0 <= i < |files| ==> GoodFile(files[i])
    decreases |files| - from
  {
    if from == |files| then 0
    else
      Once(files[from].session == session && Takes(db, files[from]) && !HasWorkItems(db, session))
      + if Imported(db, files[from]).Ok? then Replacements(Imported(db, files[from]).value, files, from + 1, session)
        else 0
  }

  ghost function Advance(db: Database, action: Action, session: Id): nat
    requires Sound(db) && Good(action)
  {
    match action
    case Call(request, env) => Once(request.command.session == session && Commits(db, request, env))
    case Open(files) => Replacements(db, files, 0, session)
  }

  /** How many transactions of a run change the board of `session`. */
  ghost function Advances(db: Database, actions: seq<Action>, session: Id): nat
    requires Sound(db) && AllGood(actions)
    decreases actions
  {
    if actions == [] then 0
    else Advance(db, actions[0], session) + Advances(After(db, actions[0]), actions[1..], session)
  }

  lemma ImportAdvances(db: Database, file: LegacyFile, session: Id)
    requires Sound(db) && GoodFile(file) && Imported(db, file).Ok?
    ensures var advance := Once(file.session == session && Takes(db, file) && !HasWorkItems(db, session));
            CurrentRevision(Imported(db, file).value, session) == Advanced(CurrentRevision(db, session), advance)
  {
    ImportedKeepsOthers(db, file);
    if file.session != session {
      assert ViewOf(Imported(db, file).value, session) == ViewOf(db, session);
    } else if file.board.Some? {
      ReplacedRefines(db, session, Normalized(file.board.value, file.keys), None);
      if Replaced(db, session, Normalized(file.board.value, file.keys), None).Ok? {
        var replaced := Replaced(db, session, Normalized(file.board.value, file.keys), None).value;
        assert CurrentRevision(replaced, session) == ViewOf(replaced, session).revision;
      }
    }
  }

  lemma {:induction false} OpenedCounts(db: Database, files: seq<LegacyFile>, from: nat, session: Id)
    requires Sound(db) && GoodFiles(files) && from <= |files|
    ensures CurrentRevision(ImportedAll(db, files, from).0, session)
         == Advanced(CurrentRevision(db, session), Replacements(db, files, from, session))
    ensures Replacements(db, files, from, session) <= |files| - from
    decreases |files| - from
  {
    if from < |files| && Imported(db, files[from]).Ok? {
      var next := Imported(db, files[from]).value;
      ImportedIsSound(db, files[from]);
      ImportAdvances(db, files[from], session);
      OpenedCounts(next, files, from + 1, session);
      AdvancedTwice(CurrentRevision(db, session),
                    Once(files[from].session == session && Takes(db, files[from]) && !HasWorkItems(db, session)),
                    Replacements(next, files, from + 1, session));
    }
  }

  lemma StepCounts(db: Database, action: Action, session: Id)
    requires Sound(db) && Good(action)
    ensures CurrentRevision(After(db, action), session)
         == Advanced(CurrentRevision(db, session), Advance(db, action, session))
    ensures Advance(db, action, session) <= if action.Call? then 1 else |action.files|
  {
    match action
    case Call(request, env) =>
      ChangesIffCommits(db, request, env);
      if Commits(db, request, env) {
        CommitRaisesOwnRevision(db, request, env);
        if session != request.command.session {
          assert ViewOf(After(db, action), session) == ViewOf(db, session);
        }
      }
    case Open(files) =>
      OpenedCounts(db, files, 0, session);
  }

  /** After any run a session's revision has advanced once for each transaction that changed it. */
  lemma {:induction false} RevisionCountsCommits(db: Database, actions: seq<Action>, session: Id)
    requires Sound(db) && AllGood(actions)
    ensures CurrentRevision(Run(db, actions), session)
         == Advanced(CurrentRevision(db, session), Advances(db, actions, session))
    ensures Advances(db, actions, session) <= Transactions(actions)
    decreases actions
  {
    if actions != [] {
      var after := After(db, actions[0]);
      StepCounts(db, actions[0], session);
      RevisionCountsCommits(after, actions[1..], session);
      AdvancedTwice(CurrentRevision(db, session), Advance(db, actions[0], session),
                    Advances(after, actions[1..], session));
    }
  }

  /** How many transactions a run can commit. */
  function Transactions(actions: seq<Action>): nat {
    if actions == [] then 0
    else (if actions[0].Call? then 1 else |actions[0].files|) + Transactions(actions[1..])
  }

  /** So revisions only rise while they are below 2^63. */
  lemma RevisionsOnlyRise(db: Database, actions: seq<Action>, session: Id)
    requires Sound(db) && AllGood(actions)
    ensures CurrentRevision(Run(db, actions), session) == CurrentRevision(db, session) + Advances(db, actions, session)
            <==> CurrentRevision(db, session) + Advances(db, actions, session) <= I64_MAX
  {
    RevisionCountsCommits(db, actions, session);
    AdvancedIsModular(CurrentRevision(db, session), Advances(db, actions, session));
  }

  /** What a later board write finds: the first one's expectation, advanced by all that changed the board. */
  lemma RevisionFoundLater(db: Database, first: Request, env: Env, between: seq<Action>)
    requires Sound(db) && GoodEnv(first.command, env) && AllGood(between)
    requires first.command.BoardWrite? && Commits(db, first, env)
    ensures first.command.expectedRevision <= I64_MAX
    ensures var session, after := first.command.session, After(db, Call(first, env));
            && CurrentRevision(Run(after, between), session)
               == Advanced(first.command.expectedRevision, 1 + Advances(after, between, session))
            && Advances(after, between, session) <= Transactions(between)
  {
    var session, after := first.command.session, After(db, Call(first, env));
    BoardWriteCommitsIff(db, first, env);
    StepCounts(db, Call(first, env), session);
    RevisionCountsCommits(after, between, session);
    AdvancedTwice(CurrentRevision(db, session), 1, Advances(after, between, session));
  }

  /**
   Once a board write has committed, a second one with the same expectation commits exactly
   if it would be accepted otherwise and the transactions since, counting the first, have
   taken the revision all the way round.
   */
  lemma SameExpectationCommitsTwiceIff(db: Database, first: Request, env: Env, between: seq<Action>,
                                       second: Request, env': Env)
    requires Sound(db) && GoodEnv(first.command, env) && GoodEnv(second.command, env') && AllGood(between)
    requires first.command.BoardWrite? && second.command.BoardWrite?
    requires first.command.session == second.command.session
    requires first.command.expectedRevision == second.command.expectedRevision
    requires Commits(db, first, env)
    ensures var session, after := first.command.session, After(db, Call(first, env));
            var later := Run(after, between);
            Commits(later, second, env')
            <==> && (1 + Advances(after, between, session)) % REVISIONS == 0
                 && second.sessionParses && second.operation !in later.operations
                 && Storable(later.items, session, Normalized(second.command.board, env'.keys))
  {
    var session, after := first.command.session, After(db, Call(first, env));
    var later := Run(after, between);
    RevisionFoundLater(db, first, env, between);
    AdvancedIsModular(first.command.expectedRevision, 1 + Advances(after, between, session));
    if second.sessionParses && second.operation !in later.operations {
      BoardWriteCommitsIff(later, second, env');
    }
  }

  lemma CommitExpectsCurrent(db: Database, request: Request, env: Env)
    requires Sound(db) && GoodEnv(request.command, env) && request.command.BoardWrite?
    ensures Commits(db, request, env) ==>
              request.command.expectedRevision == CurrentRevision(db, request.command.session)
  {
  }

  /** Short of 2^63 transactions the revision a board write expected is never current again. */
  lemma ExpectationIsPast(db: Database, first: Request, env: Env, between: seq<Action>)
    requires Sound(db) && GoodEnv(first.command, env) && AllGood(between)
    requires first.command.BoardWrite? && Commits(db, first, env) && 1 + Transactions(between) < REVISIONS
    ensures CurrentRevision(Run(After(db, Call(first, env)), between), first.command.session)
         != first.command.expectedRevision
  {
    var session, after := first.command.session, After(db, Call(first, env));
    RevisionFoundLater(db, first, env, between);
    AdvancedIsNew(first.command.expectedRevision, 1 + Advances(after, between, session));
  }

  /** So of two board writes that expect the same revision one is refused. */
  lemma SameExpectationNeverCommitsTwice(db: Database, first: Request, env: Env, between: seq<Action>,
                                         second: Request, env': Env)
    requires Sound(db) && GoodEnv(first.command, env) && GoodEnv(second.command, env') && AllGood(between)
    requires first.command.BoardWrite? && second.command.BoardWrite?
    requires first.command.session == second.command.session
    requires first.command.expectedRevision == second.command.expectedRevision
    requires Commits(db, first, env) && 1 + Transactions(between) < REVISIONS
    ensures !Commits(Run(After(db, Call(first, env)), between), second, env')
  {
    ExpectationIsPast(db, first, env, between);
    CommitExpectsCurrent(Run(After(db, Call(first, env)), between), second, env');
  }

  // ---------------------------------------------------------------------------
  // Imports
  // ---------------------------------------------------------------------------

  function Taken(db: Database, files: seq<LegacyFile>, from: nat, path: string): nat
    requires from <= |files| && forall i :: 0 <= i < |files| ==> GoodFile(files[i])
    decreases |files| - from
  {
    if from == |files| then 0
    else
      Once(files[from].path == path && Takes(db, files[from]))
      + if Imported(db, files[from]).Ok? then Taken(Imported(db, files[from]).value, files, from + 1, path) else 0
  }

  /** How often the file at `path` is imported in a run. */
  ghost function Imports(db: Database, actions: seq<Action>, path: string): nat
    requires Sound(db) && AllGood(actions)
    decreases actions
  {
    if actions == [] then 0
    else (if actions[0].Open? then Taken(db, actions[0].files, 0, path) else 0)
         + Imports(After(db, actions[0]), actions[1..], path)
  }

  predicate Recorded(db: Database, path: string, bytes: string) {
    path in db.imports && db.imports[path] == Digest(bytes)
  }

  /** Whenever the run finds a file at `path`, it has these bytes. */
  ghost predicate Unchanged(actions: seq<Action>, path: string, bytes: string) {
    forall i :: 0 <= i < |actions| && actions[i].Open? ==> FilesUnchanged(actions[i].files, path, bytes)
  }

  ghost predicate FilesUnchanged(files: seq<LegacyFile>, path: string, bytes: string) {
    forall i :: 0 <= i < |files| && files[i].path == path ==> files[i].bytes == bytes
  }

  lemma {:induction false} OpenedTakesOnce(db: Database, files: seq<LegacyFile>, from: nat, path: string, bytes: string)
    requires Sound(db) && GoodFiles(files) && from <= |files| && FilesUnchanged(files, path, bytes)
    ensures Taken(db, files, from, path) + Once(Recorded(db, path, bytes))
         == Once(Recorded(ImportedAll(db, files, from).0, path, bytes))
    decreases |files| - from
  {
    if from < |files| && Imported(db, files[from]).Ok? {
      ImportedKeepsOthers(db, files[from]);
      OpenedTakesOnce(Imported(db, files[from]).value, files, from + 1, path, bytes);
    }
  }

  /** A file whose bytes do not change is imported at most once, however often the plane opens. */
  lemma {:induction false} ImportedAtMostOnce(db: Database, actions: seq<Action>, path: string, bytes: string)
    requires Sound(db) && AllGood(actions) && Unchanged(actions, path, bytes)
    ensures Imports(db, actions, path) + Once(Recorded(db, path, bytes))
         == Once(Recorded(Run(db, actions), path, bytes)) <= 1
    decreases actions
  {
    if actions != [] {
      match actions[0] {
        case Call(request, env) => ChangesIffCommits(db, request, env);
        case Open(files) => OpenedTakesOnce(db, files, 0, path, bytes);
      }
      ImportedAtMostOnce(After(db, actions[0]), actions[1..], path, bytes);
    }
  }

  lemma {:induction false} OpenedKeepsRecord(db: Database, files: seq<LegacyFile>, from: nat, path: string)
    requires Sound(db) && GoodFiles(files) && from <= |files|
    requires forall i :: from <= i < |files| ==> files[i].path != path
    ensures path in ImportedAll(db, files, from).0.imports <==> path in db.imports
    ensures path in db.imports ==> ImportedAll(db, files, from).0.imports[path] == db.imports[path]
    decreases |files| - from
  {
    if from < |files| && Imported(db, files[from]).Ok? {
      ImportedKeepsOthers(db, files[from]);
      OpenedKeepsRecord(Imported(db, files[from]).value, files, from + 1, path);
    }
  }

  /** An open that meets no refusal has imported every readable file, now or before. */
  lemma {:induction false} OpenedRemembersAll(db: Database, files: seq<LegacyFile>, from: nat)
    requires Sound(db) && GoodFiles(files) && from <= |files|
    requires forall i, j :: from <= i < j < |files| ==> files[i].path != files[j].path
    ensures var (after, failure) := ImportedAll(db, files, from);
            failure.None? ==>
              forall i :: from <= i < |files| && files[i].board.Some? ==> Recorded(after, files[i].path, files[i].bytes)
    decreases |files| - from
  {
    if from < |files| && Imported(db, files[from]).Ok? {
      ImportedKeepsOthers(db, files[from]);
      OpenedKeepsRecord(Imported(db, files[from]).value, files, from + 1, files[from].path);
      OpenedRemembersAll(Imported(db, files[from]).value, files, from + 1);
    }
  }

  /** An open that is refused has imported the files before the refused one, and nothing of the rest. */
  lemma {:induction false} OpenedStopsAtRefusal(db: Database, files: seq<LegacyFile>, from: nat) returns (k: nat)
    requires Sound(db) && GoodFiles(files) && from <= |files| && ImportedAll(db, files, from).1.Some?
    ensures from <= k < |files|
    ensures var (after, failure) := ImportedAll(db, files, from);
            ImportedAll(db, files[..k], from) == (after, None) && Imported(after, files[k]) == Err(failure.value)
    decreases |files| - from
  {
    if Imported(db, files[from]).Err? {
      k := from;
    } else {
      ImportedIsSound(db, files[from]);
      k := OpenedStopsAtRefusal(Imported(db, files[from]).value, files, from + 1);
      assert files[..k][from] == files[from];
    }
  }

  /** Every file found for `session` is the one at `path` with these bytes. */
  ghost predicate OnlySource(files: seq<LegacyFile>, session: Id, path: string, bytes: string) {
    forall i :: 0 <= i < |files| && files[i].session == session ==> files[i].path == path && files[i].bytes == bytes
  }

  lemma {:induction false} OpenedLeavesSession(db: Database, files: seq<LegacyFile>, from: nat, session: Id,
                                               path: string, bytes: string)
    requires Sound(db) && GoodFiles(files) && from <= |files|
    requires OnlySource(files, session, path, bytes) && FilesUnchanged(files, path, bytes)
    requires TasksOf(db.items, session) != [] || Recorded(db, path, bytes)
    ensures Sound(ImportedAll(db, files, from).0)
    ensures ViewOf(ImportedAll(db, files, from).0, session) == ViewOf(db, session)
    ensures Recorded(db, path, bytes) ==> Recorded(ImportedAll(db, files, from).0, path, bytes)
    decreases |files| - from
  {
    if from < |files| && Imported(db, files[from]).Ok? {
      var next := Imported(db, files[from]).value;
      ImportedKeepsOthers(db, files[from]);
      TasksAreWorkItems(db, session);
      assert ViewOf(next, session) == ViewOf(db, session);
      OpenedLeavesSession(next, files, from + 1, session, path, bytes);
    }
  }

  lemma TasksAreWorkItems(db: Database, session: Id)
    requires Sound(db)
    ensures TasksOf(db.items, session) != [] <==> HasWorkItems(db, session)
  {
    if TasksOf(db.items, session) != [] {
      assert HasRow(db.items, session, Listing(db.items, session)[0]);
    }
  }

  /** No call of the run commits anything for `session`. */
  ghost predicate LeftAlone(actions: seq<Action>, session: Id, path: string, bytes: string) {
    forall i :: 0 <= i < |actions| ==>
      match actions[i]
      case Call(request, _) => request.command.session != session || !request.command.Mutates()
      case Open(files) => OnlySource(files, session, path, bytes) && FilesUnchanged(files, path, bytes)
  }

  /** Once its file is imported, a session changes by its own commands only. */
  lemma {:induction false} ImportedSessionIsNeverRestored(db: Database, actions: seq<Action>, session: Id,
                                                          path: string, bytes: string)
    requires Sound(db) && AllGood(actions) && LeftAlone(actions, session, path, bytes)
    requires Recorded(db, path, bytes)
    ensures ViewOf(Run(db, actions), session) == ViewOf(db, session)
    decreases actions
  {
    if actions != [] {
      match actions[0] {
        case Call(request, env) =>
          ChangesIffCommits(db, request, env);
          if Commits(db, request, env) {
            CommitRaisesOwnRevision(db, request, env);
          }
        case Open(files) =>
          OpenedLeavesSession(db, files, 0, session, path, bytes);
      }
      ImportedSessionIsNeverRestored(After(db, actions[0]), actions[1..], session, path, bytes);
    }
  }

  /** The command may give `session` a task with this id. */
  predicate Brings(command: Command, env: Env, id: Id) {
    || (command.TaskCreate? && env.uuid == id)
    || (command.BoardWrite? && exists key :: key in command.board.tasks && command.board.tasks[key].id == id)
  }

  /** No call of the run brings the task to `session`, and every file found for it is the imported one. */
  ghost predicate NeverBrought(actions: seq<Action>, session: Id, id: Id, path: string, bytes: string) {
    forall i :: 0 <= i < |actions| ==>
      match actions[i]
      case Call(request, env) => request.command.session != session || !Brings(request.command, env, id)
      case Open(files) => OnlySource(files, session, path, bytes) && FilesUnchanged(files, path, bytes)
  }

  ghost predicate Lists(tasks: seq<Task>, id: Id) {
    exists i :: 0 <= i < |tasks| && tasks[i].id == id
  }

  lemma ListedIsRow(db: Database, session: Id, id: Id)
    requires Sound(db)
    ensures Lists(TasksOf(db.items, session), id) <==> HasRow(db.items, session, id)
  {
    IndexIsPosition(db.items, session, id);
    var i := IndexOf(TasksOf(db.items, session), id);
    assert Lists(TasksOf(db.items, session), id) <==> i < |TasksOf(db.items, session)|;
  }

  /** Only creating a task or writing a whole board brings a task to a list. */
  lemma CommandBrings(tasks: seq<Task>, command: Command, env: Env, id: Id)
    requires command.Mutates() && GoodEnv(command, env) && Lists(TasksAfter(tasks, command, env), id)
    ensures Lists(tasks, id) || Brings(command, env, id)
  {
    var after := TasksAfter(tasks, command, env);
    var i :| 0 <= i < |after| && after[i].id == id;
    match command
    case BoardWrite(_, board, _) =>
      var normalized := Normalized(board, env.keys);
      if IsComplete(normalized) {
        assert normalized.taskOrder[i] in normalized.taskOrder;
        assert board.tasks[normalized.taskOrder[i]].id == id;
      }
    case TaskCreate(_, _, _) =>
      if i < |tasks| {
        assert tasks[i].id == id;
      }
    case TaskDelete(_, gone) =>
      var at := IndexOf(tasks, gone);
      assert tasks[if i < at || at == |tasks| then i else i + 1].id == id;
    case BriefSet(_, _, _) =>
    case TaskUpdate(_, taskId, _) => EditBrings(tasks, command, taskId, env, i);
    case TaskDone(_, taskId, _, _) => EditBrings(tasks, command, taskId, env, i);
    case TaskNote(_, taskId, _) => EditBrings(tasks, command, taskId, env, i);
  }

  lemma EditBrings(tasks: seq<Task>, command: Command, taskId: Id, env: Env, i: nat)
    requires Edits(command) && i < |TasksAfterEdit(tasks, command, taskId, env)|
    ensures i < |tasks| && TasksAfterEdit(tasks, command, taskId, env)[i].id == tasks[i].id
  {
    var at := IndexOf(tasks, taskId);
    if at < |tasks| && Edited(tasks[at], command, env.now).Ok? {
      EditKeepsIdentity(tasks[at], command, env.now);
    }
  }

  lemma CallBrings(db: Database, request: Request, env: Env, session: Id, id: Id)
    requires Sound(db) && GoodEnv(request.command, env)
    requires request.command.session != session || !Brings(request.command, env, id)
    requires !HasRow(db.items, session, id)
    ensures var after := Executed(db, request, env).db;
            Sound(after) && !HasRow(after.items, session, id) && after.imports == db.imports
  {
    ExecutedIsSound(db, request, env);
    ChangesIffCommits(db, request, env);
    if Commits(db, request, env) {
      var change := Mutated(db, request.command, env).value;
      MutatedRefines(db, request.command, env);
      ListedIsRow(db, session, id);
      ListedIsRow(change.db, session, id);
      if session == request.command.session && HasRow(change.db.items, session, id) {
        CommandBrings(TasksOf(db.items, session), request.command, env, id);
      }
      if session != request.command.session {
        assert ViewOf(change.db, session) == ViewOf(db, session);
      }
    }
  }

  /**
   Once its file is imported, a task gone from a session stays gone, whatever else is done
   to the session and however often the plane opens, until a call brings it back.
   */
  lemma {:induction false} DeletedTaskIsNeverRestored(db: Database, actions: seq<Action>, session: Id, id: Id,
                                                      path: string, bytes: string)
    requires Sound(db) && AllGood(actions) && NeverBrought(actions, session, id, path, bytes)
    requires Recorded(db, path, bytes) && !HasRow(db.items, session, id)
    ensures !HasRow(Run(db, actions).items, session, id)
    decreases actions
  {
    if actions != [] {
      match actions[0] {
        case Call(request, env) =>
          CallBrings(db, request, env, session, id);
        case Open(files) =>
          OpenedLeavesSession(db, files, 0, session, path, bytes);
          ListedIsRow(db, session, id);
          ListedIsRow(After(db, actions[0]), session, id);
          assert ViewOf(After(db, actions[0]), session) == ViewOf(db, session);
      }
      DeletedTaskIsNeverRestored(After(db, actions[0]), actions[1..], session, id, path, bytes);
    }
  }
}
