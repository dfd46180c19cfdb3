/**
 What a whole-board write stores is what the next read returns.
 */
module BoardRoundTrip {
  import opened Outcomes
  import opened Text
  import opened WorkItems
  import opened WorkItemTable
  import opened Revisions
  import opened ControlModel
  import opened BoardRefinement

  /** Tasks are filed under their own ids, as clients do. */
  ghost predicate KeyedById(tasks: map<Id, Task>) {
    forall key :: key in tasks ==> tasks[key].id == key
  }

  // ---------------------------------------------------------------------------
  // Normalisation
  // ---------------------------------------------------------------------------

  lemma {:induction false} RetainedIsExact(order: seq<Id>, tasks: map<Id, Task>)
    ensures forall id :: id in Retained(order, tasks) <==> id in order && id in tasks
    ensures (forall id :: id in order ==> id in tasks) ==> Retained(order, tasks) == order
    ensures |Retained(order, tasks)| <= |order|
  {
    if order != [] {
      RetainedIsExact(order[1..], tasks);
      assert order == [order[0]] + order[1..];
    }
  }

  /** The listed ids are picked one by one, in their order. */
  lemma {:induction false} RetainedDistributes(a: seq<Id>, b: seq<Id>, tasks: map<Id, Task>)
    ensures Retained(a + b, tasks) == Retained(a, tasks) + Retained(b, tasks)
    ensures |a| == 1 ==> Retained(a, tasks) == if a[0] in tasks then [a[0]] else []
  {
    if a == [] {
      assert a + b == b;
    } else {
      var first := if a[0] in tasks then [a[0]] else [];
      assert (a + b)[0] == a[0] && (a + b)[1..] == a[1..] + b;
      RetainedDistributes(a[1..], b, tasks);
      var x, y := Retained(a[1..], tasks), Retained(b, tasks);
      assert Retained(a + b, tasks) == first + (x + y) && first + (x + y) == (first + x) + y;
    }
  }

  lemma {:induction false} UnlistedIsExact(keys: seq<Id>, tasks: map<Id, Task>, listed: seq<Id>)
    requires KeyedById(tasks) && forall key :: key in keys ==> key in tasks
    requires forall i, j :: 0 <= i < j < |keys| ==> keys[i] != keys[j]
    ensures var unlisted := Unlisted(keys, tasks, listed);
            && (forall id :: id in unlisted <==> id in keys && id !in listed)
            && (forall i, j :: 0 <= i < j < |unlisted| ==> unlisted[i] != unlisted[j])
  {
    if keys != [] {
      var rest := Unlisted(keys[1..], tasks, listed);
      UnlistedIsExact(keys[1..], tasks, listed);
      assert keys == [keys[0]] + keys[1..];
      forall i | 0 <= i < |keys[1..]| ensures keys[1..][i] != keys[0] {
        assert keys[1..][i] == keys[i + 1];
      }
    }
  }

  ghost predicate OldestFirst(ids: seq<Id>, tasks: map<Id, Task>) {
    forall i, j :: 0 <= i < j < |ids| ==> CreationKey(ids[i], tasks) <= CreationKey(ids[j], tasks)
  }

  lemma {:induction false} InsertIsExact(id: Id, ids: seq<Id>, tasks: map<Id, Task>)
    ensures multiset(InsertByCreation(id, ids, tasks)) == multiset{id} + multiset(ids)
  {
    if ids != [] {
      assert ids == [ids[0]] + ids[1..];
      InsertIsExact(id, ids[1..], tasks);
    }
  }

  ghost predicate NotOlder(ids: seq<Id>, tasks: map<Id, Task>, key: u64) {
    forall i :: 0 <= i < |ids| ==> key <= CreationKey(ids[i], tasks)
  }

  lemma {:induction false} InsertNotOlder(id: Id, ids: seq<Id>, tasks: map<Id, Task>, key: u64)
    requires NotOlder(ids, tasks, key) && key <= CreationKey(id, tasks)
    ensures NotOlder(InsertByCreation(id, ids, tasks), tasks, key)
  {
    if ids != [] {
      InsertNotOlder(id, ids[1..], tasks, key);
    }
  }

  lemma {:induction false} InsertKeepsOrder(id: Id, ids: seq<Id>, tasks: map<Id, Task>)
    requires OldestFirst(ids, tasks)
    ensures OldestFirst(InsertByCreation(id, ids, tasks), tasks)
  {
    if ids != [] && CreationKey(id, tasks) > CreationKey(ids[0], tasks) {
      InsertKeepsOrder(id, ids[1..], tasks);
      InsertNotOlder(id, ids[1..], tasks, CreationKey(ids[0], tasks));
    }
  }

  /** Sorting permutes and puts older tasks first. */
  lemma {:induction false} SortIsExact(ids: seq<Id>, tasks: map<Id, Task>)
    ensures OldestFirst(SortedByCreation(ids, tasks), tasks)
    ensures multiset(SortedByCreation(ids, tasks)) == multiset(ids)
  {
    if ids != [] {
      SortIsExact(ids[1..], tasks);
      InsertKeepsOrder(ids[0], SortedByCreation(ids[1..], tasks), tasks);
      InsertIsExact(ids[0], SortedByCreation(ids[1..], tasks), tasks);
      assert ids == [ids[0]] + ids[1..];
    }
  }

  /**
   The listed ids come first and keep their order; the ids left out follow, oldest first;
   together they are all ids, and none of those added occurs twice.
   */
  lemma NormalizedIsExact(board: BoardDoc, keys: seq<Id>)
    requires Enumerates(keys, board.tasks) && KeyedById(board.tasks)
    ensures var listed, order := Retained(board.taskOrder, board.tasks), Normalized(board, keys).taskOrder;
            && |listed| <= |order| && order[..|listed|] == listed
            && OldestFirst(order[|listed|..], board.tasks)
            && (forall id :: id in order <==> id in board.tasks)
            && (forall id :: id in order[|listed|..] <==> id in board.tasks && id !in board.taskOrder)
            && (forall id :: id in board.tasks && id !in listed ==> multiset(order)[id] == 1)
  {
    var listed := Retained(board.taskOrder, board.tasks);
    var unlisted := Unlisted(keys, board.tasks, listed);
    var added := SortedByCreation(unlisted, board.tasks);
    RetainedIsExact(board.taskOrder, board.tasks);
    UnlistedIsExact(keys, board.tasks, listed);
    SortIsExact(unlisted, board.tasks);
    forall id ensures id in added <==> id in unlisted {
      assert id in multiset(added) <==> id in multiset(unlisted);
    }
    forall id | id in unlisted ensures multiset(unlisted)[id] == 1 {
      OccursOnce(unlisted, id);
    }
    assert multiset(listed + added) == multiset(listed) + multiset(unlisted);
    assert (listed + added)[|listed|..] == added && (listed + added)[..|listed|] == listed;
  }

  /** The ids that normalising adds behind the listed ones. */
  function Added(board: BoardDoc, keys: seq<Id>): seq<Id>
    requires Enumerates(keys, board.tasks)
  {
    var listed := Retained(board.taskOrder, board.tasks);
    Normalized(board, keys).taskOrder[|listed|..]
  }

  /** Of two of them the first is of the task created first. */
  lemma AddedOldestFirst(board: BoardDoc, keys: seq<Id>, i: nat, j: nat)
    requires Enumerates(keys, board.tasks) && KeyedById(board.tasks) && i < j < |Added(board, keys)|
    ensures var added := Added(board, keys);
            && added[i] in board.tasks && added[j] in board.tasks
            && board.tasks[added[i]].createdAt <= board.tasks[added[j]].createdAt
  {
    NormalizedIsExact(board, keys);
    OldestFirstAt(Added(board, keys), board.tasks, i, j);
  }

  lemma OldestFirstAt(ids: seq<Id>, tasks: map<Id, Task>, i: nat, j: nat)
    requires OldestFirst(ids, tasks) && i < j < |ids| && forall id :: id in ids ==> id in tasks
    ensures ids[i] in tasks && ids[j] in tasks && tasks[ids[i]].createdAt <= tasks[ids[j]].createdAt
  {
    assert CreationKey(ids[i], tasks) <= CreationKey(ids[j], tasks);
  }

  lemma NormalizedCovers(board: BoardDoc, keys: seq<Id>)
    requires Enumerates(keys, board.tasks) && KeyedById(board.tasks)
    ensures forall id :: id in Normalized(board, keys).taskOrder <==> id in board.tasks
  {
    NormalizedIsExact(board, keys);
  }

  lemma {:induction false} OccursOnce(ids: seq<Id>, id: Id)
    requires id in ids && forall i, j :: 0 <= i < j < |ids| ==> ids[i] != ids[j]
    ensures multiset(ids)[id] == 1
  {
    assert ids == [ids[0]] + ids[1..];
    if id in ids[1..] {
      OccursOnce(ids[1..], id);
    }
  }

  lemma {:induction false} NothingUnlisted(keys: seq<Id>, tasks: map<Id, Task>, listed: seq<Id>)
    requires forall key :: key in keys ==> key in tasks && tasks[key].id in listed
    ensures Unlisted(keys, tasks, listed) == []
  {
    if keys != [] {
      NothingUnlisted(keys[1..], tasks, listed);
    }
  }

  /** Every task's id is one of the keys, though perhaps of another task. */
  ghost predicate IdsAreKeys(tasks: map<Id, Task>) {
    forall key :: key in tasks ==> tasks[key].id in tasks
  }

  ghost predicate HasTask(keys: seq<Id>, tasks: map<Id, Task>, id: Id)
    requires forall key :: key in keys ==> key in tasks
  {
    exists i :: 0 <= i < |keys| && tasks[keys[i]].id == id
  }

  lemma {:induction false} UnlistedAreIds(keys: seq<Id>, tasks: map<Id, Task>, listed: seq<Id>, id: Id)
    requires forall key :: key in keys ==> key in tasks
    ensures id in Unlisted(keys, tasks, listed) <==> id !in listed && HasTask(keys, tasks, id)
  {
    if keys != [] {
      UnlistedAreIds(keys[1..], tasks, listed, id);
      assert forall i :: 0 <= i < |keys[1..]| ==> keys[1..][i] == keys[i + 1];
      assert HasTask(keys, tasks, id) <==> tasks[keys[0]].id == id || HasTask(keys[1..], tasks, id);
    }
  }

  /** What a normalised order names: the listed keys, and the ids of all tasks. */
  lemma NormalizedNames(board: BoardDoc, keys: seq<Id>, id: Id)
    requires Enumerates(keys, board.tasks)
    ensures id in Normalized(board, keys).taskOrder
            <==> (id in board.taskOrder && id in board.tasks) || HasTask(keys, board.tasks, id)
  {
    var listed := Retained(board.taskOrder, board.tasks);
    var unlisted := Unlisted(keys, board.tasks, listed);
    RetainedIsExact(board.taskOrder, board.tasks);
    UnlistedAreIds(keys, board.tasks, listed, id);
    SortIsExact(unlisted, board.tasks);
    assert id in multiset(SortedByCreation(unlisted, board.tasks)) <==> id in multiset(unlisted);
  }

  /** A normalised order names held tasks only, exactly when every task's id is a key. */
  lemma NormalizedIsCompleteIff(board: BoardDoc, keys: seq<Id>)
    requires Enumerates(keys, board.tasks)
    ensures IsComplete(Normalized(board, keys)) <==> IdsAreKeys(board.tasks)
  {
    if IsComplete(Normalized(board, keys)) {
      forall key | key in board.tasks ensures board.tasks[key].id in board.tasks {
        NormalizedNamesTask(board, keys, key);
      }
    } else {
      var id :| id in Normalized(board, keys).taskOrder && id !in board.tasks;
      NormalizedNames(board, keys, id);
    }
  }

  lemma NormalizedNamesTask(board: BoardDoc, keys: seq<Id>, key: Id)
    requires Enumerates(keys, board.tasks) && key in board.tasks
    ensures board.tasks[key].id in Normalized(board, keys).taskOrder
  {
    assert key in keys;
    NormalizedNames(board, keys, board.tasks[key].id);
  }

  /** A board with a task whose id is no key is therefore never stored, whatever the database. */
  lemma ForeignIdsAreRefused(db: Database, session: Id, board: BoardDoc, expected: Option<u64>, keys: seq<Id>)
    requires Sound(db) && Enumerates(keys, board.tasks) && !IdsAreKeys(board.tasks)
    ensures Replaced(db, session, Normalized(board, keys), expected).Err?
  {
    NormalizedIsCompleteIff(board, keys);
    ReplacedRefines(db, session, Normalized(board, keys), expected);
  }

  /** For instance, a single task filed under a key that is not its id. */
  lemma ForeignKeysBreakNormalization(task: Task)
    requires task.id == "b"
    ensures !IsComplete(Normalized(BoardDoc(0, map["a" := task], ["a"], None), ["a"]))
  {
    var board := BoardDoc(0, map["a" := task], ["a"], None);
    assert "a" in board.tasks && "b" !in board.tasks;
    NormalizedIsCompleteIff(board, ["a"]);
  }

  lemma NormalizedIsFixed(board: BoardDoc, keys: seq<Id>)
    requires Enumerates(keys, board.tasks) && IsComplete(board)
    requires forall key :: key in board.tasks ==> board.tasks[key].id in board.taskOrder
    ensures Normalized(board, keys) == board
  {
    RetainedIsExact(board.taskOrder, board.tasks);
    NothingUnlisted(keys, board.tasks, board.taskOrder);
    assert board.taskOrder + [] == board.taskOrder;
  }

  /** Normalising again, under any walk of the hash map, changes nothing. */
  lemma NormalizeTwice(board: BoardDoc, keys: seq<Id>, keys': seq<Id>)
    requires Enumerates(keys, board.tasks) && Enumerates(keys', board.tasks) && IdsAreKeys(board.tasks)
    ensures Normalized(Normalized(board, keys), keys') == Normalized(board, keys)
  {
    NormalizedIsCompleteIff(board, keys);
    forall key | key in board.tasks ensures board.tasks[key].id in Normalized(board, keys).taskOrder {
      NormalizedNamesTask(board, keys, key);
    }
    NormalizedIsFixed(Normalized(board, keys), keys');
  }

  // ---------------------------------------------------------------------------
  // Write, then read
  // ---------------------------------------------------------------------------

  /** A committed order names no task twice. */
  lemma StorableHasNoDuplicates(items: Items, session: Id, board: BoardDoc)
    requires Storable(items, session, board) && KeyedById(board.tasks)
    ensures forall i, j :: 0 <= i < j < |board.taskOrder| ==> board.taskOrder[i] != board.taskOrder[j]
  {
  }

  /** Reading a session gives its listing and the tasks under their ids. */
  lemma BoardShowsView(db: Database, session: Id)
    requires Sound(db)
    ensures var board, view := BoardOf(db, session), ViewOf(db, session);
            && board.revision == view.revision && board.brief == view.brief
            && |board.taskOrder| == |view.tasks| && IsComplete(board) && KeyedById(board.tasks)
            && (forall i :: 0 <= i < |view.tasks| ==> board.taskOrder[i] == view.tasks[i].id)
            && Chosen(board) == view.tasks
  {
  }

  /** Reading back a session that holds exactly the tasks a complete board names. */
  lemma ReadsBack(db: Database, session: Id, board: BoardDoc)
    requires Sound(db) && IsComplete(board) && KeyedById(board.tasks)
    requires ViewOf(db, session).tasks == Chosen(board)
    requires forall id :: id in board.tasks ==> id in board.taskOrder
    ensures BoardOf(db, session).taskOrder == board.taskOrder && BoardOf(db, session).tasks == board.tasks
  {
    var read, order, chosen := BoardOf(db, session), board.taskOrder, Chosen(board);
    BoardShowsView(db, session);
    forall i | 0 <= i < |order| ensures read.taskOrder[i] == order[i] && read.tasks[order[i]] == board.tasks[order[i]] {
      assert order[i] in order && chosen[i] == board.tasks[order[i]];
      assert read.taskOrder[i] in read.taskOrder && Chosen(read)[i] == read.tasks[read.taskOrder[i]];
    }
    assert read.taskOrder == order;
    forall id | id in board.tasks ensures read.tasks[id] == board.tasks[id] {
      var i :| 0 <= i < |order| && order[i] == id;
    }
    assert read.tasks.Keys == board.tasks.Keys;
  }

  /** A committed replacement is read back as the board it was given. */
  lemma ReplaceThenRead(db: Database, session: Id, board: BoardDoc, expected: u64)
    requires Sound(db) && KeyedById(board.tasks)
    requires forall id :: id in board.tasks ==> id in board.taskOrder
    requires Replaced(db, session, board, Some(expected)).Ok?
    ensures var after := Replaced(db, session, board, Some(expected)).value;
            && Sound(after)
            && BoardOf(after, session) == BoardDoc(RevisionAfter(expected), board.tasks, board.taskOrder, board.brief)
            && forall id :: id in board.tasks ==> multiset(board.taskOrder)[id] == 1
  {
    ReplacedRefines(db, session, board, Some(expected));
    ReadsBack(Replaced(db, session, board, Some(expected)).value, session, board);
    StorableHasNoDuplicates(db.items, session, board);
    forall id | id in board.tasks ensures multiset(board.taskOrder)[id] == 1 {
      OccursOnce(board.taskOrder, id);
    }
  }

  /**
   A committed write of a board filed by id is read back at the next revision with the
   same tasks and brief, in an order that lists every task exactly once.  By
   `NormalizedIsExact` those the client listed come first, in the client's order, and
   then the rest, oldest first.
   */
  lemma WriteThenRead(db: Database, session: Id, board: BoardDoc, expected: u64, env: Env)
    requires Sound(db) && Enumerates(env.keys, board.tasks) && KeyedById(board.tasks)
    requires Mutated(db, BoardWrite(session, board, expected), env).Ok?
    ensures var change := Mutated(db, BoardWrite(session, board, expected), env).value;
            && Sound(change.db)
            && BoardOf(change.db, session)
               == BoardDoc(RevisionAfter(expected), board.tasks, Normalized(board, env.keys).taskOrder, board.brief)
            && forall id :: id in board.tasks ==> multiset(Normalized(board, env.keys).taskOrder)[id] == 1
  {
    NormalizedCovers(board, env.keys);
    ReplaceThenRead(db, session, Normalized(board, env.keys), expected);
  }

  /** The same over the interface: a write that commits, then a read. */
  lemma ReadAfterWrite(db: Database, write: Request, env: Env, read: Request, env': Env)
    requires Sound(db) && write.command.BoardWrite? && GoodEnv(write.command, env) && Commits(db, write, env)
    requires KeyedById(write.command.board.tasks)
    requires read.command == BoardRead(write.command.session) && read.sessionParses
    requires read.operation !in db.operations && read.operation != write.operation
    ensures var board, after := write.command.board, Executed(db, write, env).db;
            && Sound(after)
            && Executed(after, read, env') == Outcome(after, Ok(Board(
                 BoardDoc(RevisionAfter(write.command.expectedRevision), board.tasks,
                          Normalized(board, env.keys).taskOrder, board.brief))))
  {
    var command := write.command;
    var change := Mutated(db, command, env).value;
    WriteThenRead(db, command.session, command.board, command.expectedRevision, env);
    var after := Logged(change.db, write, change.response);
    assert Sound(after) && BoardOf(after, command.session) == BoardOf(change.db, command.session);
  }

  // ---------------------------------------------------------------------------
  // Create, read and delete
  // ---------------------------------------------------------------------------

  /** A new row at the end is read back last, and the other tasks as before. */
  lemma AppendedIsRead(db: Database, after: Database, task: Task)
    requires Sound(db) && Sound(after) && task.id !in db.items
    requires after.items == db.items[task.id := RowOf(task, |Listing(db.items, task.sessionId)|)]
    ensures var board, read := BoardOf(db, task.sessionId), BoardOf(after, task.sessionId);
            && read.taskOrder == board.taskOrder + [task.id]
            && task.id in read.tasks && read.tasks[task.id] == task
            && (forall id :: id in board.tasks ==> id in read.tasks && read.tasks[id] == board.tasks[id])
  {
    var ids := Listing(db.items, task.sessionId);
    InsertAtEnd(db.items, task);
    var before, read := BoardOf(db, task.sessionId), BoardOf(after, task.sessionId);
    assert read.taskOrder == ids + [task.id];
    forall id | id in before.tasks ensures id in read.tasks && read.tasks[id] == before.tasks[id] {
      assert id in ids && id in db.items && id != task.id;
    }
    assert read.taskOrder[|ids|] == task.id && task.id in read.taskOrder;
  }

  /** Deleting a task just created leaves the tasks as they were, two revisions later. */
  lemma DeleteUndoesCreate(db: Database, create: Command, env: Env, env': Env)
    requires Sound(db) && create.TaskCreate? && Mutated(db, create, env).Ok?
    ensures var created := Mutated(db, create, env).value.db;
            var delete := TaskDelete(create.session, env.uuid);
            && Sound(created) && Mutated(created, delete, env').Ok?
            && var after := Mutated(created, delete, env').value.db;
               && Sound(after)
               && ViewOf(after, create.session).tasks == ViewOf(db, create.session).tasks
               && ViewOf(after, create.session).revision
                  == RevisionAfter(RevisionAfter(ViewOf(db, create.session).revision))
  {
    var session, created := create.session, Mutated(db, create, env).value.db;
    var task := NewTask(session, create.title, create.description, env);
    var delete, tasks := TaskDelete(session, env.uuid), TasksOf(db.items, session);
    MutatedRefines(db, create, env);
    assert HasRow(created.items, session, env.uuid);
    MutatedRefines(created, delete, env');
    IndexIsPosition(db.items, session, env.uuid);
    AppendedIsLast(tasks, task);
    assert (tasks + [task])[..|tasks|] == tasks && (tasks + [task])[|tasks| + 1..] == [];
  }

  lemma {:induction false} AppendedIsLast(tasks: seq<Task>, task: Task)
    requires IndexOf(tasks, task.id) == |tasks|
    ensures IndexOf(tasks + [task], task.id) == |tasks|
  {
    if tasks != [] {
      assert (tasks + [task])[1..] == tasks[1..] + [task];
      AppendedIsLast(tasks[1..], task);
    }
  }
}
