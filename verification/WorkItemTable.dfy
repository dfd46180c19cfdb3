/**
 The `work_items` table: rows keyed by task id, each with the position of the task in its
 session's board and with columns that repeat fields of the task stored in the row.
 */
module WorkItemTable {
  import opened WorkItems

  datatype Row = Row(session: Id, position: int, title: string, description: string, status: Status,
                     task: Task, createdAt: i64, updatedAt: i64)

  type Items = map<Id, Row>

  function RowOf(task: Task, position: int): Row {
    Row(task.sessionId, position, task.title, task.description, task.status, task,
        AsI64(task.createdAt), AsI64(task.updatedAt))
  }

  /** Every column of every row agrees with the task the row stores. */
  ghost predicate IndexAgrees(items: Items) {
    forall id :: id in items ==> items[id] == RowOf(items[id].task, items[id].position) && items[id].task.id == id
  }

  // ---------------------------------------------------------------------------
  // Listings
  // ---------------------------------------------------------------------------

  /** `ids` lists the rows of `session` in order: row `ids[i]` and no other has position `i`. */
  ghost predicate IsListing(items: Items, session: Id, ids: seq<Id>) {
    && (forall i :: 0 <= i < |ids| ==>
          ids[i] in items && items[ids[i]].session == session && items[ids[i]].position == i)
    && (forall id :: id in items && items[id].session == session ==>
          0 <= items[id].position < |ids| && ids[items[id].position] == id)
  }

  /** The positions of a session's rows are exactly 0, 1, ..., n-1, each once. */
  ghost predicate Dense(items: Items, session: Id) {
    exists ids :: IsListing(items, session, ids)
  }

  ghost predicate AllDense(items: Items) {
    forall session :: Dense(items, session)
  }

  ghost function Listing(items: Items, session: Id): (ids: seq<Id>)
    requires Dense(items, session)
    ensures IsListing(items, session, ids)
  {
    var ids :| IsListing(items, session, ids);
    ids
  }

  lemma ListingIsUnique(items: Items, session: Id, ids: seq<Id>)
    requires IsListing(items, session, ids)
    ensures Dense(items, session) && Listing(items, session) == ids
  {
    var other := Listing(items, session);
    ListingCovers(items, session, ids, other);
    ListingCovers(items, session, other, ids);
    assert forall i :: 0 <= i < |ids| ==> ids[i] == other[items[ids[i]].position];
  }

  lemma ListingCovers(items: Items, session: Id, a: seq<Id>, b: seq<Id>)
    requires IsListing(items, session, a) && IsListing(items, session, b)
    ensures |a| <= |b|
  {
    if a != [] {
      assert items[a[|a| - 1]].position == |a| - 1;
    }
  }

  /** Two tables have the same rows for `session`. */
  ghost predicate SameRows(a: Items, b: Items, session: Id) {
    forall id :: (id in a && a[id].session == session <==> id in b && b[id].session == session)
                 && (id in a && a[id].session == session ==> a[id] == b[id])
  }

  lemma SameRowsSameListing(a: Items, b: Items, session: Id)
    requires SameRows(a, b, session) && Dense(a, session)
    ensures Dense(b, session) && Listing(b, session) == Listing(a, session)
  {
    var ids := Listing(a, session);
    assert IsListing(b, session, ids);
    ListingIsUnique(b, session, ids);
  }

  /** Only the rows of `session` differ, and those are listed by `ids`. */
  lemma ListingAfter(before: Items, after: Items, session: Id, ids: seq<Id>)
    requires AllDense(before) && IsListing(after, session, ids)
    requires forall other :: other != session ==> SameRows(before, after, other)
    ensures AllDense(after) && Listing(after, session) == ids
    ensures forall other :: other != session ==> Listing(after, other) == Listing(before, other)
  {
    ListingIsUnique(after, session, ids);
    forall other | other != session
      ensures Dense(after, other) && Listing(after, other) == Listing(before, other)
    {
      SameRowsSameListing(before, after, other);
    }
  }

  // ---------------------------------------------------------------------------
  // Statements
  // ---------------------------------------------------------------------------

  /** PRIMARY KEY(id) and UNIQUE(session_id, position). */
  predicate CanInsert(items: Items, task: Task, position: int) {
    && task.id !in items
    && forall id :: id in items ==> items[id].session != task.sessionId || items[id].position != position
  }

  function Deleted(items: Items, session: Id, id: Id): Items {
    map other | other in items && !(other == id && items[id].session == session) :: items[other]
  }

  function SessionDeleted(items: Items, session: Id): Items {
    map id | id in items && items[id].session != session :: items[id]
  }

  /** `UPDATE work_items SET position = position - 1 WHERE session_id = ? AND position > ?` */
  function Shifted(items: Items, session: Id, position: int): Items {
    map id | id in items ::
      if items[id].session == session && items[id].position > position
      then items[id].(position := items[id].position - 1) else items[id]
  }

  /** The row an update of `task` writes, keeping its place and creation time. */
  function Rewritten(row: Row, task: Task): Row {
    row.(title := task.title, description := task.description, status := task.status, task := task,
         updatedAt := AsI64(task.updatedAt))
  }

  predicate HasRow(items: Items, session: Id, id: Id) {
    id in items && items[id].session == session
  }

  ghost predicate IsTop(items: Items, session: Id, top: int) {
    && (forall id :: id in items && items[id].session == session ==> items[id].position <= top)
    && (top == -1 || exists id :: id in items && items[id].session == session && items[id].position == top)
  }

  // ---------------------------------------------------------------------------
  // What statements do to listings
  // ---------------------------------------------------------------------------

  lemma InsertAtEnd(items: Items, task: Task)
    requires AllDense(items) && IndexAgrees(items) && task.id !in items
    ensures var ids := Listing(items, task.sessionId);
            var after := items[task.id := RowOf(task, |ids|)];
            && CanInsert(items, task, |ids|)
            && AllDense(after) && IndexAgrees(after) && Listing(after, task.sessionId) == ids + [task.id]
            && forall other :: other != task.sessionId ==>
                 Listing(after, other) == Listing(items, other) && SameRows(items, after, other)
  {
    var ids := Listing(items, task.sessionId);
    var after := items[task.id := RowOf(task, |ids|)];
    assert IsListing(after, task.sessionId, ids + [task.id]);
    ListingAfter(items, after, task.sessionId, ids + [task.id]);
  }

  lemma RewriteInPlace(items: Items, task: Task)
    requires AllDense(items) && IndexAgrees(items) && HasRow(items, task.sessionId, task.id)
    ensures var after := items[task.id := Rewritten(items[task.id], task)];
            && AllDense(after)
            && (IndexAgrees(after) <==> items[task.id].task.createdAt == task.createdAt)
            && Listing(after, task.sessionId) == Listing(items, task.sessionId)
            && forall other :: other != task.sessionId ==>
                 Listing(after, other) == Listing(items, other) && SameRows(items, after, other)
  {
    var ids := Listing(items, task.sessionId);
    var after := items[task.id := Rewritten(items[task.id], task)];
    assert IsListing(after, task.sessionId, ids);
    ListingAfter(items, after, task.sessionId, ids);
    assert after[task.id].createdAt == AsI64(items[task.id].task.createdAt);
  }

  lemma ShiftedListing(items: Items, session: Id, ids: seq<Id>, position: nat)
    requires IsListing(items, session, ids) && position < |ids|
    ensures IsListing(Shifted(Deleted(items, session, ids[position]), session, position), session,
                      ids[..position] + ids[position + 1..])
  {
    var after := Shifted(Deleted(items, session, ids[position]), session, position);
    var rest := ids[..position] + ids[position + 1..];
    forall i | 0 <= i < |rest|
      ensures rest[i] in after && after[rest[i]].session == session && after[rest[i]].position == i
    {
      var j := if i < position then i else i + 1;
      assert rest[i] == ids[j] && items[ids[j]].position == j && items[ids[position]].position == position;
    }
    forall id | id in after && after[id].session == session
      ensures 0 <= after[id].position < |rest| && rest[after[id].position] == id
    {
      var j := items[id].position;
      assert ids[j] == id && j != position;
    }
  }

  lemma DeleteAndShift(items: Items, session: Id, id: Id)
    requires AllDense(items) && IndexAgrees(items) && HasRow(items, session, id)
    ensures var position, ids := items[id].position, Listing(items, session);
            var after := Shifted(Deleted(items, session, id), session, position);
            && 0 <= position < |ids| && ids[position] == id
            && AllDense(after) && IndexAgrees(after)
            && Listing(after, session) == ids[..position] + ids[position + 1..]
            && forall other :: other != session ==>
                 Listing(after, other) == Listing(items, other) && SameRows(items, after, other)
  {
    var position, ids := items[id].position, Listing(items, session);
    var after := Shifted(Deleted(items, session, id), session, position);
    ShiftedListing(items, session, ids, position);
    forall other | other != session ensures SameRows(items, after, other) {
    }
    ListingAfter(items, after, session, ids[..position] + ids[position + 1..]);
  }

  lemma DeleteSession(items: Items, session: Id)
    requires AllDense(items) && IndexAgrees(items)
    ensures var after := SessionDeleted(items, session);
            && IsListing(after, session, []) && AllDense(after) && IndexAgrees(after)
            && Listing(after, session) == []
            && forall other :: other != session ==>
                 Listing(after, other) == Listing(items, other) && SameRows(items, after, other)
  {
    var after := SessionDeleted(items, session);
    assert IsListing(after, session, []);
    ListingAfter(items, after, session, []);
  }

  // ---------------------------------------------------------------------------
  // Positions
  // ---------------------------------------------------------------------------

  function RowsOf(items: Items, session: Id): set<Id> {
    set id | id in items && items[id].session == session
  }

  lemma {:induction false} DistinctCount(ids: seq<Id>)
    requires forall i, j :: 0 <= i < j < |ids| ==> ids[i] != ids[j]
    ensures |set id | id in ids| == |ids|
  {
    if ids != [] {
      var last, init := ids[|ids| - 1], ids[..|ids| - 1];
      DistinctCount(init);
      assert (set id | id in ids) == (set id | id in init) + {last};
    }
  }

  /** Dense, spelled out: the n rows of a session occupy exactly the positions 0..n-1, each once. */
  lemma PositionsAreExact(items: Items, session: Id)
    requires Dense(items, session)
    ensures forall p :: Occupied(items, session, p) <==> 0 <= p < |RowsOf(items, session)|
    ensures forall a, b ::
              HasRow(items, session, a) && HasRow(items, session, b) && items[a].position == items[b].position ==>
                a == b
  {
    var ids := Listing(items, session);
    assert RowsOf(items, session) == set id | id in ids by {
      forall id | id in RowsOf(items, session) ensures id in ids {
        assert ids[items[id].position] == id;
      }
    }
    DistinctCount(ids);
    forall p | 0 <= p < |ids| ensures Occupied(items, session, p) {
      assert items[ids[p]].position == p;
    }
  }

  // ---------------------------------------------------------------------------
  // Shifting row by row
  // ---------------------------------------------------------------------------

  /** `rest` lists the session's rows, whose positions leave out `gap` and nothing else. */
  ghost predicate IsGapped(items: Items, session: Id, rest: seq<Id>, gap: nat) {
    && gap <= |rest|
    && (forall i :: 0 <= i < |rest| ==>
          rest[i] in items && items[rest[i]].session == session
          && items[rest[i]].position == if i < gap then i else i + 1)
    && (forall id :: id in items && items[id].session == session ==>
          0 <= items[id].position <= |rest| && items[id].position != gap
          && rest[if items[id].position < gap then items[id].position else items[id].position - 1] == id)
  }

  predicate Occupied(items: Items, session: Id, position: int) {
    exists id :: id in items && items[id].session == session && items[id].position == position
  }

  function Moved(items: Items, id: Id, position: int): Items
    requires id in items
  {
    items[id := items[id].(position := position)]
  }

  /** UNIQUE(session_id, position). */
  ghost predicate Unique(items: Items) {
    forall a, b :: a in items && b in items && a != b && items[a].session == items[b].session ==>
      items[a].position != items[b].position
  }

  lemma DenseIsUnique(items: Items)
    requires AllDense(items)
    ensures Unique(items)
  {
    forall a, b | a in items && b in items && a != b && items[a].session == items[b].session
      ensures items[a].position != items[b].position
    {
      var ids := Listing(items, items[a].session);
      assert ids[items[a].position] == a;
    }
  }

  /** The shift has been done for the rows before position `next` only. */
  ghost predicate ShiftedUpTo(start: Items, items: Items, session: Id, position: int, next: int) {
    && items.Keys == start.Keys
    && forall id :: id in start ==>
         items[id] == if start[id].session == session && position < start[id].position < next
                      then start[id].(position := start[id].position - 1) else start[id]
  }

  lemma DeletingLeavesGap(items: Items, session: Id, ids: seq<Id>, position: nat)
    requires IsListing(items, session, ids) && position < |ids|
    ensures IsGapped(Deleted(items, session, ids[position]), session, ids[..position] + ids[position + 1..], position)
  {
    var after, rest := Deleted(items, session, ids[position]), ids[..position] + ids[position + 1..];
    forall i | 0 <= i < |rest|
      ensures rest[i] in after && after[rest[i]].session == session
              && after[rest[i]].position == if i < position then i else i + 1
    {
      var j := if i < position then i else i + 1;
      assert rest[i] == ids[j] && items[ids[j]].position == j && items[ids[position]].position == position;
    }
    forall id | id in after && after[id].session == session
      ensures 0 <= after[id].position <= |rest| && after[id].position != position
      ensures rest[if after[id].position < position then after[id].position else after[id].position - 1] == id
    {
      assert ids[items[id].position] == id;
    }
  }

  /** A shift under way has only moved the gap. */
  lemma GapHasMoved(start: Items, items: Items, session: Id, rest: seq<Id>, position: nat, gap: nat)
    requires IsGapped(start, session, rest, position) && position <= gap <= |rest|
    requires ShiftedUpTo(start, items, session, position, gap + 1)
    ensures IsGapped(items, session, rest, gap)
  {
    forall id | id in items && items[id].session == session
      ensures 0 <= items[id].position <= |rest| && items[id].position != gap
      ensures rest[if items[id].position < gap then items[id].position else items[id].position - 1] == id
    {
      assert start[id].session == session;
    }
  }

  /** One row further, nothing is in the way and the shift is done for one more position. */
  lemma ShiftStep(start: Items, items: Items, session: Id, rest: seq<Id>, position: nat, gap: nat, id: Id)
    requires IsGapped(start, session, rest, position) && position <= gap <= |rest|
    requires ShiftedUpTo(start, items, session, position, gap + 1)
    requires HasRow(items, session, id) && items[id].position == gap + 1
    ensures !Occupied(items, session, gap) && gap < |rest|
    ensures Unique(items) ==> Unique(Moved(items, id, gap))
    ensures ShiftedUpTo(start, Moved(items, id, gap), session, position, gap + 2)
  {
    GapHasMoved(start, items, session, rest, position, gap);
    assert start[id].position == gap + 1;
    forall other | other in start && other != id && start[other].session == session
      ensures start[other].position != gap + 1
    {
      assert items[other].session == session;
    }
  }

  lemma RowAfterGap(items: Items, session: Id, rest: seq<Id>, gap: nat)
    requires IsGapped(items, session, rest, gap) && gap < |rest|
    ensures Occupied(items, session, gap + 1)
  {
    assert items[rest[gap]].position == gap + 1;
  }

  /** No row after the gap is left: every row that had to move has moved. */
  lemma ShiftIsDone(start: Items, items: Items, session: Id, rest: seq<Id>, position: nat, gap: nat)
    requires IsGapped(start, session, rest, position) && position <= gap <= |rest|
    requires ShiftedUpTo(start, items, session, position, gap + 1) && !Occupied(items, session, gap + 1)
    ensures items == Shifted(start, session, position)
  {
    GapHasMoved(start, items, session, rest, position, gap);
    if gap < |rest| {
      RowAfterGap(items, session, rest, gap);
    }
    forall id | id in start && start[id].session == session
      ensures start[id].position <= gap || start[id].position <= position
    {
      assert items[id].session == session;
    }
  }

  /** Starting from the last row meets a taken position, unless only that row has to move. */
  lemma DescendingShiftCollides(items: Items, session: Id, rest: seq<Id>, gap: nat)
    requires IsGapped(items, session, rest, gap) && gap < |rest|
    ensures var last := rest[|rest| - 1];
            Unique(items) ==> (Unique(Moved(items, last, items[last].position - 1)) <==> gap + 1 == |rest|)
  {
    var last := rest[|rest| - 1];
    if gap + 1 < |rest| {
      var other, after := rest[|rest| - 2], Moved(items, last, items[last].position - 1);
      assert HasRow(after, session, other) && after[other].position == after[last].position;
    }
  }

  /** The last position is the length less one. */
  lemma TopIsLast(items: Items, session: Id, top: int)
    requires Dense(items, session) && IsTop(items, session, top) && top >= -1
    ensures top == |Listing(items, session)| - 1
  {
    var ids := Listing(items, session);
    if ids != [] {
      assert items[ids[|ids| - 1]].position == |ids| - 1;
    }
  }

  /** One row of an update of positions: it is refused exactly when UNIQUE(session_id, position) would break. */
  method MoveRow(items: Items, id: Id, position: int) returns (ok: bool, after: Items)
    requires id in items && Unique(items)
    ensures ok <==> Unique(Moved(items, id, position))
    ensures Unique(after) && after == if ok then Moved(items, id, position) else items
  {
    after := Moved(items, id, position);
    ok := forall other :: other in items && other != id && items[other].session == items[id].session ==>
            items[other].position != position;
    if !ok {
      var other :| other in items && other != id && items[other].session == items[id].session
                   && items[other].position == position;
      assert after[other].position == after[id].position;
      after := items;
    }
  }

  /**
   Moves the rows after `position` down by one, row by row in rising order of position.
   The constraint is checked at every row and never fails.
   */
  method ShiftDown(items: Items, session: Id, position: nat, ghost rest: seq<Id>) returns (ok: bool, after: Items)
    requires IsGapped(items, session, rest, position) && Unique(items)
    ensures ok && after == Shifted(items, session, position) && Unique(after)
  {
    var gap := position;
    ok, after := true, items;
    while ok && Occupied(after, session, gap + 1)
      invariant ok && position <= gap <= |rest| && Unique(after)
      invariant ShiftedUpTo(items, after, session, position, gap + 1)
      decreases |rest| - gap
    {
      var id :| id in after && after[id].session == session && after[id].position == gap + 1;
      ShiftStep(items, after, session, rest, position, gap, id);
      ok, after := MoveRow(after, id, gap);
      gap := gap + 1;
    }
    ShiftIsDone(items, after, session, rest, position, gap);
  }
}
