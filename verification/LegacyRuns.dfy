/**
 The rebuild of the automation tables from schema versions 3 to 5 into version 6.

 A table is the sequence of its rows.  Identifiers compare by code point, which is the
 order of SQLite's default collation on UTF-8 text.
 */
module LegacyRuns {
  import opened Outcomes

  datatype OldRun = OldRun(
    id: string, automationId: string, status: string, dispatchToken: string, outputSummary: Option<string>,
    worktreePath: Option<string>, branch: Option<string>,
    startedAt: Option<int>, finishedAt: Option<int>, createdAt: int)

  datatype OldAutomation = OldAutomation(
    id: string, enabled: int, workspaceMode: string, createdAt: int, updatedAt: int)

  datatype Trigger = Scheduled | Manual

  datatype RunStatus =
    | Pending | Dispatching | Dispatched
    | Completed | SkippedPrecheck | SkippedMissed | SkippedUnavailable | SkippedNeedsInteractiveAuth
    | DispatchFailed | Cancelled

  datatype Worktree = Worktree(path: Option<string>, branch: Option<string>)

  datatype Run = Run(
    id: string, automationId: string, runNumber: nat, trigger: Trigger, scheduledFor: int, status: RunStatus,
    worktree: Option<Worktree>, error: Option<string>,
    startedAt: Option<int>, finishedAt: Option<int>, createdAt: int)

  datatype WorkspaceMode = NewPerRun | Existing

  datatype Automation = Automation(
    id: string, enabled: int, workspaceMode: WorkspaceMode, lastRunAt: Option<int>, createdAt: int, updatedAt: int)

  datatype OldTables = OldTables(automations: seq<OldAutomation>, runs: seq<OldRun>)

  datatype Tables = Tables(automations: seq<Automation>, runs: seq<Run>)

  datatype Failure = ForeignKeyViolation | CheckViolation

  // ---------------------------------------------------------------------------
  // Row numbers
  // ---------------------------------------------------------------------------

  predicate TextLess(a: string, b: string) {
    b != [] && (a == [] || a[0] < b[0] || (a[0] == b[0] && TextLess(a[1..], b[1..])))
  }

  /** `ORDER BY created_at, id` */
  predicate Before(a: OldRun, b: OldRun) {
    a.createdAt < b.createdAt || (a.createdAt == b.createdAt && TextLess(a.id, b.id))
  }

  function RunsOf(runs: seq<OldRun>, automationId: string): seq<OldRun> {
    if runs == [] then []
    else (if runs[0].automationId == automationId then [runs[0]] else []) + RunsOf(runs[1..], automationId)
  }

  function Insert(run: OldRun, sorted: seq<OldRun>): seq<OldRun> {
    if sorted == [] || Before(run, sorted[0]) then [run] + sorted else [sorted[0]] + Insert(run, sorted[1..])
  }

  function Sorted(runs: seq<OldRun>): seq<OldRun> {
    if runs == [] then [] else Insert(runs[0], Sorted(runs[1..]))
  }

  function IndexOf(runs: seq<OldRun>, run: OldRun): (i: nat)
    ensures i <= |runs| && (run in runs ==> i < |runs| && runs[i] == run)
  {
    if runs == [] || runs[0] == run then 0 else 1 + IndexOf(runs[1..], run)
  }

  /** `ROW_NUMBER() OVER (PARTITION BY automation_id ORDER BY created_at, id)` */
  function RowNumber(runs: seq<OldRun>, run: OldRun): nat {
    1 + IndexOf(Sorted(RunsOf(runs, run.automationId)), run)
  }

  // ---------------------------------------------------------------------------
  // The rebuild
  // ---------------------------------------------------------------------------

  function Lower(c: char): char {
    if 'A' <= c <= 'Z' then (c as int + 32) as char else c
  }

  /** `LIKE 'manual:%'`, which ignores the case of ASCII letters. */
  predicate IsManual(token: string) {
    |token| >= 7 && forall i :: 0 <= i < 7 ==> Lower(token[i]) == "manual:"[i]
  }

  predicate Interrupted(run: OldRun) {
    run.status == "queued" || run.status == "running"
  }

  function StatusOf(status: string): RunStatus {
    if status == "completed" then Completed
    else if status == "cancelled" then Cancelled
    else if status == "skipped" then SkippedPrecheck
    else DispatchFailed
  }

  function ErrorOf(run: OldRun): Option<string> {
    if Interrupted(run) then Some("Automation run interrupted by schema v6 migration")
    else if run.status == "failed" then run.outputSummary
    else if run.status != "completed" && run.status != "cancelled" && run.status != "skipped" then
      Some("Unsupported legacy automation run status: " + run.status)
    else None
  }

  function Coalesce(value: Option<int>, otherwise: int): int {
    if value.Some? then value.value else otherwise
  }

  function Rebuilt(run: OldRun, number: nat): Run {
    Run(run.id, run.automationId, number, if IsManual(run.dispatchToken) then Manual else Scheduled,
        run.createdAt, StatusOf(run.status),
        if run.worktreePath.None? && run.branch.None? then None else Some(Worktree(run.worktreePath, run.branch)),
        ErrorOf(run), run.startedAt,
        if Interrupted(run) then Some(Coalesce(run.finishedAt, Coalesce(run.startedAt, run.createdAt)))
        else run.finishedAt,
        run.createdAt)
  }

  /** `MAX(created_at)` over the automation's runs that were not started by hand. */
  function LastRunAt(runs: seq<OldRun>, automationId: string): Option<int> {
    if runs == [] then None
    else
      var rest := LastRunAt(runs[1..], automationId);
      if runs[0].automationId != automationId || IsManual(runs[0].dispatchToken) then rest
      else if rest.Some? && rest.value >= runs[0].createdAt then rest
      else Some(runs[0].createdAt)
  }

  function ModeOf(mode: string): WorkspaceMode {
    if mode == "reuse" || mode == "existing" then Existing else NewPerRun
  }

  predicate HasAutomation(automations: seq<OldAutomation>, id: string) {
    exists i :: 0 <= i < |automations| && automations[i].id == id
  }

  /** The rows the rebuild inserts. */
  function NewTables(legacy: OldTables): Tables {
    Tables(
      seq(|legacy.automations|, i requires 0 <= i < |legacy.automations| =>
        var a := legacy.automations[i];
        Automation(a.id, a.enabled, ModeOf(a.workspaceMode), LastRunAt(legacy.runs, a.id), a.createdAt, a.updatedAt)),
      seq(|legacy.runs|, i requires 0 <= i < |legacy.runs| =>
        Rebuilt(legacy.runs[i], RowNumber(legacy.runs, legacy.runs[i]))))
  }

  function RebuiltTables(legacy: OldTables): Result<Tables, Failure> {
    if exists i :: 0 <= i < |legacy.automations| && legacy.automations[i].enabled !in {0, 1} then Err(CheckViolation)
    else if exists i :: 0 <= i < |legacy.runs| && !HasAutomation(legacy.automations, legacy.runs[i].automationId) then
      Err(ForeignKeyViolation)
    else Ok(NewTables(legacy))
  }

  // ---------------------------------------------------------------------------
  // The order of runs
  // ---------------------------------------------------------------------------

  lemma {:induction false} TextLessIsTotal(a: string, b: string)
    ensures TextLess(a, b) || TextLess(b, a) || a == b
    ensures !(TextLess(a, b) && TextLess(b, a)) && (a == b ==> !TextLess(a, b))
  {
    if a != [] && b != [] && a[0] == b[0] {
      TextLessIsTotal(a[1..], b[1..]);
      assert a == [a[0]] + a[1..] && b == [b[0]] + b[1..];
    }
  }

  /** Text order, spelled out: the first difference decides, and a beginning comes before the whole. */
  ghost predicate DiffersAt(a: string, b: string, k: nat) {
    && k < |b| && k <= |a| && a[..k] == b[..k] && (k == |a| || a[k] < b[k])
  }

  lemma {:induction false} TextLessIff(a: string, b: string)
    ensures TextLess(a, b) <==> exists k: nat :: DiffersAt(a, b, k)
  {
    if b == [] {
    } else if a == [] {
      assert DiffersAt(a, b, 0);
    } else if a[0] < b[0] {
      assert DiffersAt(a, b, 0);
    } else if a[0] > b[0] {
      forall k: nat ensures !DiffersAt(a, b, k) {
        if 0 < k <= |a| && k <= |b| {
          assert a[..k][0] == a[0] && b[..k][0] == b[0];
        }
      }
    } else {
      TextLessIff(a[1..], b[1..]);
      if TextLess(a, b) {
        var k: nat :| DiffersAt(a[1..], b[1..], k);
        assert a[..k + 1] == [a[0]] + a[1..][..k] && b[..k + 1] == [b[0]] + b[1..][..k];
        assert DiffersAt(a, b, k + 1);
      }
      forall k: nat | DiffersAt(a, b, k) ensures TextLess(a, b) {
        assert k > 0;
        assert a[1..][..k - 1] == a[..k][1..] && b[1..][..k - 1] == b[..k][1..];
        assert DiffersAt(a[1..], b[1..], k - 1);
      }
    }
  }

  lemma {:induction false} TextLessIsTransitive(a: string, b: string, c: string)
    requires TextLess(a, b) && TextLess(b, c)
    ensures TextLess(a, c)
  {
    if a != [] && a[0] == b[0] == c[0] {
      TextLessIsTransitive(a[1..], b[1..], c[1..]);
    }
  }

  lemma BeforeIsTransitive(a: OldRun, b: OldRun, c: OldRun)
    requires Before(a, b) && Before(b, c)
    ensures Before(a, c)
  {
    if a.createdAt == b.createdAt == c.createdAt {
      TextLessIsTransitive(a.id, b.id, c.id);
    }
  }

  lemma BeforeIsTotal(a: OldRun, b: OldRun)
    ensures a.id != b.id ==> (Before(a, b) <==> !Before(b, a))
    ensures a.id == b.id && a.createdAt == b.createdAt ==> !Before(a, b)
  {
    TextLessIsTotal(a.id, b.id);
  }

  /** `id` is the primary key. */
  ghost predicate DistinctIds(runs: seq<OldRun>) {
    forall i, j :: 0 <= i < j < |runs| ==> runs[i].id != runs[j].id
  }

  ghost predicate InOrder(runs: seq<OldRun>) {
    forall i, j :: 0 <= i < j < |runs| ==> Before(runs[i], runs[j])
  }

  lemma {:induction false} InsertIsExact(run: OldRun, sorted: seq<OldRun>)
    ensures multiset(Insert(run, sorted)) == multiset{run} + multiset(sorted)
  {
    if sorted != [] {
      assert sorted == [sorted[0]] + sorted[1..];
      InsertIsExact(run, sorted[1..]);
    }
  }

  lemma {:induction false} InsertKeepsOrder(run: OldRun, sorted: seq<OldRun>)
    requires InOrder(sorted) && forall i :: 0 <= i < |sorted| ==> sorted[i].id != run.id
    ensures InOrder(Insert(run, sorted))
  {
    if sorted != [] {
      BeforeIsTotal(run, sorted[0]);
      if Before(run, sorted[0]) {
        forall i | 0 <= i < |sorted| ensures Before(run, sorted[i]) {
          if i > 0 {
            BeforeIsTransitive(run, sorted[0], sorted[i]);
          }
        }
      } else {
        var rest := Insert(run, sorted[1..]);
        InsertKeepsOrder(run, sorted[1..]);
        InsertIsExact(run, sorted[1..]);
        forall i | 0 <= i < |rest| ensures Before(sorted[0], rest[i]) {
          assert rest[i] in multiset(rest);
          assert rest[i] == run || rest[i] in sorted[1..];
        }
      }
    }
  }

  lemma {:induction false} SortedIsExact(runs: seq<OldRun>)
    requires DistinctIds(runs)
    ensures multiset(Sorted(runs)) == multiset(runs) && InOrder(Sorted(runs))
  {
    if runs != [] {
      var rest := Sorted(runs[1..]);
      SortedIsExact(runs[1..]);
      assert runs == [runs[0]] + runs[1..];
      InsertIsExact(runs[0], rest);
      forall i | 0 <= i < |rest| ensures rest[i].id != runs[0].id {
        assert rest[i] in multiset(rest);
        assert rest[i] in runs[1..];
      }
      InsertKeepsOrder(runs[0], rest);
    }
  }

  lemma {:induction false} RunsOfIsExact(runs: seq<OldRun>, automationId: string)
    ensures forall run :: run in RunsOf(runs, automationId) <==> run in runs && run.automationId == automationId
    ensures DistinctIds(runs) ==> DistinctIds(RunsOf(runs, automationId))
  {
    if runs != [] {
      RunsOfIsExact(runs[1..], automationId);
      assert runs == [runs[0]] + runs[1..];
      var rest := RunsOf(runs[1..], automationId);
      forall i | 0 <= i < |rest| ensures rest[i] in runs[1..] {
        assert rest[i] in rest;
      }
    }
  }

  // ---------------------------------------------------------------------------
  // What the rebuild keeps and what it settles
  // ---------------------------------------------------------------------------

  /** The automation's runs in their order, and the numbers that order gives them. */
  lemma NumberedInOrder(runs: seq<OldRun>, automationId: string)
    requires DistinctIds(runs)
    ensures var sorted := Sorted(RunsOf(runs, automationId));
            && |sorted| == |RunsOf(runs, automationId)| && InOrder(sorted)
            && (forall run :: run in sorted <==> run in runs && run.automationId == automationId)
            && (forall n :: 0 <= n < |sorted| ==> RowNumber(runs, sorted[n]) == n + 1)
  {
    var mine := RunsOf(runs, automationId);
    var sorted := Sorted(mine);
    RunsOfIsExact(runs, automationId);
    SortedIsExact(mine);
    assert |sorted| == |multiset(sorted)| == |multiset(mine)| == |mine|;
    forall run ensures run in sorted <==> run in mine {
      assert run in multiset(sorted) <==> run in multiset(mine);
    }
    forall n | 0 <= n < |sorted| ensures RowNumber(runs, sorted[n]) == n + 1 {
      assert sorted[n] in sorted;
      var i := IndexOf(sorted, sorted[n]);
      BeforeIsTotal(sorted[i], sorted[n]);
    }
  }

  /** A run's number is its place in the order of its automation's runs. */
  lemma NumberIsPlace(runs: seq<OldRun>, run: OldRun)
    requires DistinctIds(runs) && run in runs
    ensures var sorted := Sorted(RunsOf(runs, run.automationId));
            1 <= RowNumber(runs, run) <= |sorted| && sorted[RowNumber(runs, run) - 1] == run
  {
    var sorted := Sorted(RunsOf(runs, run.automationId));
    NumberedInOrder(runs, run.automationId);
    assert run in sorted;
    assert sorted[IndexOf(sorted, run)] == run;
  }

  lemma NumbersFollowOrder(runs: seq<OldRun>, a: OldRun, b: OldRun)
    requires DistinctIds(runs) && a in runs && b in runs && a.automationId == b.automationId
    ensures RowNumber(runs, a) < RowNumber(runs, b) <==> Before(a, b)
    ensures RowNumber(runs, a) == RowNumber(runs, b) ==> a == b
  {
    NumberedInOrder(runs, a.automationId);
    NumberIsPlace(runs, a);
    NumberIsPlace(runs, b);
    BeforeIsTotal(a, b);
    BeforeIsTotal(b, a);
  }

  /** Some run of the automation has number `n`. */
  ghost predicate IsNumbered(runs: seq<Run>, automationId: string, n: nat) {
    exists i :: 0 <= i < |runs| && runs[i].automationId == automationId && runs[i].runNumber == n
  }

  lemma NumberIsTaken(legacy: OldTables, automationId: string, n: nat)
    requires DistinctIds(legacy.runs) && RebuiltTables(legacy).Ok?
    requires 1 <= n <= |RunsOf(legacy.runs, automationId)|
    ensures IsNumbered(RebuiltTables(legacy).value.runs, automationId, n)
  {
    NumberedInOrder(legacy.runs, automationId);
    var run := Sorted(RunsOf(legacy.runs, automationId))[n - 1];
    assert run in Sorted(RunsOf(legacy.runs, automationId));
    var i :| 0 <= i < |legacy.runs| && legacy.runs[i] == run;
    assert RebuiltTables(legacy).value.runs[i].runNumber == n;
  }

  /** The runs of an automation are numbered 1 to k, without gaps. */
  lemma RunNumbersAreDense(legacy: OldTables, automationId: string, n: nat)
    requires DistinctIds(legacy.runs) && RebuiltTables(legacy).Ok?
    ensures IsNumbered(RebuiltTables(legacy).value.runs, automationId, n)
            <==> 1 <= n <= |RunsOf(legacy.runs, automationId)|
  {
    var runs := RebuiltTables(legacy).value.runs;
    NumberedInOrder(legacy.runs, automationId);
    if IsNumbered(runs, automationId, n) {
      var i :| 0 <= i < |runs| && runs[i].automationId == automationId && runs[i].runNumber == n;
      NumberIsPlace(legacy.runs, legacy.runs[i]);
    }
    if 1 <= n <= |RunsOf(legacy.runs, automationId)| {
      NumberIsTaken(legacy, automationId, n);
    }
  }

  /** Numbers follow creation, and none is given twice: UNIQUE(automation_id, run_number) holds. */
  lemma RunNumbersFollowCreation(legacy: OldTables, i: nat, j: nat)
    requires DistinctIds(legacy.runs) && RebuiltTables(legacy).Ok?
    requires i < |legacy.runs| && j < |legacy.runs| && i != j
    requires legacy.runs[i].automationId == legacy.runs[j].automationId
    ensures var runs := RebuiltTables(legacy).value.runs;
            && runs[i].runNumber != runs[j].runNumber
            && (runs[i].runNumber < runs[j].runNumber
                <==> || legacy.runs[i].createdAt < legacy.runs[j].createdAt
                     || (legacy.runs[i].createdAt == legacy.runs[j].createdAt
                         && exists k: nat :: DiffersAt(legacy.runs[i].id, legacy.runs[j].id, k)))
  {
    TextLessIff(legacy.runs[i].id, legacy.runs[j].id);
    NumbersFollowOrder(legacy.runs, legacy.runs[i], legacy.runs[j]);
  }

  predicate IsActive(status: RunStatus) {
    status.Pending? || status.Dispatching? || status.Dispatched?
  }

  /** The finish time a run ends up with: interrupted ones get the best guess there is. */
  ghost predicate FinishSettles(before: OldRun, after: Option<int>) {
    if before.status !in {"queued", "running"} || before.finishedAt.Some? then after == before.finishedAt
    else after == if before.startedAt.Some? then before.startedAt else Some(before.createdAt)
  }

  /** The status and error a run ends up with: only known ends are kept, and whatever else was is a failure. */
  ghost predicate StatusSettles(before: OldRun, status: RunStatus, error: Option<string>) {
    if before.status == "completed" then status == Completed && error == None
    else if before.status == "cancelled" then status == Cancelled && error == None
    else if before.status == "skipped" then status == SkippedPrecheck && error == None
    else
      && status == DispatchFailed
      && error == if before.status == "failed" then before.outputSummary
                  else Some(if before.status in {"queued", "running"}
                            then "Automation run interrupted by schema v6 migration"
                            else "Unsupported legacy automation run status: " + before.status)
  }

  /** The token starts with `manual:`, in whatever case. */
  predicate StartsManually(token: string) {
    && |token| >= 7
    && token[0] in {'m', 'M'} && token[1] in {'a', 'A'} && token[2] in {'n', 'N'} && token[3] in {'u', 'U'}
    && token[4] in {'a', 'A'} && token[5] in {'l', 'L'} && token[6] == ':'
  }

  lemma ManualIff(token: string)
    ensures IsManual(token) <==> StartsManually(token)
  {
    var manual := "manual:";
    assert manual[0] == 'm' && manual[1] == 'a' && manual[2] == 'n' && manual[3] == 'u' && manual[4] == 'a'
           && manual[5] == 'l' && manual[6] == ':';
    if IsManual(token) {
      forall i | 0 <= i < 7 ensures Lower(token[i]) == manual[i] {
      }
    }
  }

  /** A run keeps its identity and its history, and an interrupted one gets an end. */
  ghost predicate Settles(before: OldRun, after: Run) {
    && after.id == before.id && after.automationId == before.automationId && after.createdAt == before.createdAt
    && after.scheduledFor == before.createdAt && after.startedAt == before.startedAt
    && after.trigger == (if StartsManually(before.dispatchToken) then Manual else Scheduled)
    && after.worktree == (if before.worktreePath.None? && before.branch.None? then None
                          else Some(Worktree(before.worktreePath, before.branch)))
    && StatusSettles(before, after.status, after.error)
    && FinishSettles(before, after.finishedAt)
  }

  /** No run is lost, added or left active, and an interrupted one has a finish time and an error. */
  lemma RunsAreKeptAndSettled(legacy: OldTables)
    requires RebuiltTables(legacy).Ok?
    ensures var runs := RebuiltTables(legacy).value.runs;
            && |runs| == |legacy.runs|
            && (forall i :: 0 <= i < |runs| ==> Settles(legacy.runs[i], runs[i]) && !IsActive(runs[i].status))
            && (forall i :: 0 <= i < |runs| && legacy.runs[i].status in {"queued", "running"} ==>
                  runs[i].status == DispatchFailed && runs[i].finishedAt.Some? && runs[i].error.Some?)
  {
    var runs := RebuiltTables(legacy).value.runs;
    forall i | 0 <= i < |legacy.runs|
      ensures Settles(legacy.runs[i], runs[i])
      ensures !IsActive(runs[i].status)
      ensures legacy.runs[i].status in {"queued", "running"} ==>
                runs[i].status == DispatchFailed && runs[i].finishedAt.Some? && runs[i].error.Some?
    {
      RebuiltSettles(legacy.runs[i], RowNumber(legacy.runs, legacy.runs[i]));
      SettledHasEnded(legacy.runs[i], runs[i]);
    }
  }

  lemma RebuiltSettles(run: OldRun, number: nat)
    ensures Settles(run, Rebuilt(run, number))
  {
    ManualIff(run.dispatchToken);
    StatusesDiffer();
  }

  lemma StatusesDiffer()
    ensures var names := ["completed", "cancelled", "skipped", "queued", "running", "failed"];
            forall i, j :: 0 <= i < j < |names| ==> names[i] != names[j]
  {
    assert "completed"[1] != "cancelled"[1];
    assert "running"[0] != "skipped"[0] && "queued"[0] != "failed"[0];
  }

  lemma SettledHasEnded(before: OldRun, after: Run)
    requires Settles(before, after)
    ensures !IsActive(after.status)
    ensures before.status in {"queued", "running"} ==>
              after.status == DispatchFailed && after.finishedAt.Some? && after.error.Some?
  {
    StatusesDiffer();
  }

  // ---------------------------------------------------------------------------
  // What automations keep
  // ---------------------------------------------------------------------------

  /** No automation is lost or added, switched on or off, or dated anew. */
  lemma AutomationsAreKept(legacy: OldTables, i: nat)
    requires i < |legacy.automations|
    ensures RebuiltTables(legacy).Ok? ==> RebuiltTables(legacy).value == NewTables(legacy)
    ensures |NewTables(legacy).automations| == |legacy.automations|
    ensures var before, after := legacy.automations[i], NewTables(legacy).automations[i];
            && after.id == before.id && after.enabled == before.enabled
            && after.createdAt == before.createdAt && after.updatedAt == before.updatedAt
            && (after.workspaceMode == Existing
                <==> before.workspaceMode == "reuse" || before.workspaceMode == "existing")
  {
  }

  predicate CountsAsLast(run: OldRun, automationId: string) {
    run.automationId == automationId && !StartsManually(run.dispatchToken)
  }

  lemma {:induction false} LastRunAtIsNewest(runs: seq<OldRun>, automationId: string)
    ensures LastRunAt(runs, automationId).None?
            <==> forall i :: 0 <= i < |runs| ==> !CountsAsLast(runs[i], automationId)
    ensures LastRunAt(runs, automationId).Some? ==>
              var last := LastRunAt(runs, automationId).value;
              && (exists i :: 0 <= i < |runs| && CountsAsLast(runs[i], automationId) && runs[i].createdAt == last)
              && (forall i :: 0 <= i < |runs| && CountsAsLast(runs[i], automationId) ==> runs[i].createdAt <= last)
  {
    if runs != [] {
      var rest := runs[1..];
      ManualIff(runs[0].dispatchToken);
      LastRunAtIsNewest(rest, automationId);
      assert forall i :: 1 <= i < |runs| ==> runs[i] == rest[i - 1];
      var last := LastRunAt(rest, automationId);
      if last.Some? {
        var i :| 0 <= i < |rest| && CountsAsLast(rest[i], automationId) && rest[i].createdAt == last.value;
        assert runs[i + 1] == rest[i];
      }
    }
  }

  /** `last_run_at` is the newest creation time among the runs not started by hand, if any. */
  lemma LastRunIsNewest(legacy: OldTables, a: nat)
    requires RebuiltTables(legacy).Ok? && a < |legacy.automations|
    ensures |RebuiltTables(legacy).value.automations| == |legacy.automations|
    ensures var id, last := legacy.automations[a].id, RebuiltTables(legacy).value.automations[a].lastRunAt;
            && (last.None? <==> forall i :: 0 <= i < |legacy.runs| ==> !CountsAsLast(legacy.runs[i], id))
            && (last.Some? ==>
                  && (exists i :: 0 <= i < |legacy.runs| && CountsAsLast(legacy.runs[i], id)
                                  && legacy.runs[i].createdAt == last.value)
                  && (forall i :: 0 <= i < |legacy.runs| && CountsAsLast(legacy.runs[i], id) ==>
                        legacy.runs[i].createdAt <= last.value))
  {
    LastRunAtIsNewest(legacy.runs, legacy.automations[a].id);
  }

  // ---------------------------------------------------------------------------
  // The new schema
  // ---------------------------------------------------------------------------

  predicate Refers(automations: seq<Automation>, id: string) {
    exists i :: 0 <= i < |automations| && automations[i].id == id
  }

  /** UNIQUE(automation_id, run_number) */
  ghost predicate NumberedApart(runs: seq<Run>) {
    forall i, j :: 0 <= i < j < |runs| && runs[i].automationId == runs[j].automationId ==>
      runs[i].runNumber != runs[j].runNumber
  }

  /** The primary keys of the new tables. */
  ghost predicate KeysApart(tables: Tables) {
    && (forall i, j :: 0 <= i < j < |tables.automations| ==> tables.automations[i].id != tables.automations[j].id)
    && (forall i, j :: 0 <= i < j < |tables.runs| ==> tables.runs[i].id != tables.runs[j].id)
  }

  /** CHECK(enabled IN (0,1)) */
  ghost predicate Switched(automations: seq<Automation>) {
    forall i :: 0 <= i < |automations| ==> automations[i].enabled in {0, 1}
  }

  /** REFERENCES automations(id) */
  ghost predicate AllRefer(tables: Tables) {
    forall i :: 0 <= i < |tables.runs| ==> Refers(tables.automations, tables.runs[i].automationId)
  }

  /** The keys, references and checks that the new tables declare. */
  ghost predicate MeetsSchema(tables: Tables) {
    KeysApart(tables) && NumberedApart(tables.runs) && Switched(tables.automations) && AllRefer(tables)
  }

  ghost predicate HasKeys(legacy: OldTables) {
    && DistinctIds(legacy.runs)
    && forall i, j :: 0 <= i < j < |legacy.automations| ==> legacy.automations[i].id != legacy.automations[j].id
  }

  lemma NewNumbersAreApart(legacy: OldTables)
    requires DistinctIds(legacy.runs)
    ensures NumberedApart(NewTables(legacy).runs)
  {
    forall i, j | 0 <= i < j < |legacy.runs| && legacy.runs[i].automationId == legacy.runs[j].automationId
      ensures RowNumber(legacy.runs, legacy.runs[i]) != RowNumber(legacy.runs, legacy.runs[j])
    {
      NumbersFollowOrder(legacy.runs, legacy.runs[i], legacy.runs[j]);
    }
  }

  lemma KeysAreKept(legacy: OldTables)
    requires HasKeys(legacy)
    ensures KeysApart(NewTables(legacy))
  {
    var tables := NewTables(legacy);
    assert forall i :: 0 <= i < |tables.runs| ==> tables.runs[i].id == legacy.runs[i].id;
    assert forall i :: 0 <= i < |tables.automations| ==> tables.automations[i].id == legacy.automations[i].id;
  }

  lemma SwitchesAreKept(legacy: OldTables)
    ensures Switched(NewTables(legacy).automations)
            <==> forall i :: 0 <= i < |legacy.automations| ==> legacy.automations[i].enabled in {0, 1}
  {
    var automations := NewTables(legacy).automations;
    assert forall i :: 0 <= i < |automations| ==> automations[i].enabled == legacy.automations[i].enabled;
  }

  lemma ReferencesAreKept(legacy: OldTables)
    ensures AllRefer(NewTables(legacy))
            <==> forall i :: 0 <= i < |legacy.runs| ==> HasAutomation(legacy.automations, legacy.runs[i].automationId)
  {
    var tables := NewTables(legacy);
    assert forall i :: 0 <= i < |tables.runs| ==> tables.runs[i].automationId == legacy.runs[i].automationId;
    forall id ensures Refers(tables.automations, id) <==> HasAutomation(legacy.automations, id) {
      assert forall i :: 0 <= i < |tables.automations| ==> tables.automations[i].id == legacy.automations[i].id;
    }
  }

  /**
   The rebuild goes through exactly when the rows it inserts meet the new schema.  As the
   old tables have primary keys, the new numbers never clash, and the only rows that can
   stand in the way are runs of missing automations and switches other than 0 and 1.
   */
  lemma RebuildSucceedsIff(legacy: OldTables)
    requires HasKeys(legacy)
    ensures RebuiltTables(legacy).Ok? <==> MeetsSchema(NewTables(legacy))
    ensures RebuiltTables(legacy).Ok? ==> RebuiltTables(legacy).value == NewTables(legacy)
    ensures RebuiltTables(legacy).Ok?
            <==> && (forall i :: 0 <= i < |legacy.automations| ==> legacy.automations[i].enabled in {0, 1})
                 && (forall i :: 0 <= i < |legacy.runs| ==>
                       HasAutomation(legacy.automations, legacy.runs[i].automationId))
  {
    NewNumbersAreApart(legacy);
    KeysAreKept(legacy);
    SwitchesAreKept(legacy);
    ReferencesAreKept(legacy);
  }
}
