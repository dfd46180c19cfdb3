# Verified models of the VibeLink daemon and browser panel

This project models, in Dafny, the parts of VibeLink whose correctness depends on
sequences of events rather than on single calls, and proves what those parts promise over
whole runs.

- **The document store** (`DocumentStore`, `CrashRecovery`): one document in a primary file
  with a backup, a temporary file and quarantined copies. A method changes the disk one
  file-system call at a time; a trace function lists every disk it passes through, with a
  file written byte by byte, so that a process stop "after any step" is a stop at any
  element of the trace. The two ways of replacing a file (Windows and elsewhere) are both
  modelled. The central result: any run of writes and loads, each stopped or failing
  anywhere, behaves like one register that holds one document.
- **The control plane** (`WorkItems`, `WorkItemTable`, `ControlModel`, `BoardRefinement`,
  `BoardRoundTrip`, `BoardEffects`, `Revisions`, `ControlRuns`, `ControlPlane`): a database
  of boards changed in transactions, with a log of operations. `ControlModel` says what each
  command does to the tables; `ControlPlane` does it statement by statement;
  `BoardRefinement` shows that the tables refine, for each session, a revision, a list of
  tasks and a brief; `BoardEffects` says what a client sees of each command and each import;
  `ControlRuns` proves properties of all runs of calls, repeats and restarts with imports.
- **The automation rebuild** (`LegacyRuns`): schema versions 3 to 5 into version 6.
- **The escape-sequence stripper** (`PlainText`, `EscapePieces`): nested index loops against
  a one-byte-at-a-time machine, and the machine against a grammar of byte sequences.
- **The gap scanner** (`MonitorGaps`): run-length loops over a grid against plane geometry.
- **The URL history** (`UrlHistory`, `UrlRecency`): a sorted, cut list against an unbounded
  move-to-front list.
- **The surface queue and the lifecycle buffer** (`SurfaceQueue`, `LifecycleBuffer`).
- **The panel reducer** (`PanelReducer`, `PanelFields`).
- **Message frames** (`Framing`).

`Outcomes` and `Text` hold shared result types and string trimming.

## Assumptions

- Serialisation (serde_json, MessagePack, `localStorage` JSON) gives back what was put in,
  and SHA-256 is injective on the texts seen. A request is identified by its serialised
  text, which is independent of the command value: two equal commands may have different
  texts and two different patches the same text.
- SQLite enforces PRIMARY KEY, UNIQUE, CHECK and FOREIGN KEY constraints and rolls back a
  failed transaction. `UPDATE work_items SET position = position - 1` visits rows in rising
  order of position; `WorkItemTable.DescendingShiftCollides` shows that the other order
  would violate the constraint.
- Clocks, fresh identifiers, the iteration order of hash maps, whether a session id or a
  URL parses, and whether a failed native call changed the surface all the same, are
  parameters. One command reads the clock once.

## Where the code does not do what one might expect

- Writing over a primary that does not parse destroys the only readable copy if the write
  is stopped: `CrashRecovery.WriteSurvivesStopsIff` gives the exact condition, for every
  disk, under which stops are harmless.
- A single completed write does not protect against damage to the primary:
  `CrashRecovery.OneSaveDoesNotArm` says when the document is lost.
- Loading quarantines a primary of an unsupported schema, so that the next load answers
  with an older backup (`CrashRecovery.RejectedLoad`).
- Revisions are kept in a signed column: the commit after revision 2^63 - 1 reads back as
  revision 0. `ControlRuns.RevisionCountsCommits` and `Revisions.AdvancedIsModular` say how
  they count, and `ControlRuns.SameExpectationCommitsTwiceIff` when that lets a stale board
  write through.
- A board whose tasks are filed under other keys than their ids can be normalised into an
  order that names tasks it does not hold, exactly when some task's id is no key at all
  (`BoardRoundTrip.NormalizedIsCompleteIff`); it is then refused.
- With the default step of 8 the painted gaps can cover pixels that a monitor shows and can
  leave out pixels that none shows; `MonitorGaps.GapsAreExactIff` says for which screens
  they are exact. Without monitors nothing is painted although every selection is rejected,
  and a monitor without area makes selections acceptable that show nothing
  (`MonitorGaps.RejectedIffInGaps`).
- A device-metrics reply replaces the page as it is, so an outdated one takes the
  navigation generation back, and a newer one makes a held annotation stale
  (`PanelReducer.GenerationFallsIff`, `PanelReducer.AnnotationGoesStaleIff`).

## Model

| member | source | states |
|---|---|---|
| DocumentStore.Store.WriteBytes | src-tauri/src/storage.rs:159-191 | writing passes through exactly the listed disks, on both platforms, and fails with "active writer" exactly when a temporary file is not stale |
| DocumentStore.Store.RestoreBackup | src-tauri/src/storage.rs:193-224 | the backup is copied to a temporary file and moved to the primary, or refused while a writer is active |
| DocumentStore.Store.ReplaceFile | src-tauri/src/storage.rs:307-376 | the steps of replacing the primary: two moves on Windows, a non-atomic backup copy and one rename elsewhere |
| DocumentStore.Store.LoadWithRecovery | src-tauri/src/storage.rs:54-152 | every branch of loading: the disks passed through, the final disk and the answer |
| CrashRecovery.WriteIsAtomic | src-tauri/src/storage.rs:159-191 | a write changes the document the disk stands for in its last step and in no other |
| CrashRecovery.WriteSurvivesStopsIff | src-tauri/src/storage.rs:159-191 | on every disk: a stop during a write leaves the old or the new document at every point if and only if the write is refused, or the replaced primary is not garbage, or no readable backup is there to be hidden and, where the backup is copied, no beginning of the garbage passes for another document |
| CrashRecovery.LoadIsInvisible | src-tauri/src/storage.rs:54-152 | loading a disk whose document is not of an unsupported schema, stopped anywhere, never changes the document the disk stands for |
| CrashRecovery.LoadIsInvisibleIff | src-tauri/src/storage.rs:54-152 | on every disk: loading is invisible at every step exactly when nothing is rejected, or both the primary and the backup are |
| CrashRecovery.RejectedLoad | src-tauri/src/storage.rs:68-134 | loading a rejected disk uncovers the backup if the primary was unsupported, and leaves no document if the backup was |
| CrashRecovery.RejectionNames | src-tauri/src/storage.rs:68-134 | a rejected load reports the schema found and the schema supported, and the new quarantine file that holds the rejected content |
| CrashRecovery.LoadAnswersVisible | src-tauri/src/storage.rs:54-152 | a load returns the document that is there and says whether it came from the primary or the backup, the default only when there is none, and "active writer" only when restoring is blocked by a young temporary file |
| CrashRecovery.LoadTwice | src-tauri/src/storage.rs:54-152 | a load right after a successful load returns the same value and quarantines nothing |
| CrashRecovery.ActiveWhileYoung | src-tauri/src/storage.rs:226-241 | a temporary file blocks exactly while it is younger than ten minutes, whichever way the clock moved |
| CrashRecovery.LeftoverBlocks | src-tauri/src/storage.rs:159-191 | a write stopped midway blocks the next one for ten minutes and no longer, and a finished one does not |
| CrashRecovery.ReportNamesWhatMoved | src-tauri/src/storage.rs:243-261 | a successful load reports exactly the quarantine files it created |
| CrashRecovery.LoadDestroysNothing | src-tauri/src/storage.rs:54-152 | at every step of a load, successful or not, the primary, the backup and the quarantine files together hold exactly the contents they held before |
| CrashRecovery.RunIsARegister | src-tauri/src/storage.rs:54-224 | any run of writes and loads over a disk that is not rejected, an empty one included, each stopped or failing anywhere and no write over garbage, keeps exactly the last document whose write went through |
| CrashRecovery.SoundStartStaysDisciplined | src-tauri/src/storage.rs:54-224 | a run that starts over a readable or missing primary, with or without a backup, never comes to write over garbage |
| CrashRecovery.TwoSavesArm | src-tauri/src/storage.rs:159-191 | two writes, over whatever was there and with any loads in between, leave the second document and the first as its backup |
| CrashRecovery.DamageCostsOneSave | src-tauri/src/storage.rs:75-86 | after two writes no load in a run with damaged primaries falls back to the default, and a load after a damaged write returns the document before it |
| CrashRecovery.OneSaveDoesNotArm | src-tauri/src/storage.rs:75-152 | after a single write over any disk and damage to the primary, the load answers with what the write found, and with the default exactly when that was missing or garbage |
| WorkItems.EditKeepsIdentity | src-tauri/src/control_plane.rs:1444-1469 | updating, completing or noting a task never changes its id, session or creation time |
| WorkItems.EditStampsStatus | src-tauri/src/control_plane.rs:1456-1461 | a status change is stamped with its time and no other stamp changes |
| WorkItems.PatchIsFieldwise | src-tauri/src/control_plane.rs:1444-1478 | the title and each optional field follow their own patch field: unnamed ones keep their value, named ones hold trimmed text or nothing |
| WorkItems.PatchSetsTheRest | src-tauri/src/control_plane.rs:1453-1468 | a named description is taken untrimmed, a null one is empty, the status is as named and the update is dated |
| WorkItems.PatchFailsIff | src-tauri/src/control_plane.rs:1445-1451 | a patch is refused, for want of a title, exactly when the title it names is null or all blanks |
| WorkItems.PatchTwice | src-tauri/src/control_plane.rs:1444-1469 | applying a patch again, at any later time, changes the time of the update only |
| WorkItems.NotesAccumulate | src-tauri/src/control_plane.rs:1238-1265 | notes pile up in the summary one line each and in order, start a task, and never reopen a finished one |
| WorkItemTable.InsertAtEnd | src-tauri/src/control_plane.rs:1178-1184 | inserting at max(position)+1 satisfies both constraints and appends to the listing |
| WorkItemTable.DeleteAndShift | src-tauri/src/control_plane.rs:1198-1217 | deleting a row and shifting the later ones removes one entry from the listing and keeps positions dense |
| WorkItemTable.MoveRow | src-tauri/src/control_plane.rs:473 | one row of a position update is refused exactly when carrying it out would break UNIQUE(session_id, position), so the table always meets the constraint |
| WorkItemTable.ShiftDown | src-tauri/src/control_plane.rs:1214 | the row-by-row shift in rising order is never refused and ends in the shifted table |
| WorkItemTable.DescendingShiftCollides | src-tauri/src/control_plane.rs:1214 | starting the shift from the last row breaks the constraint exactly when more than one row has to move |
| WorkItemTable.PositionsAreExact | src-tauri/src/control_plane.rs:473 | a dense session of n rows occupies exactly the positions 0..n-1, each once |
| BoardRefinement.MutatedRefines | src-tauri/src/control_plane.rs:1138-1287 | every committed command changes its session's task list, brief and revision as intended and leaves every other session and the logs alone |
| BoardRefinement.ReplacedRefines | src-tauri/src/control_plane.rs:1327-1367 | a whole-board replacement commits exactly at the expected revision and for a storable board, and then the session holds exactly that board |
| BoardRefinement.InsertAllIff | src-tauri/src/control_plane.rs:1340-1350 | the inserts of a replacement succeed exactly when every listed task exists, is of the session, and has a new and distinct id |
| BoardRoundTrip.NormalizedIsExact | src-tauri/src/control_plane.rs:1426-1442 | normalising keeps the listed ids in their order and appends every other id exactly once, oldest first |
| BoardRoundTrip.AddedOldestFirst | src-tauri/src/control_plane.rs:1434-1440 | of two ids added behind the listed ones the first is of the task created first |
| BoardRoundTrip.RetainedDistributes | src-tauri/src/control_plane.rs:1427 | the listed ids that are kept are picked one by one in their order |
| BoardRoundTrip.NormalizeTwice | src-tauri/src/control_plane.rs:1426-1442 | normalising again, under any walk of the hash map, changes nothing, whenever every task's id is a key |
| BoardRoundTrip.NormalizedIsCompleteIff | src-tauri/src/control_plane.rs:1426-1442 | a normalised order names held tasks only if and only if every task's id is a key of the board |
| BoardRoundTrip.ForeignIdsAreRefused | src-tauri/src/control_plane.rs:1327-1350 | a board with a task whose id is no key is never stored, by a write or by an import |
| BoardRoundTrip.ForeignKeysBreakNormalization | src-tauri/src/control_plane.rs:1428-1441 | such a board: one task filed under another key |
| BoardRoundTrip.WriteThenRead | src-tauri/src/control_plane.rs:1289-1367 | a committed board write is read back at the next revision with the same tasks and brief and every task listed once |
| BoardRoundTrip.ReadAfterWrite | src-tauri/src/control_plane.rs:252-300 | the same over two calls of the interface |
| BoardEffects.CreateThenRead | src-tauri/src/control_plane.rs:1152-1186 | a created task has the trimmed title, is pending and nothing else is set; it is replied, and read last on its board, whose other tasks, brief and order are as before |
| BoardEffects.UpdateThenRead | src-tauri/src/control_plane.rs:1187-1197 | the reply and the board show the task with every field as its own patch field says, and nothing else on the board changes but the revision |
| BoardEffects.DoneThenRead | src-tauri/src/control_plane.rs:1218-1236 | a completed task is Done, stamped with the time unless it was, has the given message and summary, trimmed, or keeps the old ones, and is otherwise as before, in the reply and on the board |
| BoardEffects.NoteThenRead | src-tauri/src/control_plane.rs:1238-1265 | the trimmed note is the next line of the summary, an unfinished task is in progress from now, and the rest is as before, in the reply and on the board |
| BoardEffects.DeleteThenRead | src-tauri/src/control_plane.rs:1198-1217 | the task and its place are off the board and nothing else is |
| BoardEffects.BriefThenRead | src-tauri/src/control_plane.rs:1262-1279 | the brief has the trimmed texts and the time, in the reply and on the board, and the tasks are as before |
| BoardEffects.ReadsAnswer | src-tauri/src/control_plane.rs:1126-1136 | a read answers with the session's board or its brief and changes nothing |
| BoardEffects.RefusedIff | src-tauri/src/control_plane.rs:1138-1287 | a fresh command is refused, with which error and without effect, exactly for blank titles or notes, ids in use and missing tasks |
| BoardEffects.StaleWriteIsRefused | src-tauri/src/control_plane.rs:1333-1339 | a board write at another revision than the one read is refused as stale |
| BoardEffects.WriteRefusalNames | src-tauri/src/control_plane.rs:1341-1350 | any other refused board write names its first listed id without a task, or with a task of another session or an id in use |
| BoardEffects.BadSessionIsRefused | src-tauri/src/control_plane.rs:252-253 | an unreadable session id is refused before anything else |
| BoardEffects.CommitIsAnnounced | src-tauri/src/control_plane.rs:280-297 | a commit appends the one event named after its command |
| BoardRoundTrip.DeleteUndoesCreate | src-tauri/src/control_plane.rs:1198-1217 | deleting a task just created restores the task list two revisions later |
| ControlRuns.ReachableBoardsAreInOrder | src-tauri/src/control_plane.rs:463-474 | in every reachable state positions are 0..n-1 and every column equals the field of the stored task |
| ControlRuns.ChangesIffCommits | src-tauri/src/control_plane.rs:252-300 | a call changes the database exactly when its transaction commits, and then adds one operations row and one event |
| ControlRuns.AtMostOnce | src-tauri/src/control_plane.rs:260-299 | over any run an operation id takes effect at most once, with exactly one row and one event for it |
| ControlRuns.ReplayReturnsStoredResponse | src-tauri/src/control_plane.rs:260-275 | repeating a committed call, however much later, returns its response and changes nothing; another text under its id is refused |
| ControlRuns.CommitRaisesOwnRevision | src-tauri/src/control_plane.rs:1400-1424 | a commit raises its own session's revision by one exactly below the largest storable one, and no other session's |
| ControlRuns.BoardWriteCommitsIff | src-tauri/src/control_plane.rs:1327-1350 | a board write commits if and only if its expected revision is current and its board storable |
| ControlRuns.RevisionCountsCommits | src-tauri/src/control_plane.rs:1400-1424 | after any run a session's revision has advanced once for each transaction that changed its board |
| Revisions.AdvancedIsModular | src-tauri/src/control_plane.rs:1400-1424 | advancing counts modulo 2^63, and comes back to where it was exactly after a multiple of that |
| ControlRuns.RevisionsOnlyRise | src-tauri/src/control_plane.rs:1400-1424 | the revision has risen by the number of those transactions exactly if it stays below 2^63 |
| ControlRuns.SameExpectationCommitsTwiceIff | src-tauri/src/control_plane.rs:1327-1339 | of two board writes expecting the same revision, the second commits too exactly if it is acceptable otherwise and the transactions since make a multiple of 2^63 |
| ControlRuns.SameExpectationNeverCommitsTwice | src-tauri/src/control_plane.rs:1327-1339 | hence one of the two is refused, whatever happens in between, short of 2^63 transactions |
| ControlRuns.ImportedKeepsOthers | src-tauri/src/control_plane.rs:302-373 | an import changes its own session at most, and that only when the session has no work items |
| BoardEffects.ImportRefusedIff | src-tauri/src/control_plane.rs:302-373 | a file is refused exactly if it is new and readable and its name is no session id, or its session has no tasks and its board cannot be stored |
| BoardEffects.ImportStoresBoard | src-tauri/src/control_plane.rs:302-373 | a new file is remembered; a session without tasks then holds the tasks its normalised board names, in that order, its brief, and the next revision; any other session is as before |
| BoardEffects.ImportThenRead | src-tauri/src/control_plane.rs:302-373 | a board filed by id is read after its import with the same tasks and brief, each task listed once |
| ControlRuns.OpenedRemembersAll | src-tauri/src/control_plane.rs:302-373 | an open without refusal has imported every readable file, now or before |
| ControlRuns.OpenedStopsAtRefusal | src-tauri/src/control_plane.rs:302-373 | a refused open has imported exactly the files before the refused one |
| ControlRuns.ImportedAtMostOnce | src-tauri/src/control_plane.rs:302-373 | a legacy file whose bytes do not change is imported at most once over any number of opens |
| ControlRuns.ImportedSessionIsNeverRestored | src-tauri/src/control_plane.rs:302-373 | once imported, a session changes by its own commands only, however often the plane opens |
| ControlRuns.DeletedTaskIsNeverRestored | src-tauri/src/control_plane.rs:302-373 | a task gone from an imported session stays gone, whatever else is done to the session, until a call creates or writes it |
| ControlPlane.Transaction.NextPosition | src-tauri/src/control_plane.rs:1178-1182 | max(position)+1, which is the number of rows of the session |
| ControlPlane.Transaction.UpdateTask | src-tauri/src/control_plane.rs:1377-1386 | the task is exchanged at its place in its session's list, no other session changes, and the columns still agree exactly if the creation time is the old one; or the task is reported missing |
| ControlPlane.Transaction.ReplaceBoard | src-tauri/src/control_plane.rs:1327-1367 | delete, checked inserts, brief and revision end in the specified database or the specified error |
| ControlPlane.Transaction.EditTask | src-tauri/src/control_plane.rs:1187-1265 | read, change and write back one task; the write always finds the row just read |
| ControlPlane.Transaction.Execute | src-tauri/src/control_plane.rs:1138-1287 | every command, statement by statement, yields the specified database and response or the specified error |
| ControlPlane.SelectByPosition | src-tauri/src/control_plane.rs:1289-1296 | ordering a session's rows by position gives its listing |
| ControlPlane.Plane.ReadBoard | src-tauri/src/control_plane.rs:1289-1308 | the board read is the session's revision, listing, tasks and brief |
| ControlPlane.Plane.Execute | src-tauri/src/control_plane.rs:252-300 | lookup, read or transaction with commit: database and reply are the specified ones, and an error leaves the database unchanged |
| ControlPlane.Plane.ImportLegacyBoards | src-tauri/src/control_plane.rs:302-373 | files are imported one transaction each, up to the first refusal |
| LegacyRuns.RunsAreKeptAndSettled | src-tauri/src/control_plane.rs:819-871 | every run is kept one-to-one with its trigger, worktree and times; known ends stay, anything else is a failure that carries its summary or names its status; none stays active, and an interrupted one gets a finish time and an error |
| LegacyRuns.AutomationsAreKept | src-tauri/src/control_plane.rs:739-818 | every automation is kept with its id, switch and dates, in the mode its old text says |
| LegacyRuns.ManualIff | src-tauri/src/control_plane.rs:772 | a run was started by hand exactly if its token starts with manual: in whatever case |
| LegacyRuns.RunNumbersAreDense | src-tauri/src/control_plane.rs:827 | an automation's k runs carry exactly the numbers 1..k |
| LegacyRuns.RunNumbersFollowCreation | src-tauri/src/control_plane.rs:827 | numbers are distinct and follow the creation time, and the first difference of the ids between equals |
| LegacyRuns.LastRunIsNewest | src-tauri/src/control_plane.rs:768-773 | the rebuilt last_run_at is the newest creation time of the automation's runs not started by hand, or absent without any |
| LegacyRuns.RebuildSucceedsIff | src-tauri/src/control_plane.rs:678-877 | the rebuild goes through exactly when its rows meet the keys, references and checks of the new tables; since new numbers never clash, only orphaned runs and enabled flags other than 0 and 1 stand in the way |
| PlainText.PlainText | src-tauri/examples/smoke_terminal.rs:476-531 | the nested loops emit exactly what the one-byte machine emits, unterminated sequences included |
| PlainText.StripInChunks | src-tauri/examples/smoke_terminal.rs:476-531 | stripping in two chunks with the mode carried over loses nothing |
| PlainText.ChunksStripIndependentlyIff | src-tauri/examples/smoke_terminal.rs:476-531 | stripping distributes over concatenation if and only if the first part ends in ground mode |
| PlainText.StripIsPlain | src-tauri/examples/smoke_terminal.rs:518-526 | the output holds only 0x20 to 0x7e and is no longer than the input |
| PlainText.PlainIsUntouched | src-tauri/examples/smoke_terminal.rs:522-525 | a text is left as it is exactly when it is plain |
| PlainText.StripTwice | src-tauri/examples/smoke_terminal.rs:476-531 | stripping is idempotent |
| EscapePieces.StripReadsPieces | src-tauri/examples/smoke_terminal.rs:476-531 | by bytes: characters become spaces, stay or go; escapes with one byte, control sequences to their first byte in 0x40 to 0x7e, and commands to a bell or an escape and a backslash vanish; what is never finished swallows the rest |
| EscapePieces.EveryOutputHasPieces | src-tauri/examples/smoke_terminal.rs:476-531 | every output is made of such pieces, so that the above says what is emitted for each |
| EscapePieces.SequenceVanishes | src-tauri/examples/smoke_terminal.rs:484-517 | a complete sequence of any kind vanishes, whatever stands around it |
| EscapePieces.TextIsBytewise | src-tauri/examples/smoke_terminal.rs:518-527 | a text without escapes is translated byte by byte |
| MonitorGaps.ScanRow | src/components/captureOverlay.ts:89-103 | the runs of a row are its uncovered cells, in order, non-empty and maximal |
| MonitorGaps.MonitorGapRects | src/components/captureOverlay.ts:85-106 | the rectangles are disjoint, inside the bounds, maximal, and cover exactly the cells with an uncovered corner; none without monitors |
| MonitorGaps.GapsAreExactIff | src/components/captureOverlay.ts:85-106 | the painted pixels are exactly the uncovered ones if and only if there are monitors and every cell is shown whole or not at all |
| MonitorGaps.AlignedIsUniform | src/components/captureOverlay.ts:85-106 | that is so when the monitor edges lie on the grid |
| MonitorGaps.EveryPixelIsExact | src/components/captureOverlay.ts:85-106 | and always with step 1 |
| MonitorGaps.AcceptedForPixelIff | src/components/captureOverlay.ts:116-123 | a non-empty selection is accepted exactly for a pixel on a monitor, if and only if it does not meet monitors without area only |
| MonitorGaps.RejectedIffInGaps | src/components/captureOverlay.ts:85-123 | for exact gaps: a non-empty selection inside the bounds is rejected exactly when all its pixels are painted, if and only if there are monitors and it does not meet ones without area only; without monitors all is rejected and nothing painted |
| MonitorGaps.DefaultStepHidesShownPixels | src/components/captureOverlay.ts:85 | a screen on which the default step paints over a pixel a monitor shows |
| MonitorGaps.DefaultStepMissesDarkPixels | src/components/captureOverlay.ts:85 | a screen on which it leaves out a pixel no monitor shows |
| MonitorGaps.EmptyMonitorAcceptsGaps | src/components/captureOverlay.ts:116-123 | a monitor without area that makes a selection acceptable which shows no pixel |
| UrlRecency.History.RecordVisit | src/browser/browserUrlHistory.ts:35-56 | whatever was called before, under an increasing clock the store then shows the bounded move-to-front list of all calls so far with counts, times and latest titles |
| UrlRecency.History.RecordVisitTitle | src/browser/browserUrlHistory.ts:62-77 | the same after a title correction |
| UrlRecency.HistoryIsMoveToFront | src/browser/browserUrlHistory.ts:22-77 | under an increasing clock the history is the first 300 URLs of the unbounded move-to-front list, unique, with last visit times and the visits since each last entered |
| UrlRecency.CountedIff | src/browser/browserUrlHistory.ts:35-41 | a visit counts exactly if it is stored and its trimmed address is http(s), not blank and not about:blank |
| UrlRecency.ReadIsNewest | src/browser/browserUrlHistory.ts:22-33 | whatever is stored, its proper entries are read newest first, at most 300 of them |
| UrlRecency.TakeMoveToFront | src/browser/browserUrlHistory.ts:49-52 | what was cut off never influences the remembered part again |
| UrlRecency.TitlesAreLatest | src/browser/browserUrlHistory.ts:58-77 | every entry carries the last title its URL was given by a visit or a correction |
| UrlRecency.VisitLabels | src/browser/browserUrlHistory.ts:42-48 | a counted visit labels its address with its trimmed title, or with the address if the title is blank |
| UrlRecency.CorrectionLabels | src/browser/browserUrlHistory.ts:62-77 | a correction labels its trimmed address with its trimmed title, unless one of them is blank |
| SurfaceQueue.StepIsSound | src/browser/BrowserDockPanel.tsx:82-99 | every event keeps: one call in flight at most, calls in strictly rising order, skipped requests superseded, and the surface at the request of the last call that took effect, whatever was skipped or failed since |
| SurfaceQueue.AnswersAreOutcomes | src/browser/BrowserDockPanel.tsx:82-99 | in every run each request whose call was issued is answered as that very call came back |
| SurfaceQueue.LatestWins | src/browser/BrowserDockPanel.tsx:82-99 | when every request is answered the latest was issued, and shows if its call succeeded |
| SurfaceQueue.DrainShowsLatest | src/browser/BrowserDockPanel.tsx:82-99 | from every state at most one more call brings the surface to the latest request |
| SurfaceQueue.Queue.RunLink | src/browser/BrowserDockPanel.tsx:86-95 | a link skips itself unless it is still the latest |
| LifecycleBuffer.Buffer.Receive | src/browser/BrowserDockPanel.tsx:175-185 | an event of the page reaches every subscriber, or is kept among the newest 64 |
| LifecycleBuffer.Buffer.Subscribe | src/browser/BrowserDockPanel.tsx:155-159 | a subscriber is first handed the newest 64 of what was missed, in order |
| PanelReducer.GenerationFallsIff | src/browser/state.ts:62-126 | the generation falls exactly on an outdated device-metrics reply |
| PanelReducer.GenerationIsTheHighest | src/browser/state.ts:62-169 | without such replies the page is at the newest generation announced for it, in whatever order events arrive |
| PanelReducer.AnnotationStaysAttached | src/browser/state.ts:62-169 | a held annotation is of this page, not newer than it, and carries the draft comment |
| PanelReducer.AnnotationGoesStaleIff | src/browser/state.ts:120-121 | a current annotation goes stale exactly when a device-metrics reply changes the generation under it |
| PanelReducer.AnnotationStaysCurrent | src/browser/state.ts:62-169 | if replies carry the page's generation an annotation is never stale |
| PanelReducer.DeliveredIsCurrent | src/browser/BrowserPanel.tsx:683-692 | a held annotation is copied exactly if it is of the page's newest generation, with the comment on screen; otherwise it is dropped |
| PanelFields.PageShowsLatest | src/browser/state.ts:62-169 | after every run the page shows the load state, error, address and title that the last accepted action or event gave |
| PanelFields.VisibilityIsLatest | src/browser/state.ts:62-169 | the same of its visibility and device metrics |
| PanelFields.DraftsAreLatest | src/browser/state.ts:62-169 | the same of the address bar, the annotation, its comment and the design mode, which a new navigation clears |
| PanelFields.SettingsAreLatest | src/browser/state.ts:62-169 | the same of the remaining fields |
| PanelFields.WaitingIsLatest | src/browser/state.ts:104-115 | in every run a prompt waits from when it is asked until it is resolved |
| PanelFields.LineStep | src/browser/state.ts:104-115 | a prompt joins the end of its line unless it waits there already, a resolved one leaves its place, and the others stay |
| PanelFields.DownloadStep | src/browser/state.ts:116-119 | a changed download moves to the end, and the oldest beyond 32 fall off |
| PanelReducer.ErrorsMeanFailure | src/browser/state.ts:62-169 | a page shows an error exactly when its load failed, if replies keep to that |
| PanelReducer.QueuesStayOrderly | src/browser/state.ts:104-119 | no prompt is queued twice and at most 32 distinct downloads are kept |
| Framing.Writer.WriteFrame | src-tauri/src/protocol.rs:844-860 | a message is written as one frame, or refused without writing |
| Framing.FramedIff | src-tauri/src/protocol.rs:849-854 | a message is framed exactly if it encodes to at most 16 MiB, and otherwise refused with the reason |
| Framing.FrameLayout | src-tauri/src/protocol.rs:856-857 | a frame is the length in four bytes, most significant first, and the encoding |
| Framing.Reader.ReadFrame | src-tauri/src/protocol.rs:862-886 | the chunk loop reads exactly the declared length and answers as one exact read would |
| Framing.ParsedAs | src-tauri/src/protocol.rs:867-885 | a stream is an early end, a refusal of a declared length over 16 MiB, or what the codec makes of exactly the declared bytes |
| Framing.FrameRoundTrip | src-tauri/src/protocol.rs:844-886 | a frame is read back as its message and ends where the next begins |
| Framing.StreamRoundTrip | src-tauri/src/protocol.rs:844-886 | writing any messages that encode to at most 16 MiB and reading until the end gives exactly the messages and consumes exactly the bytes |
| Framing.PrefixIsIncomplete | src-tauri/src/protocol.rs:862-886 | no strict prefix of a frame decodes to a message |
| Framing.CutStreamYieldsCompleteFrames | src-tauri/src/protocol.rs:862-886 | a stream cut anywhere yields exactly the messages whose frames are complete, then the early end |

## Left out

- Power loss and unsynced data: a stop ends the process, not the disk; directory creation and other file-system errors outside the traces are not modelled.
- CrashRecovery.RunIsARegister: a failing file-system call is allowed to remove the temporary file at any step of an operation, which covers more outcomes than the code has; errors inside the Windows replacement call leave one of the modelled intermediate disks.
- Backup rotation, quarantine and restoration of a corrupt database file, and PRAGMA setup of the control plane: file handling around the modelled tables.
- Stops inside the schema migration, and the migration steps other than the automation rebuild; of that rebuild the JSON columns (precheck, output snapshot, policy goal) are not modelled.
- `normalize_board` and `apply_task_patch` change their arguments in place; they are functions on values here, since no caller sees the argument again. Several clock readings within one command are one reading.
- Rollback copies of imported files, and file names that are not valid text.
- The nested loops of `plain_text` for control sequences and operating system commands are separate methods.
- LifecycleBuffer.Buffer.Unsubscribe: states which subscribers remain, not their order.
- Framing.Reader.ReadFrame: after an early end the reader is taken to have drained the stream; message encoding itself is a parameter.
- Initial panel state, React rendering, and effects; the body of annotations, prompts and metrics is opaque text.
- Non-integer bounds and DPI scaling of the capture overlay.
- Authentication, pane leases, orchestration, the automation scheduler and worktrees.
