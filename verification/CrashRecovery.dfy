/**
 What the document store keeps when the process stops at an arbitrary point.

 `Visible` is the document a disk stands for.  Writing is shown to change it in exactly
 one step, loading not at all, so that any run of interrupted writes and loads behaves
 like one register holding one document.
 */
module CrashRecovery {
  import opened Outcomes
  import opened DocumentStore

  datatype Standing<+T> = Document(value: T) | Absent | Rejected

  function StandingOf<T>(file: Parsed<T>): Standing<T> {
    match file
    case Valid(value) => Document(value)
    case Unsupported(_, _) => Rejected
    case _ => Absent
  }

  /** The document a disk stands for: the primary, or the backup when the primary is unusable. */
  function Visible<T>(d: Disk, parse: Parser<T>): Standing<T> {
    var primary := ReadAndParse(d, Primary, parse);
    if primary.Invalid? || primary.Missing? then StandingOf(ReadAndParse(d, Backup, parse)) else StandingOf(primary)
  }

  /** A write may replace the primary without hiding the backup. */
  predicate Replaceable<T>(d: Disk, parse: Parser<T>) {
    !ReadAndParse(d, Primary, parse).Invalid?
  }

  /** No disk of the trace stands for anything but `standing`. */
  ghost predicate Steady<T>(trace: seq<Disk>, parse: Parser<T>, standing: Standing<T>) {
    forall i :: 0 <= i < |trace| ==> Visible(trace[i], parse) == standing
  }

  ghost predicate AllReplaceable<T>(trace: seq<Disk>, parse: Parser<T>) {
    forall i :: 0 <= i < |trace| ==> Replaceable(trace[i], parse)
  }

  lemma SteadyConcat<T>(a: seq<Disk>, b: seq<Disk>, parse: Parser<T>, standing: Standing<T>)
    ensures Steady(a, parse, standing) && Steady(b, parse, standing) ==> Steady(a + b, parse, standing)
    ensures AllReplaceable(a, parse) && AllReplaceable(b, parse) ==> AllReplaceable(a + b, parse)
  {
  }

  function ButLast<T>(s: seq<T>): seq<T>
    requires s != []
  {
    s[..|s| - 1]
  }

  // ---------------------------------------------------------------------------
  // One write
  // ---------------------------------------------------------------------------

  lemma ReplaceIsAtomic<T>(platform: Platform, d: Disk, keepBackup: bool, now: int, parse: Parser<T>)
    requires Temp in d.files && Replaceable(d, parse)
    ensures var t := ReplaceTrace(platform, d, keepBackup, now);
            && t != []
            && Steady(ButLast(t), parse, Visible(d, parse)) && AllReplaceable(ButLast(t), parse)
            && Primary in LastOr(d, t).files && LastOr(d, t).files[Primary] == d.files[Temp]
            && Temp !in LastOr(d, t).files
  {
  }

  /** Only the last disk of the trace stands for `after`; those before it stand for `before`. */
  ghost predicate ChangesLast<T>(trace: seq<Disk>, parse: Parser<T>, before: Standing<T>, after: Standing<T>) {
    && trace != []
    && Steady(ButLast(trace), parse, before) && Visible(trace[|trace| - 1], parse) == after
    && AllReplaceable(trace, parse)
  }

  lemma ChangesLastConcat<T>(a: seq<Disk>, b: seq<Disk>, parse: Parser<T>, before: Standing<T>, after: Standing<T>)
    requires Steady(a, parse, before) && AllReplaceable(a, parse) && ChangesLast(b, parse, before, after)
    ensures ChangesLast(a + b, parse, before, after)
  {
    assert ButLast(a + b) == a + ButLast(b);
  }

  lemma InstallIsAtomic<T>(platform: Platform, d: Disk, content: Bytes, keepBackup: bool, now: int, parse: Parser<T>)
    requires Replaceable(d, parse) && parse(content).Ok?
    ensures var t := InstallTrace(platform, d, content, keepBackup, now);
            && ChangesLast(t, parse, Visible(d, parse), Document(parse(content).value))
            && Primary in LastOr(d, t).files && LastOr(d, t).files[Primary] == File(content, now)
            && Temp !in LastOr(d, t).files
  {
    var staged := Put(d, Temp, content, now);
    var fill, replace := FillTrace(d, Temp, content, now), ReplaceTrace(platform, staged, keepBackup, now);
    ReplaceIsAtomic(platform, staged, keepBackup, now, parse);
    assert Visible(staged, parse) == Visible(d, parse);
    assert replace == ButLast(replace) + [LastOr(d, replace)];
    ChangesLastConcat(fill, replace, parse, Visible(d, parse), Document(parse(content).value));
  }

  /** A write changes the visible document in its very last step, and in no other. */
  lemma WriteIsAtomic<T>(platform: Platform, d: Disk, bytes: Bytes, now: int, parse: Parser<T>)
    requires Replaceable(d, parse) && parse(bytes).Ok?
    ensures var t := WriteTrace(platform, d, bytes, now);
            if WriterActive(d, now) then Steady(t, parse, Visible(d, parse)) && AllReplaceable(t, parse)
            else
              && ChangesLast(t, parse, Visible(d, parse), Document(parse(bytes).value))
              && Temp !in LastOr(d, t).files
  {
    var clean, cleanup := Cleaned(d, now), CleanupTrace(d, now);
    assert Visible(clean, parse) == Visible(d, parse) && Replaceable(clean, parse);
    if !WriterActive(d, now) {
      var install := InstallTrace(platform, clean, bytes, true, now);
      InstallIsAtomic(platform, clean, bytes, true, now, parse);
      ChangesLastConcat(cleanup, install, parse, Visible(d, parse), Document(parse(bytes).value));
    }
  }

  /** The disk found when a trace is cut short after `reach` steps. */
  function StoppedAt(d: Disk, trace: seq<Disk>, reach: nat): Disk {
    if reach == 0 then d else if reach <= |trace| then trace[reach - 1] else LastOr(d, trace)
  }

  lemma StopIsSteady<T>(d: Disk, trace: seq<Disk>, reach: nat, parse: Parser<T>)
    requires Steady(if reach < |trace| then trace[..reach] else trace, parse, Visible(d, parse))
    ensures Visible(StoppedAt(d, trace, reach), parse) == Visible(d, parse)
  {
    if 0 < reach < |trace| {
      assert StoppedAt(d, trace, reach) == trace[..reach][reach - 1];
    }
  }

  lemma StoppedWrite<T>(platform: Platform, d: Disk, bytes: Bytes, now: int, reach: nat, parse: Parser<T>)
    requires parse(bytes).Ok? && Replaceable(d, parse)
    ensures var t := WriteTrace(platform, d, bytes, now);
            var stopped := StoppedAt(d, t, reach);
            && Visible(stopped, parse)
               == (if !WriterActive(d, now) && reach >= |t| then Document(parse(bytes).value) else Visible(d, parse))
            && Replaceable(stopped, parse)
  {
    var t := WriteTrace(platform, d, bytes, now);
    WriteIsAtomic(platform, d, bytes, now, parse);
    if WriterActive(d, now) {
      StopIsSteady(d, t, reach, parse);
    } else if 0 < reach < |t| {
      assert StoppedAt(d, t, reach) == ButLast(t)[reach - 1];
    }
  }

  /** Every stop during a write leaves the old or the new document. */
  ghost predicate WriteSurvivesStops<T>(platform: Platform, d: Disk, bytes: Bytes, now: int, parse: Parser<T>)
    requires parse(bytes).Ok?
  {
    forall reach: nat ::
      var seen := Visible(StoppedAt(d, WriteTrace(platform, d, bytes, now), reach), parse);
      seen == Visible(d, parse) || seen == Document(parse(bytes).value)
  }

  /** No beginning of the primary reads as a document other than `value`, or as one to reject. */
  ghost predicate BeginningsHarmless<T>(d: Disk, value: T, parse: Parser<T>)
    requires Primary in d.files
  {
    var garbage := d.files[Primary].content;
    forall i :: 0 <= i <= |garbage| ==>
      parse(garbage[..i]) == Err(InvalidDocument) || parse(garbage[..i]) == Ok(value)
  }

  /**
   The primary is not garbage, or there is nothing to lose: no readable backup that the
   garbage could hide, and, where the backup is made by copying, no beginning of the
   garbage that would pass for a document.
   */
  ghost predicate SafeToReplace<T>(platform: Platform, d: Disk, value: T, parse: Parser<T>) {
    || Replaceable(d, parse)
    || (Visible(d, parse).Absent? && (platform == Windows || BeginningsHarmless(d, value, parse)))
  }

  /**
   A write leaves the old or the new document, wherever it stops, exactly when it is
   refused or safe.  Over garbage it is not: the garbage is moved or copied over the
   backup, which may be the only readable file.
   */
  lemma WriteSurvivesStopsIff<T>(platform: Platform, d: Disk, bytes: Bytes, now: int, parse: Parser<T>)
    requires parse(bytes).Ok?
    ensures WriteSurvivesStops(platform, d, bytes, now, parse)
            <==> WriterActive(d, now) || SafeToReplace(platform, d, parse(bytes).value, parse)
  {
    var t := WriteTrace(platform, d, bytes, now);
    if WriterActive(d, now) {
      assert forall reach: nat :: Visible(StoppedAt(d, t, reach), parse) == Visible(d, parse);
    } else if Replaceable(d, parse) {
      forall reach: nat
        ensures var seen := Visible(StoppedAt(d, t, reach), parse);
                seen == Visible(d, parse) || seen == Document(parse(bytes).value)
      {
        StoppedWrite(platform, d, bytes, now, reach, parse);
      }
    } else if !Visible(d, parse).Absent? {
      GarbageHidesBackup(platform, d, bytes, now, parse);
      assert t[|t| - 2] == StoppedAt(d, t, |t| - 1);
    } else {
      WriteOverNothing(platform, d, bytes, now, parse);
    }
  }

  /** The parts of the trace of a write over a primary. */
  lemma WriteParts<T>(platform: Platform, d: Disk, bytes: Bytes, now: int, parse: Parser<T>)
    requires !WriterActive(d, now) && !Replaceable(d, parse)
    ensures var clean := Cleaned(d, now);
            var staged := Put(clean, Temp, bytes, now);
            WriteTrace(platform, d, bytes, now)
            == (CleanupTrace(d, now) + FillTrace(clean, Temp, bytes, now)) + ReplaceTrace(platform, staged, true, now)
  {
  }

  lemma GarbageHidesBackup<T>(platform: Platform, d: Disk, bytes: Bytes, now: int, parse: Parser<T>)
    requires !WriterActive(d, now) && !Replaceable(d, parse)
    ensures var t := WriteTrace(platform, d, bytes, now);
            |t| >= 2 && Visible(t[|t| - 2], parse) == Absent
  {
    var staged, t := Put(Cleaned(d, now), Temp, bytes, now), WriteTrace(platform, d, bytes, now);
    var replace := ReplaceTrace(platform, staged, true, now);
    WriteParts(platform, d, bytes, now, parse);
    var bad := replace[|replace| - 2];
    assert t[|t| - 2] == bad;
    assert bad.files[Backup].content == d.files[Primary].content;
  }

  function ContentStanding<T>(content: Bytes, parse: Parser<T>): Standing<T> {
    match parse(content)
    case Ok(value) => Document(value)
    case Err(InvalidDocument) => Absent
    case Err(_) => Rejected
  }

  /** What the disk stands for while a write replaces garbage that hides no document. */
  lemma ReplaceOverNothing<T>(platform: Platform, d: Disk, now: int, i: nat, parse: Parser<T>)
    requires Temp in d.files && !Replaceable(d, parse) && Visible(d, parse).Absent?
    requires i < |ReplaceTrace(platform, d, true, now)|
    ensures var garbage, t := d.files[Primary].content, ReplaceTrace(platform, d, true, now);
            && |t| == (if platform == Windows then 2 else |garbage| + 2)
            && (i == |t| - 1 ==> ReadAndParse(t[i], Primary, parse) == ReadAndParse(d, Temp, parse))
            && (i < |t| - 1 ==>
                  Visible(t[i], parse) == if platform == Windows then Absent else ContentStanding(garbage[..i], parse))
  {
  }

  /** The disks of a write over garbage that hides no document, each named by the stop that finds it. */
  lemma StopOverNothing<T>(platform: Platform, d: Disk, bytes: Bytes, now: int, reach: nat, parse: Parser<T>)
    requires parse(bytes).Ok? && !WriterActive(d, now) && !Replaceable(d, parse) && Visible(d, parse).Absent?
    ensures var garbage, t := d.files[Primary].content, WriteTrace(platform, d, bytes, now);
            var start := |CleanupTrace(d, now)| + |bytes| + 1;
            && |t| == start + (if platform == Windows then 2 else |garbage| + 2)
            && Visible(StoppedAt(d, t, reach), parse)
               == if reach >= |t| then Document(parse(bytes).value)
                  else if reach <= start || platform == Windows then Absent
                  else ContentStanding(garbage[..reach - start - 1], parse)
  {
    var clean := Cleaned(d, now);
    var staged, t := Put(clean, Temp, bytes, now), WriteTrace(platform, d, bytes, now);
    var cleanup, fill := CleanupTrace(d, now), FillTrace(clean, Temp, bytes, now);
    var replace, start := ReplaceTrace(platform, staged, true, now), |cleanup| + |fill|;
    WriteParts(platform, d, bytes, now, parse);
    ReplaceOverNothing(platform, staged, now, 0, parse);
    var at := if reach < |t| then reach else |t|;
    if 0 < at <= start {
      assert t[at - 1] == (cleanup + fill)[at - 1];
    } else if start < at {
      assert t[at - 1] == replace[at - start - 1];
      ReplaceOverNothing(platform, staged, now, at - start - 1, parse);
    }
  }

  lemma WriteOverNothing<T>(platform: Platform, d: Disk, bytes: Bytes, now: int, parse: Parser<T>)
    requires parse(bytes).Ok? && !WriterActive(d, now) && !Replaceable(d, parse) && Visible(d, parse).Absent?
    ensures WriteSurvivesStops(platform, d, bytes, now, parse)
            <==> platform == Windows || BeginningsHarmless(d, parse(bytes).value, parse)
  {
    var garbage, t := d.files[Primary].content, WriteTrace(platform, d, bytes, now);
    var start := |CleanupTrace(d, now)| + |bytes| + 1;
    if platform == Windows || BeginningsHarmless(d, parse(bytes).value, parse) {
      forall reach: nat
        ensures var seen := Visible(StoppedAt(d, t, reach), parse);
                seen == Visible(d, parse) || seen == Document(parse(bytes).value)
      {
        StopOverNothing(platform, d, bytes, now, reach, parse);
      }
    } else {
      var i :| 0 <= i <= |garbage| && parse(garbage[..i]) != Err(InvalidDocument)
               && parse(garbage[..i]) != Ok(parse(bytes).value);
      StopOverNothing(platform, d, bytes, now, start + i + 1, parse);
    }
  }

  // ---------------------------------------------------------------------------
  // One load
  // ---------------------------------------------------------------------------

  lemma RestoreIsInvisible<T>(platform: Platform, d: Disk, now: int, parse: Parser<T>)
    requires Primary !in d.files && ReadAndParse(d, Backup, parse).Valid?
    ensures var t := RestoreTrace(platform, d, now);
            && Steady(t, parse, Visible(d, parse)) && AllReplaceable(t, parse)
            && (WriterActive(d, now) || ReadAndParse(LastOr(d, t), Primary, parse) == ReadAndParse(d, Backup, parse))
  {
    var clean, content := Cleaned(d, now), d.files[Backup].content;
    assert Visible(clean, parse) == Visible(d, parse) == Document(parse(content).value);
    if !WriterActive(d, now) {
      var install := InstallTrace(platform, clean, content, false, now);
      InstallIsAtomic(platform, clean, content, false, now, parse);
      assert install == ButLast(install) + [LastOr(d, install)];
      assert ReadAndParse(LastOr(d, install), Primary, parse) == Valid(parse(content).value);
      assert Steady(install, parse, Visible(d, parse)) && AllReplaceable(install, parse);
      LastOrConcat(d, CleanupTrace(d, now), install);
    }
  }

  lemma SettleIsInvisible<T>(platform: Platform, d: Disk, later: int, parse: Parser<T>)
    requires !Visible(d, parse).Rejected?
    ensures Steady(SettleTrace(platform, d, parse, later), parse, Visible(d, parse))
    ensures Replaceable(d, parse) ==> AllReplaceable(SettleTrace(platform, d, parse, later), parse)
  {
    if !ReadAndParse(d, Primary, parse).Valid? {
      var aside := LastOr(d, SetAsideTrace(d));
      assert Visible(aside, parse) == Visible(d, parse);
      if ReadAndParse(aside, Backup, parse).Valid? {
        RestoreIsInvisible(platform, aside, later, parse);
      }
    }
  }

  /** Loading a disk that is not rejected never changes what it stands for, wherever it stops. */
  lemma LoadIsInvisible<T>(platform: Platform, d: Disk, now: int, later: int, parse: Parser<T>)
    requires !Visible(d, parse).Rejected?
    ensures Steady(LoadTrace(platform, d, parse, now, later), parse, Visible(d, parse))
    ensures Replaceable(d, parse) ==> AllReplaceable(LoadTrace(platform, d, parse, now, later), parse)
  {
    var clean, cleanup := Cleaned(d, now), CleanupTrace(d, now);
    assert Visible(clean, parse) == Visible(d, parse) && Replaceable(clean, parse) == Replaceable(d, parse);
    SettleIsInvisible(platform, clean, later, parse);
    SteadyConcat(cleanup, SettleTrace(platform, clean, parse, later), parse, Visible(d, parse));
  }

  /**
   Loading a rejected disk moves one rejected file away.  An unsupported primary uncovers
   the backup, which the next load answers with, or rejects in its turn; an unsupported
   backup leaves nothing.
   */
  lemma RejectedLoad<T>(platform: Platform, d: Disk, now: int, later: int, parse: Parser<T>)
    requires Visible(d, parse).Rejected?
    ensures LoadTrace(platform, d, parse, now, later) != []
    ensures Visible(Loaded(platform, d, parse, now, later), parse)
         == if ReadAndParse(d, Primary, parse).Unsupported? then StandingOf(ReadAndParse(d, Backup, parse)) else Absent
  {
    var clean := Cleaned(d, now);
    var aside := LastOr(clean, SetAsideTrace(clean));
    assert ReadAndParse(clean, Primary, parse) == ReadAndParse(d, Primary, parse);
    assert ReadAndParse(aside, Backup, parse) == ReadAndParse(d, Backup, parse) && Primary !in aside.files;
    LastOrConcat(d, CleanupTrace(d, now), SettleTrace(platform, clean, parse, later));
    if !ReadAndParse(d, Primary, parse).Unsupported? {
      LastOrConcat(clean, SetAsideTrace(clean), RecoverTrace(platform, aside, parse, later));
      var moved := QuarantinedDisk(aside, Backup);
      assert LastOr(aside, RecoverTrace(platform, aside, parse, later)) == moved;
      assert Primary !in moved.files && Backup !in moved.files;
    }
  }

  /** With an unsupported primary a load does one thing: it moves it away. */
  lemma UnsupportedTrace<T>(platform: Platform, d: Disk, now: int, later: int, parse: Parser<T>)
    requires ReadAndParse(d, Primary, parse).Unsupported?
    ensures Primary in Cleaned(d, now).files
    ensures LoadTrace(platform, d, parse, now, later)
         == CleanupTrace(d, now) + [QuarantinedDisk(Cleaned(d, now), Primary)]
    ensures Steady(CleanupTrace(d, now), parse, Visible(d, parse))
  {
  }

  /** So loading is invisible at every step exactly when nothing is rejected, or everything is. */
  lemma LoadIsInvisibleIff<T>(platform: Platform, d: Disk, now: int, later: int, parse: Parser<T>)
    ensures Steady(LoadTrace(platform, d, parse, now, later), parse, Visible(d, parse))
            <==> (Visible(d, parse).Rejected? ==>
                    ReadAndParse(d, Primary, parse).Unsupported? && ReadAndParse(d, Backup, parse).Unsupported?)
  {
    if !Visible(d, parse).Rejected? {
      LoadIsInvisible(platform, d, now, later, parse);
    } else {
      var t := LoadTrace(platform, d, parse, now, later);
      RejectedLoad(platform, d, now, later, parse);
      assert t[|t| - 1] == Loaded(platform, d, parse, now, later);
      if ReadAndParse(d, Primary, parse).Unsupported? {
        UnsupportedTrace(platform, d, now, later, parse);
        SteadyConcat(CleanupTrace(d, now), [t[|t| - 1]], parse, Visible(d, parse));
      }
    }
  }

  /** A temporary file that neither clock reading of a load considers abandoned. */
  predicate Blocked(d: Disk, now: int, later: int) {
    WriterActive(d, now) && WriterActive(Cleaned(d, now), later)
  }

  /**
   A load answers with the visible document; the default appears only when there is
   none, and an active writer only when the document must be restored from the backup.
   */
  lemma LoadAnswersVisible<T>(d: Disk, default: T, parse: Parser<T>, now: int, later: int)
    ensures var result := LoadResult(d, default, parse, now, later);
            match Visible(d, parse)
            case Document(value) =>
              if Blocked(d, now, later) && !ReadAndParse(d, Primary, parse).Valid? then result == Err(ActiveWriter)
              else result.Ok? && result.value.value == value
                   && result.value.source == if ReadAndParse(d, Primary, parse).Valid? then FromPrimary
                                             else RestoredBackup
            case Absent => result.Ok? && result.value.value == default && result.value.source.Default?
            case Rejected => result.Err? && result.error.UnsupportedDocument?
  {
    var clean := Cleaned(d, now);
    var aside := LastOr(clean, SetAsideTrace(clean));
    assert Visible(clean, parse) == Visible(d, parse);
    assert WriterActive(aside, later) == WriterActive(clean, later);
  }

  /** A rejection says which schema was found and which is supported, and where the file has gone. */
  lemma RejectionNames<T>(platform: Platform, d: Disk, default: T, parse: Parser<T>, now: int, later: int)
    requires Visible(d, parse).Rejected? && Fresh(d)
    ensures var result, end := LoadResult(d, default, parse, now, later), Loaded(platform, d, parse, now, later);
            var name := if ReadAndParse(d, Primary, parse).Unsupported? then Primary else Backup;
            && result.Err? && result.error.UnsupportedDocument? && name in d.files
            && parse(d.files[name].content) == Err(UnsupportedSchema(result.error.found, result.error.supported))
            && result.error.quarantine.Quarantined? && result.error.quarantine !in d.files
            && result.error.quarantine in end.files && end.files[result.error.quarantine] == d.files[name]
            && name !in end.files
  {
    var clean := Cleaned(d, now);
    var aside := LastOr(clean, SetAsideTrace(clean));
    LastOrConcat(d, CleanupTrace(d, now), SettleTrace(platform, clean, parse, later));
    assert ReadAndParse(clean, Primary, parse) == ReadAndParse(d, Primary, parse);
    if !ReadAndParse(d, Primary, parse).Unsupported? {
      LastOrConcat(clean, SetAsideTrace(clean), RecoverTrace(platform, aside, parse, later));
      assert ReadAndParse(aside, Backup, parse) == ReadAndParse(d, Backup, parse);
      assert aside.files[Backup] == d.files[Backup];
    }
  }

  /** Loading again right after a successful load gives the same value and moves nothing. */
  lemma LoadTwice<T>(platform: Platform, d: Disk, default: T, parse: Parser<T>, now: int, later: int,
                     now': int, later': int)
    requires LoadResult(d, default, parse, now, later).Ok?
    ensures var first := LoadResult(d, default, parse, now, later);
            var again := LoadResult(Loaded(platform, d, parse, now, later), default, parse, now', later');
            again.Ok? && again.value.value == first.value.value && again.value.quarantined == []
  {
    var clean := Cleaned(d, now);
    var aside, end := LastOr(clean, SetAsideTrace(clean)), Loaded(platform, d, parse, now, later);
    LastOrConcat(d, CleanupTrace(d, now), SettleTrace(platform, clean, parse, later));
    if !ReadAndParse(clean, Primary, parse).Valid? {
      LastOrConcat(clean, SetAsideTrace(clean), RecoverTrace(platform, aside, parse, later));
      if ReadAndParse(aside, Backup, parse).Valid? {
        RestoreIsInvisible(platform, aside, later, parse);
        assert ReadAndParse(end, Primary, parse) == ReadAndParse(aside, Backup, parse);
      } else {
        assert Primary !in end.files && Backup !in end.files;
      }
    }
  }

  /** A temporary file blocks a writer exactly while its age, in true time, is under ten minutes. */
  lemma ActiveWhileYoung(d: Disk, now: int)
    ensures WriterActive(d, now) <==> Temp in d.files && now - d.files[Temp].modified < 600_000
  {
  }

  /** The disks of a write, once it has begun, hold its temporary file until the last. */
  lemma WriteHoldsTemp(platform: Platform, d: Disk, bytes: Bytes, now: int, i: nat)
    requires !WriterActive(d, now)
    requires |CleanupTrace(d, now)| <= i < |WriteTrace(platform, d, bytes, now)|
    ensures var t := WriteTrace(platform, d, bytes, now);
            && (Temp in t[i].files <==> i < |t| - 1)
            && (Temp in t[i].files ==> t[i].files[Temp].modified == now)
  {
    var clean, cleanup := Cleaned(d, now), CleanupTrace(d, now);
    var fill, staged := FillTrace(clean, Temp, bytes, now), Put(clean, Temp, bytes, now);
    var replace, t := ReplaceTrace(platform, staged, true, now), WriteTrace(platform, d, bytes, now);
    assert t == (cleanup + fill) + replace;
    if i < |cleanup| + |fill| {
      assert t[i] == fill[i - |cleanup|];
    } else {
      assert t[i] == replace[i - |cleanup| - |fill|];
    }
  }

  /** A write that stops midway blocks the next one for ten minutes, and no longer; a finished one does not. */
  lemma LeftoverBlocks(platform: Platform, d: Disk, bytes: Bytes, now: int, reach: nat, now': int)
    requires !WriterActive(d, now) && reach > |CleanupTrace(d, now)|
    ensures var t := WriteTrace(platform, d, bytes, now);
            WriterActive(StoppedAt(d, t, reach), now') <==> reach < |t| && now' - now < 600_000
  {
    var t := WriteTrace(platform, d, bytes, now);
    var at := if reach < |t| then reach else |t|;
    WriteHoldsTemp(platform, d, bytes, now, at - 1);
    assert StoppedAt(d, t, reach) == t[at - 1];
    ActiveWhileYoung(StoppedAt(d, t, reach), now');
  }

  ghost predicate NamesNewFiles(before: Disk, after: Disk, names: seq<Name>) {
    forall name :: name in names <==> name.Quarantined? && name in after.files && name !in before.files
  }

  lemma RestoreMovesNothing(platform: Platform, d: Disk, now: int, tag: nat)
    requires Primary !in d.files && Backup in d.files
    ensures Quarantined(tag) in LastOr(d, RestoreTrace(platform, d, now)).files <==> Quarantined(tag) in d.files
  {
    var clean, content := Cleaned(d, now), d.files[Backup].content;
    if !WriterActive(d, now) {
      var staged := Put(clean, Temp, content, now);
      LastOrConcat(clean, FillTrace(clean, Temp, content, now), ReplaceTrace(platform, staged, false, now));
      LastOrConcat(d, CleanupTrace(d, now), InstallTrace(platform, clean, content, false, now));
    }
  }

  lemma RecoverReports<T>(platform: Platform, d: Disk, default: T, parse: Parser<T>, aside: seq<Name>, later: int)
    requires Fresh(d) && Primary !in d.files && RecoverResult(d, default, parse, aside, later).Ok?
    ensures var end := LastOr(d, RecoverTrace(platform, d, parse, later));
            var names := RecoverResult(d, default, parse, aside, later).value.quarantined;
            forall tag: nat ::
              && (Quarantined(tag) in names <==> Quarantined(tag) in aside
                                                 || (Quarantined(tag) in end.files && Quarantined(tag) !in d.files))
              && (Quarantined(tag) in d.files ==> Quarantined(tag) in end.files)
    ensures forall name :: name in RecoverResult(d, default, parse, aside, later).value.quarantined ==>
              name in aside || name.Quarantined?
  {
    if ReadAndParse(d, Backup, parse).Valid? {
      forall tag: nat
        ensures Quarantined(tag) in LastOr(d, RestoreTrace(platform, d, later)).files <==> Quarantined(tag) in d.files
      {
        RestoreMovesNothing(platform, d, later, tag);
      }
    }
  }

  /** A successful load reports exactly the quarantine files it made. */
  lemma ReportNamesWhatMoved<T>(platform: Platform, d: Disk, default: T, parse: Parser<T>, now: int, later: int)
    requires Fresh(d) && LoadResult(d, default, parse, now, later).Ok?
    ensures NamesNewFiles(d, Loaded(platform, d, parse, now, later),
                          LoadResult(d, default, parse, now, later).value.quarantined)
  {
    var clean := Cleaned(d, now);
    LastOrConcat(d, CleanupTrace(d, now), SettleTrace(platform, clean, parse, later));
    if !ReadAndParse(clean, Primary, parse).Valid? {
      var disk := LastOr(clean, SetAsideTrace(clean));
      var aside := if Primary in clean.files then [Quarantined(clean.nextTag)] else [];
      LastOrConcat(clean, SetAsideTrace(clean), RecoverTrace(platform, disk, parse, later));
      assert Fresh(disk) && forall tag: nat ::
        Quarantined(tag) in disk.files <==> Quarantined(tag) in d.files || Quarantined(tag) in aside;
      RecoverReports(platform, disk, default, parse, aside, later);
    }
  }

  // ---------------------------------------------------------------------------
  // Nothing is destroyed by loading
  // ---------------------------------------------------------------------------

  /** Contents held anywhere but in the temporary file. */
  ghost function Held(d: Disk): set<Bytes> {
    set name | name in d.files && name != Temp :: d.files[name].content
  }

  ghost predicate AllHold(trace: seq<Disk>, held: set<Bytes>) {
    forall i :: 0 <= i < |trace| ==> Held(trace[i]) == held
  }

  lemma HeldIgnoresTemp(d: Disk, d': Disk)
    requires d.files - {Temp} == d'.files - {Temp}
    ensures Held(d) == Held(d')
  {
    forall name | name != Temp ensures name in d.files <==> name in d'.files {
      assert name in d.files - {Temp} <==> name in d'.files - {Temp};
    }
    forall name | name != Temp && name in d.files ensures d.files[name] == d'.files[name] {
      assert (d.files - {Temp})[name] == (d'.files - {Temp})[name];
    }
  }

  lemma QuarantineHolds(d: Disk, name: Name)
    requires Fresh(d) && name in {Primary, Backup} && name in d.files
    ensures Fresh(QuarantinedDisk(d, name)) && Held(QuarantinedDisk(d, name)) == Held(d)
  {
    var d', tag := QuarantinedDisk(d, name), Quarantined(d.nextTag);
    assert tag !in d.files;
    forall n | n in d.files && n != Temp ensures d.files[n].content in Held(d') {
      var at := if n == name then tag else n;
      assert d'.files[at] == d.files[n];
    }
    forall n | n in d'.files && n != Temp ensures d'.files[n].content in Held(d) {
      var at := if n == tag then name else n;
      assert d'.files[n] == d.files[at];
    }
  }

  lemma RestoreHolds(platform: Platform, d: Disk, now: int)
    requires Primary !in d.files && Backup in d.files
    ensures AllHold(RestoreTrace(platform, d, now), Held(d))
  {
    var clean, content := Cleaned(d, now), d.files[Backup].content;
    HeldIgnoresTemp(d, clean);
    if !WriterActive(d, now) {
      var fill, staged := FillTrace(clean, Temp, content, now), Put(clean, Temp, content, now);
      forall i | 0 <= i < |fill| ensures Held(fill[i]) == Held(d) {
        HeldIgnoresTemp(clean, fill[i]);
      }
      var end := Renamed(staged, Temp, Primary);
      assert content in Held(end) by { assert end.files[Primary].content == content; }
      forall n | n in clean.files && n != Temp ensures clean.files[n].content in Held(end) {
        assert end.files[n] == clean.files[n];
      }
      forall n | n in end.files && n != Temp ensures end.files[n].content in Held(clean) {
        assert end.files[n].content == clean.files[if n == Primary then Backup else n].content;
      }
      assert Held(end) == Held(d);
    }
  }

  lemma RecoverHolds<T>(platform: Platform, d: Disk, parse: Parser<T>, later: int)
    requires Fresh(d) && Primary !in d.files
    ensures AllHold(RecoverTrace(platform, d, parse, later), Held(d))
  {
    if Backup in d.files {
      QuarantineHolds(d, Backup);
      RestoreHolds(platform, d, later);
    }
  }

  lemma SetAsideHolds(d: Disk)
    requires Fresh(d)
    ensures var aside := LastOr(d, SetAsideTrace(d));
            Fresh(aside) && Primary !in aside.files && Held(aside) == Held(d) && AllHold(SetAsideTrace(d), Held(d))
  {
    if Primary in d.files {
      QuarantineHolds(d, Primary);
    }
  }

  lemma SettleHolds<T>(platform: Platform, d: Disk, parse: Parser<T>, later: int)
    requires Fresh(d)
    ensures AllHold(SettleTrace(platform, d, parse, later), Held(d))
  {
    SetAsideHolds(d);
    RecoverHolds(platform, LastOr(d, SetAsideTrace(d)), parse, later);
  }

  /** A load keeps every document, at every step, whether it succeeds or fails. */
  lemma LoadDestroysNothing<T>(platform: Platform, d: Disk, parse: Parser<T>, now: int, later: int)
    requires Fresh(d)
    ensures AllHold(LoadTrace(platform, d, parse, now, later), Held(d))
  {
    HeldIgnoresTemp(d, Cleaned(d, now));
    SettleHolds(platform, Cleaned(d, now), parse, later);
  }

  // ---------------------------------------------------------------------------
  // Runs of interrupted operations
  // ---------------------------------------------------------------------------

  /**
   An operation that gets `reach` steps far.  When it is `aborted` it did not stop but
   met a failing file-system call, on which it removes its temporary file.
   */
  datatype Event =
    | Write(bytes: Bytes, now: int, reach: nat, aborted: bool)
    | Load(now: int, later: int, reach: nat, aborted: bool)

  function EventTrace<T>(platform: Platform, d: Disk, e: Event, parse: Parser<T>): seq<Disk> {
    match e
    case Write(bytes, now, _, _) => WriteTrace(platform, d, bytes, now)
    case Load(now, later, _, _) => LoadTrace(platform, d, parse, now, later)
  }

  function After<T>(platform: Platform, d: Disk, e: Event, parse: Parser<T>): Disk {
    var trace := EventTrace(platform, d, e, parse);
    var stopped := StoppedAt(d, trace, e.reach);
    if e.aborted && 0 < e.reach < |trace| then Removed(stopped, Temp) else stopped
  }

  /** The write went through: it met no other writer and reached its last step. */
  predicate Commits<T>(platform: Platform, d: Disk, e: Event, parse: Parser<T>) {
    e.Write? && !WriterActive(d, e.now) && e.reach >= |EventTrace(platform, d, e, parse)|
  }

  function Run<T>(platform: Platform, d: Disk, events: seq<Event>, parse: Parser<T>): Disk
    decreases events
  {
    if events == [] then d else Run(platform, After(platform, d, events[0], parse), events[1..], parse)
  }

  ghost predicate Parsable<T>(events: seq<Event>, parse: Parser<T>) {
    forall i :: 0 <= i < |events| && events[i].Write? ==> parse(events[i].bytes).Ok?
  }

  /** No write of the run replaces a garbage primary. */
  predicate Disciplined<T>(platform: Platform, d: Disk, events: seq<Event>, parse: Parser<T>)
    decreases events
  {
    events == [] || (
      && (events[0].Write? ==> Replaceable(d, parse))
      && Disciplined(platform, After(platform, d, events[0], parse), events[1..], parse))
  }

  /** The register the run implements: committed writes set it, nothing else touches it. */
  function Register<T>(platform: Platform, d: Disk, events: seq<Event>, parse: Parser<T>, standing: Standing<T>)
    : Standing<T>
    requires Parsable(events, parse)
    decreases events
  {
    if events == [] then standing
    else
      var e := events[0];
      var next := if Commits(platform, d, e, parse) then Document(parse(e.bytes).value) else standing;
      Register(platform, After(platform, d, e, parse), events[1..], parse, next)
  }

  lemma StoppedLoad<T>(platform: Platform, d: Disk, now: int, later: int, reach: nat, parse: Parser<T>)
    requires !Visible(d, parse).Rejected?
    ensures var stopped := StoppedAt(d, LoadTrace(platform, d, parse, now, later), reach);
            && Visible(stopped, parse) == Visible(d, parse)
            && (Replaceable(d, parse) ==> Replaceable(stopped, parse))
  {
    LoadIsInvisible(platform, d, now, later, parse);
    StopIsSteady(d, LoadTrace(platform, d, parse, now, later), reach, parse);
  }

  lemma TempIsInvisible<T>(d: Disk, parse: Parser<T>)
    ensures Visible(Removed(d, Temp), parse) == Visible(d, parse)
    ensures Replaceable(Removed(d, Temp), parse) == Replaceable(d, parse)
  {
  }

  lemma EventIsAtomic<T>(platform: Platform, d: Disk, e: Event, parse: Parser<T>)
    requires !Visible(d, parse).Rejected?
    requires e.Write? ==> parse(e.bytes).Ok? && Replaceable(d, parse)
    ensures Visible(After(platform, d, e, parse), parse)
         == if Commits(platform, d, e, parse) then Document(parse(e.bytes).value) else Visible(d, parse)
    ensures Replaceable(d, parse) ==> Replaceable(After(platform, d, e, parse), parse)
  {
    TempIsInvisible(StoppedAt(d, EventTrace(platform, d, e, parse), e.reach), parse);
    match e
    case Write(bytes, now, reach, _) => StoppedWrite(platform, d, bytes, now, reach, parse);
    case Load(now, later, reach, _) => StoppedLoad(platform, d, now, later, reach, parse);
  }

  /**
   Any number of writes and loads, each stopped or failing anywhere, behave as one register:
   it holds the last document whose write went through, or else what the disk stood for at
   the start, be it a document or none.  By `LoadAnswersVisible` that is what the next load
   returns.
   */
  lemma {:induction false} RunIsARegister<T>(platform: Platform, d: Disk, events: seq<Event>, parse: Parser<T>)
    requires !Visible(d, parse).Rejected? && Parsable(events, parse) && Disciplined(platform, d, events, parse)
    ensures Visible(Run(platform, d, events, parse), parse)
         == Register(platform, d, events, parse, Visible(d, parse))
    decreases events
  {
    if events != [] {
      EventIsAtomic(platform, d, events[0], parse);
      RunIsARegister(platform, After(platform, d, events[0], parse), events[1..], parse);
    }
  }

  /** Starting over a readable or missing primary, no run can ever leave the discipline. */
  lemma {:induction false} SoundStartStaysDisciplined<T>(platform: Platform, d: Disk, events: seq<Event>,
                                                         parse: Parser<T>)
    requires !Visible(d, parse).Rejected? && Replaceable(d, parse) && Parsable(events, parse)
    ensures Disciplined(platform, d, events, parse)
    decreases events
  {
    if events != [] {
      EventIsAtomic(platform, d, events[0], parse);
      SoundStartStaysDisciplined(platform, After(platform, d, events[0], parse), events[1..], parse);
    }
  }

  // ---------------------------------------------------------------------------
  // Runs in which the primary gets corrupted
  // ---------------------------------------------------------------------------

  /** Completed operations, and accidents that leave the primary deleted or unparsable. */
  datatype Incident = Save(bytes: Bytes, now: int) | Open(now: int, later: int) | Damage(garbage: Option<Bytes>)

  function Suffer<T>(platform: Platform, d: Disk, incident: Incident, parse: Parser<T>): Disk {
    match incident
    case Save(bytes, now) => Written(platform, d, bytes, now)
    case Open(now, later) => Loaded(platform, d, parse, now, later)
    case Damage(None) => Removed(d, Primary)
    case Damage(Some(garbage)) => Put(d, Primary, garbage, 0)
  }

  /** The answers the loads of a run give. */
  function Answers<T>(platform: Platform, d: Disk, incidents: seq<Incident>, default: T, parse: Parser<T>)
    : seq<Result<LoadReport<T>, StoreError>>
    decreases incidents
  {
    if incidents == [] then []
    else
      var incident := incidents[0];
      (if incident.Open? then [LoadResult(d, default, parse, incident.now, incident.later)] else [])
      + Answers(platform, Suffer(platform, d, incident, parse), incidents[1..], default, parse)
  }

  /** The two newest documents, and whether the newest is damaged. */
  datatype Ledger<+T> = Ledger(current: T, previous: T, damaged: bool)

  /** Saving keeps the old document as a spare; a load after damage falls back on the spare. */
  function Record<T>(ledger: Ledger<T>, incident: Incident, parse: Parser<T>): Ledger<T>
    requires incident.Save? ==> parse(incident.bytes).Ok?
  {
    match incident
    case Save(bytes, _) => Ledger(parse(bytes).value, ledger.current, false)
    case Open(_, _) => if ledger.damaged then Ledger(ledger.previous, ledger.previous, false) else ledger
    case Damage(_) => ledger.(damaged := true)
  }

  /** Documents saved parse, damage does not, and damage is noticed by a load before the next save. */
  predicate Plausible<T>(incidents: seq<Incident>, damaged: bool, parse: Parser<T>) {
    incidents == [] || (
      && match incidents[0]
         case Save(bytes, _) => parse(bytes).Ok? && !damaged && Plausible(incidents[1..], false, parse)
         case Open(_, _) => Plausible(incidents[1..], false, parse)
         case Damage(garbage) =>
           && (garbage.Some? ==> parse(garbage.value) == Err(InvalidDocument))
           && Plausible(incidents[1..], true, parse))
  }

  function Expected<T>(ledger: Ledger<T>, incidents: seq<Incident>, parse: Parser<T>): seq<LoadReport<T>>
    requires Plausible(incidents, ledger.damaged, parse)
    decreases incidents
  {
    if incidents == [] then []
    else
      var next := Record(ledger, incidents[0], parse);
      if !incidents[0].Open? then Expected(next, incidents[1..], parse)
      else
        [LoadReport(next.current, if ledger.damaged then RestoredBackup else FromPrimary, [])]
        + Expected(next, incidents[1..], parse)
  }

  ghost predicate Matches<T>(d: Disk, ledger: Ledger<T>, parse: Parser<T>) {
    && Temp !in d.files
    && ReadAndParse(d, Backup, parse) == Valid(ledger.previous)
    && var primary := ReadAndParse(d, Primary, parse);
       if ledger.damaged then primary.Missing? || primary.Invalid? else primary == Valid(ledger.current)
  }

  /** The file that a save turns into the spare: the primary, or the old backup if there is no primary. */
  function Spare<T>(d: Disk, parse: Parser<T>): Parsed<T> {
    ReadAndParse(d, if Primary in d.files then Primary else Backup, parse)
  }

  /** A completed save installs its bytes and keeps what was there as the spare. */
  lemma SaveEnds<T>(platform: Platform, d: Disk, bytes: Bytes, now: int, parse: Parser<T>)
    requires !WriterActive(d, now)
    ensures var saved := Written(platform, d, bytes, now);
            && Temp !in saved.files && Primary in saved.files && saved.files[Primary].content == bytes
            && ReadAndParse(saved, Backup, parse) == Spare(d, parse)
  {
    var clean := Cleaned(d, now);
    var staged := Put(clean, Temp, bytes, now);
    LastOrConcat(d, CleanupTrace(d, now), InstallTrace(platform, clean, bytes, true, now));
    LastOrConcat(clean, FillTrace(clean, Temp, bytes, now), ReplaceTrace(platform, staged, true, now));
  }

  lemma SaveMatches<T>(platform: Platform, d: Disk, bytes: Bytes, now: int, parse: Parser<T>, current: T)
    requires Temp !in d.files && ReadAndParse(d, Primary, parse) == Valid(current) && parse(bytes).Ok?
    ensures Matches(Written(platform, d, bytes, now), Ledger(parse(bytes).value, current, false), parse)
  {
    SaveEnds(platform, d, bytes, now, parse);
  }

  lemma RestoreEnds(platform: Platform, d: Disk, now: int)
    requires Temp !in d.files && Primary !in d.files && Backup in d.files
    ensures LastOr(d, RestoreTrace(platform, d, now)) == Put(d, Primary, d.files[Backup].content, now)
  {
    var content := d.files[Backup].content;
    var staged := Put(d, Temp, content, now);
    LastOrConcat(d, FillTrace(d, Temp, content, now), ReplaceTrace(platform, staged, false, now));
    assert staged.files - {Temp} == d.files;
  }

  lemma OpenAfterDamage<T>(platform: Platform, d: Disk, now: int, later: int, default: T, parse: Parser<T>)
    requires Temp !in d.files && ReadAndParse(d, Backup, parse).Valid?
    requires var primary := ReadAndParse(d, Primary, parse); primary.Missing? || primary.Invalid?
    ensures var result := LoadResult(d, default, parse, now, later);
            && result.Ok? && result.value.source == RestoredBackup
            && Valid(result.value.value) == ReadAndParse(d, Backup, parse)
    ensures var end := Loaded(platform, d, parse, now, later);
            && Temp !in end.files
            && ReadAndParse(end, Primary, parse) == ReadAndParse(end, Backup, parse) == ReadAndParse(d, Backup, parse)
  {
    var aside := LastOr(d, SetAsideTrace(d));
    assert aside.files.Keys <= d.files.Keys + {Quarantined(d.nextTag)} && Primary !in aside.files;
    assert aside.files[Backup] == d.files[Backup];
    assert CleanupTrace(d, now) == [] && Cleaned(d, now) == d && !WriterActive(aside, later);
    var recovery := RecoverTrace(platform, aside, parse, later);
    assert SettleTrace(platform, d, parse, later) == SetAsideTrace(d) + recovery;
    LastOrConcat(d, SetAsideTrace(d), recovery);
    RestoreEnds(platform, aside, later);
    assert Loaded(platform, d, parse, now, later) == Put(aside, Primary, d.files[Backup].content, later);
  }

  lemma OpenMatches<T>(platform: Platform, d: Disk, now: int, later: int, default: T, parse: Parser<T>,
                       ledger: Ledger<T>)
    requires Matches(d, ledger, parse)
    ensures Matches(Loaded(platform, d, parse, now, later), Record(ledger, Open(now, later), parse), parse)
    ensures var result := LoadResult(d, default, parse, now, later);
            && result.Ok?
            && result.value.value == Record(ledger, Open(now, later), parse).current
            && result.value.source == if ledger.damaged then RestoredBackup else FromPrimary
  {
    if ledger.damaged {
      OpenAfterDamage(platform, d, now, later, default, parse);
    }
  }

  function SufferAll<T>(platform: Platform, d: Disk, incidents: seq<Incident>, parse: Parser<T>): Disk
    decreases incidents
  {
    if incidents == [] then d
    else SufferAll(platform, Suffer(platform, d, incidents[0], parse), incidents[1..], parse)
  }

  lemma {:induction false} LoadsLeaveSaved<T>(platform: Platform, d: Disk, loads: seq<Incident>, parse: Parser<T>)
    requires Temp !in d.files && ReadAndParse(d, Primary, parse).Valid?
    requires forall i :: 0 <= i < |loads| ==> loads[i].Open?
    ensures SufferAll(platform, d, loads, parse) == d
    decreases loads
  {
    if loads != [] {
      assert Suffer(platform, d, loads[0], parse) == d;
      LoadsLeaveSaved(platform, d, loads[1..], parse);
    }
  }

  /**
   Two saves of parsable documents, over whatever was there and with any number of loads
   in between, leave the second document and the first as its spare.
   */
  lemma TwoSavesArm<T>(platform: Platform, d: Disk, first: Bytes, now: int, loads: seq<Incident>,
                       second: Bytes, now': int, parse: Parser<T>)
    requires !WriterActive(d, now) && parse(first).Ok? && parse(second).Ok?
    requires forall i :: 0 <= i < |loads| ==> loads[i].Open?
    ensures var between := SufferAll(platform, Written(platform, d, first, now), loads, parse);
            Matches(Written(platform, between, second, now'),
                    Ledger(parse(second).value, parse(first).value, false), parse)
  {
    SaveEnds(platform, d, first, now, parse);
    LoadsLeaveSaved(platform, Written(platform, d, first, now), loads, parse);
    SaveEnds(platform, Written(platform, d, first, now), second, now', parse);
  }

  /**
   One save alone arms the store only with what it found: when its primary is damaged the
   next load answers with the spare, and falls back to the default exactly when that was
   missing or garbage.
   */
  lemma OneSaveDoesNotArm<T>(platform: Platform, d: Disk, bytes: Bytes, now: int, garbage: Option<Bytes>,
                             now': int, later: int, default: T, parse: Parser<T>)
    requires !WriterActive(d, now) && (garbage.Some? ==> parse(garbage.value) == Err(InvalidDocument))
    ensures var damaged := Suffer(platform, Written(platform, d, bytes, now), Damage(garbage), parse);
            var answer := LoadResult(damaged, default, parse, now', later);
            match Spare(d, parse)
            case Valid(value) =>
              answer.Ok? && answer.value.value == value && answer.value.source == RestoredBackup
            case Unsupported(_, _) => answer.Err? && answer.error.UnsupportedDocument?
            case _ => answer.Ok? && answer.value.value == default && answer.value.source == Default
  {
    var saved := Written(platform, d, bytes, now);
    var damaged := Suffer(platform, saved, Damage(garbage), parse);
    SaveEnds(platform, d, bytes, now, parse);
    assert Temp !in damaged.files && ReadAndParse(damaged, Backup, parse) == Spare(d, parse);
    assert ReadAndParse(damaged, Primary, parse).Missing? || ReadAndParse(damaged, Primary, parse).Invalid?;
    LoadAnswersVisible(damaged, default, parse, now', later);
  }

  /** One incident keeps disk and ledger in step, and a load answers what the ledger says. */
  lemma IncidentMatches<T>(platform: Platform, d: Disk, incident: Incident, default: T, parse: Parser<T>,
                           ledger: Ledger<T>)
    requires Matches(d, ledger, parse) && Plausible([incident], ledger.damaged, parse)
    ensures Matches(Suffer(platform, d, incident, parse), Record(ledger, incident, parse), parse)
    ensures incident.Open? ==>
              Agrees(LoadResult(d, default, parse, incident.now, incident.later),
                     LoadReport(Record(ledger, incident, parse).current,
                                if ledger.damaged then RestoredBackup else FromPrimary, []))
  {
    match incident
    case Save(bytes, now) => SaveMatches(platform, d, bytes, now, parse, ledger.current);
    case Open(now, later) => OpenMatches(platform, d, now, later, default, parse, ledger);
    case Damage(_) =>
  }

  predicate Agrees<T(==)>(answer: Result<LoadReport<T>, StoreError>, expected: LoadReport<T>) {
    answer.Ok? && answer.value.value == expected.value && answer.value.source == expected.source
  }

  ghost predicate AllAgree<T>(answers: seq<Result<LoadReport<T>, StoreError>>, expected: seq<LoadReport<T>>) {
    |answers| == |expected| && forall i :: 0 <= i < |answers| ==> Agrees(answers[i], expected[i])
  }

  lemma AgreeCons<T>(answer: Result<LoadReport<T>, StoreError>, report: LoadReport<T>,
                     answers: seq<Result<LoadReport<T>, StoreError>>, expected: seq<LoadReport<T>>)
    requires Agrees(answer, report)
    ensures AllAgree(answers, expected) ==> AllAgree([answer] + answers, [report] + expected)
  {
  }

  /**
   Once armed by two saves, no load of a run with damaged primaries ever falls back to
   the default: each returns the newest undamaged document, and a load after a save that
   got damaged returns the document that was current before that save.
   */
  lemma {:induction false} DamageCostsOneSave<T>(platform: Platform, d: Disk, incidents: seq<Incident>, default: T,
                                                  parse: Parser<T>, ledger: Ledger<T>)
    requires Matches(d, ledger, parse) && Plausible(incidents, ledger.damaged, parse)
    ensures AllAgree(Answers(platform, d, incidents, default, parse), Expected(ledger, incidents, parse))
    decreases incidents
  {
    if incidents != [] {
      var d', next := Suffer(platform, d, incidents[0], parse), Record(ledger, incidents[0], parse);
      IncidentMatches(platform, d, incidents[0], default, parse, ledger);
      if incidents[0].Open? {
        AgreeCons(LoadResult(d, default, parse, incidents[0].now, incidents[0].later),
                  LoadReport(next.current, if ledger.damaged then RestoredBackup else FromPrimary, []),
                  Answers(platform, d', incidents[1..], default, parse), Expected(next, incidents[1..], parse));
      }
      DamageCostsOneSave(platform, d', incidents[1..], default, parse, next);
    }
  }
}
