/**
 The crash-recovering document store: one document kept in a primary file, with a
 backup, a temporary file for atomic replacement, and quarantined copies of whatever
 failed to parse.

 A `Disk` is the state of the directory.  Every operation is described twice: by a
 method that changes the disk one file-system call at a time, and by a `...Trace`
 function that lists every disk the operation passes through.  A process stop "after
 any step" is then a stop at any element of the trace.
 */
module DocumentStore {
  import opened Outcomes

  /** Milliseconds after which a temporary file is taken to be abandoned. */
  const STALE_TEMP_AGE: int := 10 * 60 * 1000

  datatype Platform = Windows | Posix

  datatype Name = Primary | Backup | Temp | Quarantined(tag: nat)

  datatype File = File(content: Bytes, modified: int)

  /** `nextTag` stands for the stream of fresh identifiers that name quarantine files. */
  datatype Disk = Disk(files: map<Name, File>, nextTag: nat)

  datatype DocumentError = InvalidDocument | UnsupportedSchema(found: nat, supported: nat)

  type Parser<!T> = Bytes -> Result<T, DocumentError>

  datatype Parsed<+T> =
    | Valid(value: T)
    | Invalid
    | Unsupported(found: nat, supported: nat)
    | Missing

  datatype LoadSource = FromPrimary | RestoredBackup | Default

  datatype LoadReport<+T> = LoadReport(value: T, source: LoadSource, quarantined: seq<Name>)

  datatype StoreError =
    | ActiveWriter
    | UnsupportedDocument(found: nat, supported: nat, quarantine: Name)

  /** Quarantine names not yet handed out are unused. */
  ghost predicate Fresh(d: Disk) {
    forall t: nat :: Quarantined(t) in d.files ==> t < d.nextTag
  }

  /** What reading one file and parsing it yields. */
  function ReadAndParse<T>(d: Disk, name: Name, parse: Parser<T>): Parsed<T> {
    if name !in d.files then Missing
    else match parse(d.files[name].content)
      case Ok(value) => Valid(value)
      case Err(InvalidDocument) => Invalid
      case Err(UnsupportedSchema(found, supported)) => Unsupported(found, supported)
  }

  // ---------------------------------------------------------------------------
  // File-system calls
  // ---------------------------------------------------------------------------

  function Put(d: Disk, name: Name, content: Bytes, now: int): Disk {
    d.(files := d.files[name := File(content, now)])
  }

  function Removed(d: Disk, name: Name): Disk {
    d.(files := d.files - {name})
  }

  function Renamed(d: Disk, from: Name, to: Name): Disk
    requires from in d.files
  {
    d.(files := (d.files - {from})[to := d.files[from]])
  }

  /** Truncating or creating `name` and writing `content` to it: every prefix is a state. */
  function FillTrace(d: Disk, name: Name, content: Bytes, now: int): (trace: seq<Disk>)
    ensures |trace| == |content| + 1
    ensures LastOr(d, trace) == Put(d, name, content, now)
  {
    assert content[..|content|] == content;
    seq(|content| + 1, i requires 0 <= i <= |content| => Put(d, name, content[..i], now))
  }

  /** Moving `name` to a fresh quarantine name. */
  function QuarantinedDisk(d: Disk, name: Name): Disk
    requires name in d.files
  {
    Renamed(d, name, Quarantined(d.nextTag)).(nextTag := d.nextTag + 1)
  }

  // ---------------------------------------------------------------------------
  // Operations, as the sequence of disks they pass through
  // ---------------------------------------------------------------------------

  /** The clock may run backwards; a file from the future has age 0. */
  predicate StaleTemp(d: Disk, now: int) {
    && Temp in d.files
    && (if now >= d.files[Temp].modified then now - d.files[Temp].modified else 0) >= STALE_TEMP_AGE
  }

  function CleanupTrace(d: Disk, now: int): seq<Disk> {
    if StaleTemp(d, now) then [Removed(d, Temp)] else []
  }

  function Cleaned(d: Disk, now: int): Disk {
    LastOr(d, CleanupTrace(d, now))
  }

  function ReplaceTrace(platform: Platform, d: Disk, keepBackup: bool, now: int): seq<Disk>
    requires Temp in d.files
  {
    if Primary !in d.files then
      [Renamed(d, Temp, Primary)]
    else if !keepBackup then
      [Renamed(d, Temp, Primary)]
    else match platform
      case Windows =>
        var moved := Renamed(d, Primary, Backup);
        [moved, Renamed(moved, Temp, Primary)]
      case Posix =>
        var copy := FillTrace(d, Backup, d.files[Primary].content, now);
        copy + [Renamed(LastOr(d, copy), Temp, Primary)]
  }

  /** Writing `content` to a new temporary file and then moving it over the primary. */
  function InstallTrace(platform: Platform, d: Disk, content: Bytes, keepBackup: bool, now: int): seq<Disk> {
    FillTrace(d, Temp, content, now)
    + ReplaceTrace(platform, Put(d, Temp, content, now), keepBackup, now)
  }

  predicate WriterActive(d: Disk, now: int) {
    Temp in Cleaned(d, now).files
  }

  function WriteTrace(platform: Platform, d: Disk, bytes: Bytes, now: int): seq<Disk> {
    CleanupTrace(d, now)
    + if WriterActive(d, now) then [] else InstallTrace(platform, Cleaned(d, now), bytes, true, now)
  }

  function RestoreTrace(platform: Platform, d: Disk, now: int): seq<Disk>
    requires Backup in d.files
  {
    CleanupTrace(d, now)
    + if WriterActive(d, now) then []
      else InstallTrace(platform, Cleaned(d, now), d.files[Backup].content, false, now)
  }

  /** What happens to a disk whose primary has been set aside, or was never there. */
  function RecoverTrace<T>(platform: Platform, d: Disk, parse: Parser<T>, later: int): seq<Disk> {
    match ReadAndParse(d, Backup, parse)
    case Valid(_) => RestoreTrace(platform, d, later)
    case Missing => []
    case _ => [QuarantinedDisk(d, Backup)]
  }

  function SetAsideTrace(d: Disk): seq<Disk> {
    if Primary in d.files then [QuarantinedDisk(d, Primary)] else []
  }

  /** Loading once stale temporaries are gone. */
  function SettleTrace<T>(platform: Platform, d: Disk, parse: Parser<T>, later: int): seq<Disk> {
    match ReadAndParse(d, Primary, parse)
    case Valid(_) => []
    case Unsupported(_, _) => SetAsideTrace(d)
    case _ => SetAsideTrace(d) + RecoverTrace(platform, LastOr(d, SetAsideTrace(d)), parse, later)
  }

  function LoadTrace<T>(platform: Platform, d: Disk, parse: Parser<T>, now: int, later: int): seq<Disk> {
    CleanupTrace(d, now) + SettleTrace(platform, Cleaned(d, now), parse, later)
  }

  function Written(platform: Platform, d: Disk, bytes: Bytes, now: int): Disk {
    LastOr(d, WriteTrace(platform, d, bytes, now))
  }

  function Loaded<T>(platform: Platform, d: Disk, parse: Parser<T>, now: int, later: int): Disk {
    LastOr(d, LoadTrace(platform, d, parse, now, later))
  }

  /** The answer once the primary is out of the way and `aside` names where it went. */
  function RecoverResult<T>(d: Disk, default: T, parse: Parser<T>, aside: seq<Name>, later: int)
    : Result<LoadReport<T>, StoreError>
  {
    match ReadAndParse(d, Backup, parse)
    case Valid(value) =>
      if WriterActive(d, later) then Err(ActiveWriter) else Ok(LoadReport(value, RestoredBackup, aside))
    case Unsupported(found, supported) => Err(UnsupportedDocument(found, supported, Quarantined(d.nextTag)))
    case Invalid => Ok(LoadReport(default, Default, aside + [Quarantined(d.nextTag)]))
    case Missing => Ok(LoadReport(default, Default, aside))
  }

  function SettleResult<T>(d: Disk, default: T, parse: Parser<T>, later: int)
    : Result<LoadReport<T>, StoreError>
  {
    match ReadAndParse(d, Primary, parse)
    case Valid(value) => Ok(LoadReport(value, FromPrimary, []))
    case Unsupported(found, supported) => Err(UnsupportedDocument(found, supported, Quarantined(d.nextTag)))
    case _ =>
      var aside := if Primary in d.files then [Quarantined(d.nextTag)] else [];
      RecoverResult(LastOr(d, SetAsideTrace(d)), default, parse, aside, later)
  }

  /** What `load_with_recovery` answers. */
  function LoadResult<T>(d: Disk, default: T, parse: Parser<T>, now: int, later: int)
    : Result<LoadReport<T>, StoreError>
  {
    SettleResult(Cleaned(d, now), default, parse, later)
  }

  // ---------------------------------------------------------------------------
  // The store itself
  // ---------------------------------------------------------------------------

  /** `trace` records every disk state since the store was created. */
  class Store {
    const platform: Platform
    var disk: Disk
    ghost var trace: seq<Disk>

    constructor (platform: Platform, disk: Disk)
      ensures this.platform == platform && this.disk == disk && trace == []
    {
      this.platform := platform;
      this.disk := disk;
      trace := [];
    }

    method Commit(next: Disk)
      modifies this
      ensures disk == next && trace == old(trace) + [next]
    {
      disk := next;
      trace := trace + [next];
    }

    method Fill(name: Name, content: Bytes, now: int)
      modifies this
      ensures disk == Put(old(disk), name, content, now)
      ensures trace == old(trace) + FillTrace(old(disk), name, content, now)
    {
      Commit(Put(disk, name, [], now));
      for i := 0 to |content|
        invariant disk == Put(old(disk), name, content[..i], now)
        invariant trace == old(trace) + FillTrace(old(disk), name, content, now)[..i + 1]
      {
        var written := disk.files[name].content + [content[i]];
        assert written == content[..i + 1];
        Commit(Put(disk, name, written, now));
        assert disk == Put(old(disk), name, content[..i + 1], now) by {
          assert disk.files == old(disk).files[name := File(content[..i + 1], now)];
        }
      }
      assert content[..|content|] == content;
    }

    method CleanupStaleTemp(now: int)
      modifies this
      ensures disk == Cleaned(old(disk), now)
      ensures trace == old(trace) + CleanupTrace(old(disk), now)
    {
      if StaleTemp(disk, now) {
        Commit(Removed(disk, Temp));
      }
    }

    method ReplaceFile(keepBackup: bool, now: int)
      requires Temp in disk.files
      modifies this
      ensures trace == old(trace) + ReplaceTrace(platform, old(disk), keepBackup, now)
      ensures disk == LastOr(old(disk), ReplaceTrace(platform, old(disk), keepBackup, now))
    {
      if Primary in disk.files && keepBackup {
        match platform
        case Windows => Commit(Renamed(disk, Primary, Backup));
        case Posix => Fill(Backup, disk.files[Primary].content, now);
      }
      Commit(Renamed(disk, Temp, Primary));
    }

    /** Shared tail of writing and restoring: fail if a temporary file is in use. */
    method Install(content: Bytes, keepBackup: bool, now: int) returns (result: Result<(), StoreError>)
      modifies this
      ensures result == if Temp in old(disk).files then Err(ActiveWriter) else Ok(())
      ensures trace == old(trace) + if Temp in old(disk).files then []
                                    else InstallTrace(platform, old(disk), content, keepBackup, now)
      ensures disk == LastOr(old(disk), trace[|old(trace)|..])
    {
      if Temp in disk.files {
        return Err(ActiveWriter);
      }
      Fill(Temp, content, now);
      ReplaceFile(keepBackup, now);
      return Ok(());
    }

    method WriteBytes(bytes: Bytes, now: int) returns (result: Result<(), StoreError>)
      modifies this
      ensures trace == old(trace) + WriteTrace(platform, old(disk), bytes, now)
      ensures disk == Written(platform, old(disk), bytes, now)
      ensures result == if WriterActive(old(disk), now) then Err(ActiveWriter) else Ok(())
    {
      CleanupStaleTemp(now);
      result := Install(bytes, true, now);
    }

    method RestoreBackup(now: int) returns (result: Result<(), StoreError>)
      requires Backup in disk.files
      modifies this
      ensures trace == old(trace) + RestoreTrace(platform, old(disk), now)
      ensures disk == LastOr(old(disk), RestoreTrace(platform, old(disk), now))
      ensures result == if WriterActive(old(disk), now) then Err(ActiveWriter) else Ok(())
    {
      CleanupStaleTemp(now);
      result := Install(disk.files[Backup].content, false, now);
    }

    method Quarantine(name: Name) returns (moved: Name)
      requires name in disk.files
      modifies this
      ensures moved == Quarantined(old(disk).nextTag)
      ensures disk == QuarantinedDisk(old(disk), name) && trace == old(trace) + [disk]
    {
      moved := Quarantined(disk.nextTag);
      Commit(QuarantinedDisk(disk, name));
    }

    method SetAside() returns (quarantined: seq<Name>)
      modifies this
      ensures trace == old(trace) + SetAsideTrace(old(disk))
      ensures disk == LastOr(old(disk), SetAsideTrace(old(disk)))
      ensures quarantined == if Primary in old(disk).files then [Quarantined(old(disk).nextTag)] else []
    {
      quarantined := [];
      if Primary in disk.files {
        var moved := Quarantine(Primary);
        quarantined := [moved];
      }
    }

    method Recover<T>(default: T, parse: Parser<T>, aside: seq<Name>, later: int)
      returns (result: Result<LoadReport<T>, StoreError>)
      modifies this
      ensures trace == old(trace) + RecoverTrace(platform, old(disk), parse, later)
      ensures disk == LastOr(old(disk), RecoverTrace(platform, old(disk), parse, later))
      ensures result == RecoverResult(old(disk), default, parse, aside, later)
    {
      match ReadAndParse(disk, Backup, parse)
      case Valid(value) =>
        var restored := RestoreBackup(later);
        return if restored.Err? then Err(restored.error) else Ok(LoadReport(value, RestoredBackup, aside));
      case Unsupported(found, supported) =>
        var moved := Quarantine(Backup);
        return Err(UnsupportedDocument(found, supported, moved));
      case Invalid =>
        var moved := Quarantine(Backup);
        return Ok(LoadReport(default, Default, aside + [moved]));
      case Missing =>
        return Ok(LoadReport(default, Default, aside));
    }

    method Settle<T>(default: T, parse: Parser<T>, later: int)
      returns (result: Result<LoadReport<T>, StoreError>)
      modifies this
      ensures trace == old(trace) + SettleTrace(platform, old(disk), parse, later)
      ensures disk == LastOr(old(disk), SettleTrace(platform, old(disk), parse, later))
      ensures result == SettleResult(old(disk), default, parse, later)
    {
      var primary := ReadAndParse(disk, Primary, parse);
      if primary.Valid? {
        return Ok(LoadReport(primary.value, FromPrimary, []));
      }
      if primary.Unsupported? {
        var moved := Quarantine(Primary);
        return Err(UnsupportedDocument(primary.found, primary.supported, moved));
      }
      var aside := SetAside();
      AppendTwice(old(disk), old(trace), SetAsideTrace(old(disk)), RecoverTrace(platform, disk, parse, later));
      result := Recover(default, parse, aside, later);
    }

    method LoadWithRecovery<T>(default: T, parse: Parser<T>, now: int, later: int)
      returns (result: Result<LoadReport<T>, StoreError>)
      modifies this
      ensures trace == old(trace) + LoadTrace(platform, old(disk), parse, now, later)
      ensures disk == Loaded(platform, old(disk), parse, now, later)
      ensures result == LoadResult(old(disk), default, parse, now, later)
    {
      CleanupStaleTemp(now);
      AppendTwice(old(disk), old(trace), CleanupTrace(old(disk), now), SettleTrace(platform, disk, parse, later));
      result := Settle(default, parse, later);
    }
  }
}
