/** The log writer: one active file, rotated by day and by size, within a total capacity. */
module LogWriter {
  import opened Common
  import opened LogDisk
  import opened LogFiles
  import opened LogArchive
  import opened LogClosing

  const MAINTENANCE_INTERVAL := 6 * 60 * 60

  datatype CurrentFile = CurrentFile(path: LogPath, day: string, bytesWritten: nat)

  /** What a write reads from the clocks, the instant in seconds, and how the text of a new path follows from its
      segment number. */
  datatype Moment = Moment(timestamp: int, day: string, instant: int, name: nat -> string)

  function PathOf(m: Moment, segment: nat): LogPath {
    LogPath(m.timestamp, m.name(segment), Plain)
  }

  ghost predicate NamesAreDistinct(m: Moment) {
    forall i: nat, j: nat :: m.name(i) == m.name(j) ==> i == j
  }

  datatype WriteResult = Written(count: nat) | RecordTooLarge | ArchiveMismatch | CannotFit

  // ----- what a write does to the directory -----

  /** What a write starts from: the active file, and whether it is to be rotated and maintenance is due. */
  datatype Task = Task(codec: Codec, maxTotal: U64, active: Option<LogPath>, rotates: bool, due: bool)

  /** All logs but the active one are archived, and then the total is enforced. */
  ghost predicate Maintained(codec: Codec, before: Files, active: Option<LogPath>, maxTotal: U64, after: Files) {
    exists archived :: AllArchived(codec, before, active, archived) && Enforced(archived, active, maxTotal, after)
  }

  ghost predicate Rotated(t: Task, before: Files, after: Files) {
    if t.active.None? then after == before
    else
      && t.active.value in before && t.active.value.kind.Plain? && Consistent(t.codec, before, t.active.value)
      && Enforced(Archived(t.codec, before, t.active.value), None, t.maxTotal, after)
  }

  /** The file to write to is the active one, or after a rotation a new and empty one. */
  ghost predicate Opened(t: Task, before: Files, after: Files, path: LogPath) {
    if t.rotates then exists rotated :: RotatedAndOpened(t, before, rotated, after, path)
    else after == before && t.active == Some(path)
  }

  ghost predicate RotatedAndOpened(t: Task, before: Files, rotated: Files, after: Files, path: LogPath) {
    Rotated(t, before, rotated) && path.kind.Plain? && path !in rotated && after == rotated[path := []]
  }

  ghost predicate ReadyAfter(t: Task, started: Files, after: Files, path: LogPath) {
    if t.due then Maintained(t.codec, started, Some(path), t.maxTotal, after) else after == started
  }

  ghost predicate Prepared(t: Task, before: Files, after: Files, path: LogPath) {
    exists started :: Opened(t, before, started, path) && ReadyAfter(t, started, after, path)
  }

  /** An archive of something else stands in the way: of rotation, which then changes nothing, or of maintenance,
      which then has replaced only closed logs by their archives. */
  ghost predicate Stopped(t: Task, before: Files, after: Files) {
    || (&& t.rotates && t.active.Some? && t.active.value in before && !Consistent(t.codec, before, t.active.value)
        && after == before)
    || (t.due && exists started, path :: StoppedMaintaining(t, before, started, after, path))
  }

  ghost predicate StoppedMaintaining(t: Task, before: Files, started: Files, after: Files, path: LogPath) {
    && Opened(t, before, started, path) && !AllConsistent(t.codec, started, Some(path))
    && PartlyArchived(t.codec, started, Some(path), after)
  }

  /** Room for the record is made only when the limit would be exceeded. */
  ghost predicate MadeRoom(maxTotal: U64, ready: Files, incoming: nat, after: Files, path: LogPath) {
    if TotalSize(ready) + incoming <= maxTotal then after == ready
    else incoming <= maxTotal && Enforced(ready, Some(path), maxTotal - incoming, after)
  }

  lemma EnforcingMakesRoom(maxTotal: U64, limit: U64, ready: Files, incoming: nat, after: Files, path: LogPath)
    requires limit + incoming == maxTotal < TotalSize(ready) + incoming
    requires Enforced(ready, Some(path), limit, after)
    ensures MadeRoom(maxTotal, ready, incoming, after, path)
  {
  }

  ghost predicate RoomFor(t: Task, before: Files, incoming: nat, after: Files, path: LogPath) {
    exists ready :: Prepared(t, before, ready, path) && MadeRoom(t.maxTotal, ready, incoming, after, path)
  }

  lemma RotationOpens(t: Task, before: Files, rotated: Files, after: Files, path: LogPath)
    requires t.rotates && Rotated(t, before, rotated) && path.kind.Plain? && path !in rotated
    requires after == rotated[path := []]
    ensures Opened(t, before, after, path)
  {
    assert RotatedAndOpened(t, before, rotated, after, path);
  }

  lemma MaintainingPrepares(t: Task, before: Files, started: Files, after: Files, path: LogPath, ok: bool)
    requires Opened(t, before, started, path)
    requires ok ==> ReadyAfter(t, started, after, path)
    requires !ok ==> t.due && !AllConsistent(t.codec, started, Some(path))
                     && PartlyArchived(t.codec, started, Some(path), after)
    ensures ok ==> Prepared(t, before, after, path)
    ensures !ok ==> Stopped(t, before, after)
  {
    assert !ok ==> StoppedMaintaining(t, before, started, after, path);
  }

  lemma RoomIsMade(t: Task, before: Files, ready: Files, incoming: nat, after: Files, path: LogPath)
    requires Prepared(t, before, ready, path) && MadeRoom(t.maxTotal, ready, incoming, after, path)
    ensures RoomFor(t, before, incoming, after, path)
  {
  }

  ghost predicate Appended(t: Task, before: Files, incoming: nat, bytes: seq<Byte>, after: Files, path: LogPath) {
    exists kept :: RoomFor(t, before, incoming, kept, path) && path in kept && after == kept[path := kept[path] + bytes]
  }

  lemma EnforcementRemoves(files: Files, active: Option<LogPath>, maxTotal: U64, after: Files)
      returns (removed: set<LogPath>)
    requires Enforced(files, active, maxTotal, after)
    ensures after == files - removed && forall p :: p in removed ==> Deletable(files, active, p)
    ensures removed == {}
            || (TotalSize(files) > maxTotal && ShortestOldestRun(files, active, LowWater(maxTotal), removed))
  {
    removed := {};
    if TotalSize(files) > maxTotal {
      removed :| ShortestOldestRun(files, active, LowWater(maxTotal), removed) && after == files - removed;
    }
  }

  /** After maintenance an earlier log is as it was or in an archive that decodes to it, unless the total was
      exceeded and its archive was in the shortest run of oldest files that had to go. */
  lemma MaintenanceKeepsLogs(codec: Codec, before: Files, active: Option<LogPath>, maxTotal: U64, after: Files,
      p: LogPath)
      returns (archived: Files, removed: set<LogPath>)
    requires codec.Lossless() && Maintained(codec, before, active, maxTotal, after) && p in before && p.kind.Plain?
    ensures AllArchived(codec, before, active, archived) && after == archived - removed
    ensures removed == {}
            || (TotalSize(archived) > maxTotal && ShortestOldestRun(archived, active, LowWater(maxTotal), removed))
    ensures Preserved(codec, after, p, before[p]) || (Closed(before, active, p) && ArchiveOf(p) in removed)
  {
    archived :| AllArchived(codec, before, active, archived) && Enforced(archived, active, maxTotal, after);
    ArchivingKeepsContent(codec, before, active, archived, p);
    removed := EnforcementRemoves(archived, active, maxTotal, after);
  }

  // ----- the writer -----

  class ManagedLogWriter {
    const directory: LogDirectory
    const codec: Codec
    const maxFile: U64
    const maxTotal: U64
    var segment: nat
    var current: Option<CurrentFile>
    var nextMaintenance: int

    /** The active file is a plain log of exactly the recorded length. */
    ghost predicate Valid()
      reads this, directory
    {
      && directory.Valid()
      && (current.Some? ==>
            && current.value.path.kind.Plain? && current.value.path in directory.files
            && |directory.files[current.value.path]| == current.value.bytesWritten)
    }

    /** Everything done to the disk since its journal was this was safe, and within this scope. */
    ghost predicate SafeSince(journal: seq<Change>, scope: Scope)
      reads directory
    {
      && journal <= directory.journal
      && ChangesSince(SafeChanges(codec, scope), directory.origin, directory.journal, |journal|)
    }

    /** No archive has the name of the active file. */
    predicate Unarchived()
      reads this, directory
    {
      current.Some? ==> ArchiveOf(current.value.path) !in directory.files
    }

    /** Neither the active file nor any archive has a name that may be given to the next file. */
    ghost predicate NamesAreFree(now: Moment)
      reads this, directory
    {
      forall s :: s >= segment ==>
        ArchiveOf(PathOf(now, s)) !in directory.files && ActivePath() != Some(PathOf(now, s))
    }

    /** What a write of this size may write to and evict. */
    function WriteScope(incoming: nat, clean: bool): Scope
      reads this
    {
      Scope(if current.Some? then {current.value.path} else {}, {Permit(None, maxTotal)} + ActivePermits(incoming),
            clean)
    }

    function OpeningScope(clean: bool): Scope
      reads this
    {
      Scope(if current.Some? then {current.value.path} else {}, {Permit(None, maxTotal)}, clean)
    }

    function RoomScope(incoming: nat): Scope
      reads this
    {
      NO_LOG.(evictions := ActivePermits(incoming))
    }

    function MaintenanceScope(): Scope
      reads this
    {
      NO_LOG.(evictions := {Permit(ActivePath(), maxTotal)})
    }

    lemma ScopesFit(incoming: nat, clean: bool)
      requires current.Some?
      ensures Within(OpeningScope(clean), WriteScope(incoming, clean))
      ensures Within(MaintenanceScope(), WriteScope(incoming, clean))
      ensures Within(RoomScope(incoming), WriteScope(incoming, clean))
      ensures Within(Scope({current.value.path}, {}, clean), WriteScope(incoming, clean))
    {
    }

    /** The active file is the one that was active, or it has a name with a segment number that was not used before. */
    ghost predicate Continues(path: Option<LogPath>, used: nat, now: Moment)
      reads this
    {
      && segment >= used
      && (current.Some? && ActivePath() != path ==>
            segment > used && current.value.path == LogPath(now.timestamp, now.name(segment - 1), Plain))
    }

    /** No log that the next write writes to has a name that an archive has. */
    ghost predicate StaysClean(now: Moment)
      reads this, directory
    {
      Unarchived() && NamesAreFree(now)
    }

    function ActivePermits(incoming: nat): set<Permit>
      reads this
    {
      if current.None? then {}
      else if incoming > maxTotal then {Permit(ActivePath(), maxTotal)}
      else {Permit(ActivePath(), maxTotal), Permit(ActivePath(), maxTotal - incoming)}
    }

    constructor (directory: LogDirectory, codec: Codec, maxFile: U64, maxTotal: U64, now: int)
      requires directory.Valid()
      ensures Valid() && current == None && segment == 0 && nextMaintenance == now + MAINTENANCE_INTERVAL
      ensures this.directory == directory && this.codec == codec && this.maxFile == maxFile && this.maxTotal == maxTotal
    {
      this.directory, this.codec, this.maxFile, this.maxTotal := directory, codec, maxFile, maxTotal;
      segment, current, nextMaintenance := 0, None, now + MAINTENANCE_INTERVAL;
    }

    function ActivePath(): Option<LogPath>
      reads this
    {
      if current.Some? then Some(current.value.path) else None
    }

    predicate MustRotate(day: string, incoming: nat)
      reads this
    {
      current.None? || current.value.day != day || current.value.bytesWritten + incoming > maxFile
    }

    function Plan(incoming: nat, now: Moment): Task
      reads this
    {
      Task(codec, maxTotal, ActivePath(), MustRotate(now.day, incoming), now.instant >= nextMaintenance)
    }

    lemma JoinSafe(first: seq<Change>, second: seq<Change>, a: Scope, b: Scope, scope: Scope)
      requires first <= second <= directory.journal && SafeSince(second, b)
      requires ChangesSince(SafeChanges(codec, a), directory.origin, second, |first|)
      requires Within(a, scope) && Within(b, scope)
      ensures SafeSince(first, scope)
    {
      WiderScope(codec, a, scope, directory.origin, second, |first|);
      WiderScope(codec, b, scope, directory.origin, directory.journal, |second|);
      ChangesThroughout(SafeChanges(codec, scope), directory.origin, second, directory.journal, |first|);
    }

    /** Enforces a limit; what goes is evicted when that is due. */
    method Enforce(active: Option<LogPath>, limit: U64)
      requires directory.Valid()
      modifies directory
      ensures directory.Valid() && SafeSince(old(directory.journal), NO_LOG.(evictions := {Permit(active, limit)}))
      ensures Enforced(old(directory.files), active, limit, directory.files)
    {
      EnforceCapacity(directory, active, limit);
      EvictionsAreSafe(codec, directory.origin, directory.journal, |old(directory.journal)|, active, limit);
    }

    /** Closes the active file: it is archived, and the total is enforced without an active file. */
    method Rotate() returns (ok: bool)
      requires Valid()
      modifies this`current, directory
      ensures Valid() && current == None
      ensures SafeSince(old(directory.journal), NO_LOG.(evictions := {Permit(None, maxTotal)}))
      ensures ok <==> old(current).Some? ==> Consistent(codec, old(directory.files), old(current).value.path)
      ensures ok ==>
                Rotated(Task(codec, maxTotal, old(ActivePath()), true, false), old(directory.files), directory.files)
      ensures !ok ==> directory.files == old(directory.files)
    {
      if current.None? {
        return true;
      }
      var path := current.value.path;
      current := None;
      ok := ArchiveFile(directory, codec, path);
      if ok {
        ghost var journal := directory.journal;
        Enforce(None, maxTotal);
        JoinSafe(old(directory.journal), journal, NO_LOG, NO_LOG.(evictions := {Permit(None, maxTotal)}),
                 NO_LOG.(evictions := {Permit(None, maxTotal)}));
      }
    }

    /** Opens an empty file under the first name not taken, counting segments up from the current one. */
    method OpenFile(now: Moment)
      requires Valid() && current == None && NamesAreDistinct(now)
      modifies this, directory
      ensures Valid() && current.Some? && current.value.day == now.day && current.value.bytesWritten == 0
      ensures ActivePath().value !in old(directory.files) && segment > old(segment)
      ensures ActivePath() == Some(PathOf(now, segment - 1))
      ensures forall s :: old(segment) <= s < segment - 1 ==>
                PathOf(now, s) in old(directory.files)
      ensures directory.files == old(directory.files)[ActivePath().value := []]
      ensures nextMaintenance == old(nextMaintenance)
      ensures SafeSince(old(directory.journal), Scope({ActivePath().value}, {}, Unarchived()))
    {
      var path := FindName(now);
      ghost var scope := Scope({path}, {}, ArchiveOf(path) !in directory.files);
      ChangesOneMore(SafeChanges(codec, scope), directory.origin, directory.journal, |directory.journal|,
                     Creates(path));
      directory.Create(path);
      current := Some(CurrentFile(path, now.day, 0));
    }

    method FindName(now: Moment) returns (path: LogPath)
      requires NamesAreDistinct(now)
      modifies this`segment
      ensures path !in directory.files && segment > old(segment)
      ensures path == PathOf(now, segment - 1)
      ensures forall s :: old(segment) <= s < segment - 1 ==>
                PathOf(now, s) in directory.files
    {
      ghost var taken: set<LogPath> := {};
      path := PathOf(now, segment);
      segment := segment + 1;
      while path in directory.files
        invariant segment > old(segment) && path == PathOf(now, segment - 1)
        invariant forall s :: old(segment) <= s < segment - 1 ==>
                  PathOf(now, s) in directory.files
        invariant taken <= directory.files.Keys
        invariant forall p :: p in taken ==>
                  exists s: nat :: s < segment - 1 && p == PathOf(now, s)
        decreases directory.files.Keys - taken
      {
        taken := taken + {path};
        path := PathOf(now, segment);
        segment := segment + 1;
      }
    }

    /** Archives every log but the active one, and enforces the total. */
    method Maintain() returns (ok: bool)
      requires Valid()
      modifies directory
      ensures Valid() && SafeSince(old(directory.journal), MaintenanceScope())
      ensures old(Unarchived()) ==> Unarchived()
      ensures ok <==> AllConsistent(codec, old(directory.files), ActivePath())
      ensures ok ==> Maintained(codec, old(directory.files), ActivePath(), maxTotal, directory.files)
      ensures !ok ==> PartlyArchived(codec, old(directory.files), ActivePath(), directory.files)
      ensures current.Some? ==> directory.files[ActivePath().value] == old(directory.files[ActivePath().value])
    {
      ghost var before := directory.files;
      ok := ArchiveClosedLogs(directory, ActivePath(), codec);
      ghost var archived, journal := directory.files, directory.journal;
      PartlyArchivedKeepsActive(codec, before, ActivePath(), archived);
      if ok {
        Enforce(ActivePath(), maxTotal);
        EnforcementKeepsActive(archived, ActivePath(), maxTotal, directory.files);
        JoinSafe(old(directory.journal), journal, NO_LOG, MaintenanceScope(), MaintenanceScope());
      } else {
        WiderScope(codec, NO_LOG, MaintenanceScope(), directory.origin, directory.journal, |old(directory.journal)|);
      }
    }

    /** The size of the file that a record of this size will be appended to. */
    function AppendedSize(day: string, incoming: nat): nat
      reads this
    {
      if MustRotate(day, incoming) then 0 else current.value.bytesWritten
    }

    method EnsureFile(incoming: nat, now: Moment, ghost clean: bool) returns (ok: bool)
      requires Valid() && NamesAreDistinct(now) && incoming <= maxFile && (clean ==> StaysClean(now))
      modifies this, directory
      ensures Valid() && SafeSince(old(directory.journal), WriteScope(incoming, clean))
      ensures Continues(old(ActivePath()), old(segment), now)
      ensures clean ==> Unarchived()
      ensures ok ==> current.Some? && current.value.day == now.day && current.value.bytesWritten + incoming <= maxFile
      ensures ok ==> current.value.bytesWritten == old(AppendedSize(now.day, incoming))
      ensures ok ==> Prepared(old(Plan(incoming, now)), old(directory.files), directory.files, current.value.path)
      ensures ok && !old(MustRotate(now.day, incoming)) ==> current == old(current)
      ensures ok && !old(MustRotate(now.day, incoming)) ==>
                directory.files[current.value.path] == old(directory.files[current.value.path])
      ensures !ok ==> Stopped(old(Plan(incoming, now)), old(directory.files), directory.files)
      // the next maintenance is due six hours after one that has succeeded
      ensures nextMaintenance
           == if ok && now.instant >= old(nextMaintenance) then now.instant + 6 * 60 * 60 else old(nextMaintenance)
    {
      ghost var plan, before := Plan(incoming, now), directory.files;
      ok := Reopen(incoming, now, clean);
      if !ok {
        WiderScope(codec, OpeningScope(clean), WriteScope(incoming, clean), directory.origin, directory.journal,
                   |old(directory.journal)|);
        return;
      }
      ghost var started, journal := directory.files, directory.journal;
      ok := MaintainIfDue(now);
      ScopesFit(incoming, clean);
      JoinSafe(old(directory.journal), journal, OpeningScope(clean), MaintenanceScope(), WriteScope(incoming, clean));
      MaintainingPrepares(plan, before, started, directory.files, current.value.path, ok);
    }

    method MaintainIfDue(now: Moment) returns (ok: bool)
      requires Valid() && current.Some?
      modifies this`nextMaintenance, directory
      ensures Valid() && SafeSince(old(directory.journal), MaintenanceScope())
      ensures old(Unarchived()) ==> Unarchived()
      ensures directory.files[current.value.path] == old(directory.files[current.value.path])
      ensures now.instant < old(nextMaintenance) ==> ok && directory.files == old(directory.files)
      ensures now.instant >= old(nextMaintenance) ==> ok == AllConsistent(codec, old(directory.files), ActivePath())
      ensures now.instant >= old(nextMaintenance) && ok ==>
                Maintained(codec, old(directory.files), ActivePath(), maxTotal, directory.files)
      ensures !ok ==> PartlyArchived(codec, old(directory.files), ActivePath(), directory.files)
      ensures nextMaintenance
           == if ok && now.instant >= old(nextMaintenance) then now.instant + 6 * 60 * 60 else old(nextMaintenance)
    {
      if now.instant < nextMaintenance {
        return true;
      }
      ok := Maintain();
      if ok {
        nextMaintenance := now.instant + MAINTENANCE_INTERVAL;
      }
    }

    /** The first half of `EnsureFile`: rotation, when it is called for. */
    method Reopen(incoming: nat, now: Moment, ghost clean: bool) returns (ok: bool)
      requires Valid() && NamesAreDistinct(now) && incoming <= maxFile && (clean ==> StaysClean(now))
      modifies this, directory
      ensures Valid() && SafeSince(old(directory.journal), OpeningScope(clean))
      ensures Continues(old(ActivePath()), old(segment), now)
      ensures clean ==> Unarchived()
      ensures nextMaintenance == old(nextMaintenance)
      ensures ok ==> current.Some? && current.value.day == now.day && current.value.bytesWritten + incoming <= maxFile
      ensures ok ==> current.value.bytesWritten == old(AppendedSize(now.day, incoming))
      ensures ok ==> Opened(old(Plan(incoming, now)), old(directory.files), directory.files, current.value.path)
      ensures !old(MustRotate(now.day, incoming)) ==> ok && current == old(current)
      ensures !ok ==> Stopped(old(Plan(incoming, now)), old(directory.files), directory.files)
    {
      if !MustRotate(now.day, incoming) {
        return true;
      }
      ghost var plan, before := Plan(incoming, now), directory.files;
      ok := Rotate();
      if ok {
        ghost var rotated, journal := directory.files, directory.journal;
        RotationNamesOnly(plan, before, rotated);
        OpenFile(now);
        JoinSafe(old(directory.journal), journal, NO_LOG.(evictions := {Permit(None, maxTotal)}),
                 Scope({ActivePath().value}, {}, Unarchived()), OpeningScope(clean));
        RotationOpens(plan, before, rotated, directory.files, current.value.path);
      }
    }

    /** `accepted` is how much of the buffer the file system takes. */
    method Write(buffer: seq<Byte>, now: Moment, accepted: nat) returns (result: WriteResult)
      requires Valid() && NamesAreDistinct(now) && accepted <= |buffer|
      modifies this, directory
      ensures Valid() && SafeSince(old(directory.journal), WriteScope(|buffer|, old(StaysClean(now))))
      ensures Continues(old(ActivePath()), old(segment), now)
      ensures old(StaysClean(now)) ==> Unarchived()
      ensures result.RecordTooLarge? <==> |buffer| > maxFile || |buffer| > maxTotal
      ensures result.RecordTooLarge? ==> directory.files == old(directory.files) && current == old(current)
      // a success has prepared the active file, made room when it had to, and appended the record
      ensures result.Written? ==> result.count == accepted && current.Some? && current.value.day == now.day
      ensures result.Written? ==>
                Appended(old(Plan(|buffer|, now)), old(directory.files), |buffer|, buffer[..accepted],
                         directory.files, current.value.path)
      ensures result.Written? ==> TotalSize(directory.files) <= maxTotal
      ensures result.Written? ==> |directory.files[current.value.path]| <= maxFile
      // to the active file when that is of the same day and has room, and to a new one otherwise
      ensures result.Written?
              && old(current.Some? && current.value.day == now.day
                     && current.value.bytesWritten + |buffer| <= maxFile) ==>
                current.value.path == old(current.value.path)
                && directory.files[current.value.path] == old(directory.files[current.value.path]) + buffer[..accepted]
      ensures result.Written?
              && !old(current.Some? && current.value.day == now.day
                      && current.value.bytesWritten + |buffer| <= maxFile) ==>
                directory.files[current.value.path] == buffer[..accepted]
      // a record fails to fit exactly when it and the file it is appended to exceed the total on their own
      ensures result.CannotFit? ==> old(AppendedSize(now.day, |buffer|)) + |buffer| > maxTotal
      ensures result.Written? ==> old(AppendedSize(now.day, |buffer|)) + |buffer| <= maxTotal
      ensures result.CannotFit? ==> current.Some?
      ensures result.CannotFit? ==>
                RoomFor(old(Plan(|buffer|, now)), old(directory.files), |buffer|, directory.files, current.value.path)
      ensures maxFile <= maxTotal ==> !result.CannotFit?
      // nothing but an archive in the way of rotation or maintenance stops a write before that
      ensures result.ArchiveMismatch? ==> Stopped(old(Plan(|buffer|, now)), old(directory.files), directory.files)
      // the next maintenance is due six hours after one that has succeeded
      ensures nextMaintenance
           == if now.instant >= old(nextMaintenance) && (result.Written? || result.CannotFit?)
              then now.instant + 6 * 60 * 60 else old(nextMaintenance)
    {
      var incoming := |buffer|;
      if incoming > maxFile || incoming > maxTotal {
        return RecordTooLarge;
      }
      ghost var plan, before, clean := Plan(incoming, now), directory.files, StaysClean(now);
      var ok := EnsureFile(incoming, now, clean);
      if !ok {
        return ArchiveMismatch;
      }
      var fits := AppendIfItFits(buffer, accepted, old(directory.journal), plan, before, clean);
      return if fits then Written(accepted) else CannotFit;
    }

    /** The second half of `Write`, with the active file prepared. */
    method AppendIfItFits(buffer: seq<Byte>, accepted: nat, ghost start: seq<Change>, ghost plan: Task,
        ghost before: Files, ghost clean: bool) returns (fits: bool)
      requires Valid() && current.Some? && |buffer| <= maxTotal && accepted <= |buffer| && plan.maxTotal == maxTotal
      requires SafeSince(start, WriteScope(|buffer|, clean))
      requires Prepared(plan, before, directory.files, current.value.path)
      requires clean ==> Unarchived()
      modifies this`current, directory
      ensures Valid() && current.Some? && SafeSince(start, WriteScope(|buffer|, clean))
      ensures clean ==> Unarchived()
      ensures current.value == old(current.value).(bytesWritten := current.value.bytesWritten)
      ensures current.value.bytesWritten == old(current.value.bytesWritten) + if fits then accepted else 0
      ensures directory.files[current.value.path]
           == old(directory.files[current.value.path]) + if fits then buffer[..accepted] else []
      ensures fits <==> old(current.value.bytesWritten) + |buffer| <= maxTotal
      ensures fits ==> TotalSize(directory.files) <= maxTotal
      ensures fits ==> Appended(plan, before, |buffer|, buffer[..accepted], directory.files, current.value.path)
      ensures !fits ==> RoomFor(plan, before, |buffer|, directory.files, current.value.path)
    {
      ghost var ready, journal := directory.files, directory.journal;
      fits := MakeRoom(|buffer|);
      ghost var emptied := directory.journal;
      RoomIsMade(plan, before, ready, |buffer|, directory.files, current.value.path);
      ScopesFit(|buffer|, clean);
      JoinSafe(start, journal, WriteScope(|buffer|, clean), RoomScope(|buffer|), WriteScope(|buffer|, clean));
      if fits {
        AppendRecord(buffer[..accepted], clean);
        JoinSafe(start, emptied, WriteScope(|buffer|, clean), Scope({current.value.path}, {}, clean),
                 WriteScope(|buffer|, clean));
      }
    }

    /** Evicts older files when the record would not fit the total otherwise. */
    method MakeRoom(incoming: nat) returns (ok: bool)
      requires Valid() && current.Some? && incoming <= maxTotal
      modifies directory
      ensures Valid() && SafeSince(old(directory.journal), RoomScope(incoming))
      ensures old(Unarchived()) ==> Unarchived()
      ensures MadeRoom(maxTotal, old(directory.files), incoming, directory.files, current.value.path)
      ensures directory.files[current.value.path] == old(directory.files[current.value.path])
      ensures ok <==> TotalSize(directory.files) + incoming <= maxTotal
      ensures ok <==> |directory.files[current.value.path]| + incoming <= maxTotal
    {
      var size := ManagedLogSize(directory);
      if size + incoming > maxTotal {
        ghost var ready := directory.files;
        var limit: U64 := maxTotal - incoming;
        EvictFor(current.value.path, limit);
        EnforcingMakesRoom(maxTotal, limit, ready, incoming, directory.files, current.value.path);
        RoomIsPermitted(incoming, limit, old(directory.journal));
        size := ManagedLogSize(directory);
      }
      ActiveIsCounted(directory.files, current.value.path);
      ok := size + incoming <= maxTotal;
    }

    lemma RoomIsPermitted(incoming: nat, limit: U64, journal: seq<Change>)
      requires current.Some? && limit + incoming == maxTotal
      requires SafeSince(journal, NO_LOG.(evictions := {Permit(Some(current.value.path), limit)}))
      ensures SafeSince(journal, RoomScope(incoming))
    {
      var narrow := NO_LOG.(evictions := {Permit(Some(current.value.path), limit)});
      assert Within(narrow, RoomScope(incoming));
      WiderScope(codec, narrow, RoomScope(incoming), directory.origin, directory.journal, |journal|);
    }

    method EvictFor(path: LogPath, limit: U64)
      requires directory.Valid() && path in directory.files && Managed(path)
      modifies directory
      ensures directory.Valid() && SafeSince(old(directory.journal), NO_LOG.(evictions := {Permit(Some(path), limit)}))
      ensures Enforced(old(directory.files), Some(path), limit, directory.files)
      ensures ArchiveOf(path) in directory.files ==> ArchiveOf(path) in old(directory.files)
      ensures path in directory.files && directory.files[path] == old(directory.files[path])
      ensures TotalSize(directory.files) <= limit || TotalSize(directory.files) == |directory.files[path]|
    {
      ghost var ready := directory.files;
      Enforce(Some(path), limit);
      FitsUnlessActiveIsTooLarge(ready, path, limit, directory.files);
    }

    method AppendRecord(bytes: seq<Byte>, ghost clean: bool)
      requires Valid() && current.Some? && (clean ==> Unarchived())
      modifies this`current, directory
      ensures Valid() && current == Some(old(current).value.(bytesWritten := old(current).value.bytesWritten + |bytes|))
      ensures directory.journal == old(directory.journal) + [Appends(current.value.path, bytes)]
      ensures SafeSince(old(directory.journal), Scope({current.value.path}, {}, clean)) && (clean ==> Unarchived())
      ensures directory.files
           == old(directory.files)[current.value.path := old(directory.files[current.value.path]) + bytes]
      ensures TotalSize(directory.files) == TotalSize(old(directory.files)) + |bytes|
    {
      var path := current.value.path;
      TotalSizeWithout(directory.files, path);
      TotalSizeWith(directory.files, path, directory.files[path] + bytes);
      ghost var scope := Scope({path}, {}, clean);
      ChangesOneMore(SafeChanges(codec, scope), directory.origin, directory.journal, |directory.journal|,
                     Appends(path, bytes));
      directory.Append(path, bytes);
      current := Some(current.value.(bytesWritten := current.value.bytesWritten + |bytes|));
    }
  }

  lemma RotationNamesOnly(t: Task, before: Files, after: Files)
    requires Rotated(t, before, after)
    ensures forall p :: ArchiveOf(p) in after && p.kind.Plain? ==> ArchiveOf(p) in before || t.active == Some(p)
  {
    if t.active.Some? {
      EnforcementKeeps(Archived(t.codec, before, t.active.value), None, t.maxTotal, after);
    }
  }

  lemma EnforcementKeepsActive(files: Files, active: Option<LogPath>, maxTotal: U64, after: Files)
    requires Enforced(files, active, maxTotal, after)
    ensures active.Some? ==> Get(after, active.value) == Get(files, active.value)
    ensures forall p :: p in after ==> p in files
  {
    EnforcementKeeps(files, active, maxTotal, after);
  }

  lemma PartlyArchivedKeepsActive(codec: Codec, before: Files, active: Option<LogPath>, files: Files)
    requires PartlyArchived(codec, before, active, files) && (active.Some? ==> active.value.kind.Plain?)
    ensures active.Some? ==> Get(files, active.value) == Get(before, active.value)
    ensures active.Some? && ArchiveOf(active.value) !in before ==> ArchiveOf(active.value) !in files
  {
    var done :| ArchivedSoFar(codec, before, files, done) && OnlyClosed(before, active, done);
    if active.Some? {
      assert Dealt(codec, before, files, active.value in done, active.value);
    }
  }

  /** Starting a writer archives what an earlier run left behind and enforces the total before anything is written. */
  method OpenWriter(directory: LogDirectory, codec: Codec, maxFile: U64, maxTotal: U64, now: int)
      returns (writer: Option<ManagedLogWriter>)
    requires directory.Valid()
    modifies directory
    ensures directory.Valid() && old(directory.journal) <= directory.journal
    ensures ChangesSince(SafeChanges(codec, NO_LOG.(evictions := {Permit(None, maxTotal)})),
                         directory.origin, directory.journal, |old(directory.journal)|)
    ensures writer.Some? <==> AllConsistent(codec, old(directory.files), None)
    ensures writer.Some? ==> writer.value.Valid() && writer.value.current == None && writer.value.directory == directory
    ensures writer.Some? ==> fresh(writer.value) && writer.value.codec == codec
    ensures writer.Some? ==> writer.value.maxFile == maxFile && writer.value.maxTotal == maxTotal
    ensures writer.Some? ==> Maintained(codec, old(directory.files), None, maxTotal, directory.files)
    ensures writer.Some? ==>
              TotalSize(directory.files) <= maxTotal && forall p :: p in directory.files ==> !p.kind.Plain?
    ensures writer.None? ==> PartlyArchived(codec, old(directory.files), None, directory.files)
  {
    ghost var before, start := directory.files, directory.journal;
    ghost var scope := NO_LOG.(evictions := {Permit(None, maxTotal)});
    var ok := ArchiveClosedLogs(directory, None, codec);
    WiderScope(codec, NO_LOG, scope, directory.origin, directory.journal, |start|);
    if !ok {
      return None;
    }
    ghost var archived, journal := directory.files, directory.journal;
    EnforceCapacity(directory, None, maxTotal);
    EnforcementKeeps(archived, None, maxTotal, directory.files);
    EvictionsAreSafe(codec, directory.origin, directory.journal, |journal|, None, maxTotal);
    ChangesThroughout(SafeChanges(codec, scope), directory.origin, journal, directory.journal, |start|);
    NoPlainLogLeft(codec, before, archived);
    NothingActiveFits(archived, maxTotal, directory.files);
    var opening := new ManagedLogWriter(directory, codec, maxFile, maxTotal, now);
    return Some(opening);
  }

  lemma NoPlainLogLeft(codec: Codec, before: Files, files: Files)
    requires AllArchived(codec, before, None, files)
    ensures forall p :: p in files ==> !p.kind.Plain?
  {
    var done :| ArchivedSoFar(codec, before, files, done) && AllClosed(before, None, done);
    forall p: LogPath ensures p.kind.Plain? ==> p !in files {
      assert p.kind.Plain? ==> Dealt(codec, before, files, p in done, p);
    }
  }

  lemma ActiveIsCounted(files: Files, path: LogPath)
    requires path in files && Managed(path)
    ensures TotalSize(files) >= |files[path]|
  {
    TotalSizeWithout(files, path);
  }

  lemma FitsUnlessActiveIsTooLarge(files: Files, path: LogPath, limit: U64, files': Files)
    requires path in files && Managed(path) && Enforced(files, Some(path), limit, files')
    ensures path in files' && files'[path] == files[path]
    ensures forall p :: p in files' ==> p in files
    ensures TotalSize(files') <= limit || TotalSize(files') == |files[path]|
  {
    EnforcementKeeps(files, Some(path), limit, files');
    if TotalSize(files') > limit {
      OnlyActiveLeft(files', path);
    }
  }

  lemma NothingActiveFits(files: Files, maxTotal: U64, files': Files)
    requires Enforced(files, None, maxTotal, files')
    ensures TotalSize(files') <= maxTotal
  {
    EnforcementKeeps(files, None, maxTotal, files');
    assert NothingManaged(files') ==> TotalSize(files') == 0;
  }

  method EmptyWriter(maxFile: U64, maxTotal: U64) returns (writer: ManagedLogWriter)
    ensures fresh(writer) && fresh(writer.directory) && writer.Valid() && writer.current == None
    ensures writer.maxFile == maxFile && writer.maxTotal == maxTotal && writer.nextMaintenance > 0
  {
    var directory := new LogDirectory(map[]);
    writer := new ManagedLogWriter(directory, Codec(c => c, c => Some(c)), maxFile, maxTotal, 0);
  }

  /** When a file may be larger than the total, a record within both limits can fail to fit. */
  method FileLimitAboveTotal(record: seq<Byte>, now: Moment) returns (first: WriteResult, second: WriteResult)
    requires |record| == 6 && NamesAreDistinct(now) && now.instant == 0
    ensures first == Written(6) && second == CannotFit
  {
    var writer := EmptyWriter(20, 10);
    first := writer.Write(record, now, 6);
    second := writer.Write(record, now, 6);
  }
}
