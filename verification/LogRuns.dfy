/** Whole sessions of the log writer: opening, any number of writes, a crash at any point, and opening again. */
module LogRuns {
  import opened Common
  import opened LogArchive
  import opened LogClosing
  import opened LogDisk
  import opened LogFiles
  import opened LogWriter

  // ----- consistency of the disk -----

  /** A log is written although an archive has its name. */
  predicate Clashes(files: Files, change: Change) {
    && (change.Creates? || (change.Appends? && change.path in files))
    && change.path.kind.Plain? && ArchiveOf(change.path) in files
  }

  /** The archive in question happens to hold what the log then holds. */
  predicate AgreesAnyway(codec: Codec, files: Files, change: Change)
    requires Clashes(files, change)
  {
    codec.decode(files[ArchiveOf(change.path)]) == Some(Apply(files, change)[change.path])
  }

  lemma ConsistentAfter(codec: Codec, scope: Scope, files: Files, change: Change, p: LogPath)
    requires codec.Lossless() && Safe(codec, scope, files, change) && p.kind.Plain? && p in Apply(files, change)
    requires p in files ==> Consistent(codec, files, p)
    ensures Consistent(codec, Apply(files, change), p) <==>
              (Clashes(files, change) && change.path == p ==> AgreesAnyway(codec, files, change))
  {
    if change.Renames? && change.to == ArchiveOf(p) {
      assert change.path.(kind := Plain) == p;
      assert codec.decode(codec.encode(files[p])) == Some(files[p]);
    }
  }

  /** On a consistent disk, a safe change leaves an inconsistent one exactly when it writes a log whose name an archive
      has that holds something else. */
  lemma ConsistencyExactlyWhen(codec: Codec, scope: Scope, files: Files, change: Change)
    requires codec.Lossless() && Safe(codec, scope, files, change) && AllConsistent(codec, files, None)
    ensures AllConsistent(codec, Apply(files, change), None) <==>
              (Clashes(files, change) ==> AgreesAnyway(codec, files, change))
  {
    forall p: LogPath | p.kind.Plain? && p in Apply(files, change)
      ensures Consistent(codec, Apply(files, change), p) <==>
                (Clashes(files, change) && change.path == p ==> AgreesAnyway(codec, files, change))
    {
      assert p in files ==> Closed(files, None, p);
      ConsistentAfter(codec, scope, files, change, p);
    }
    if Clashes(files, change) {
      assert Closed(Apply(files, change), None, change.path);
    }
  }

  /** A new log may get the name of an archive, because only the log's own name is looked up; opening then fails. */
  lemma ReusedNameStopsOpening(codec: Codec, p: LogPath)
    requires codec.Lossless() && p.kind.Plain?
    ensures var files := map[ArchiveOf(p) := codec.encode([1])];
            && AllConsistent(codec, files, None) && Safe(codec, Scope({p}, {}, false), files, Creates(p))
            && !AllConsistent(codec, Apply(files, Creates(p)), None)
  {
    var files: Files := map[ArchiveOf(p) := codec.encode([1])];
    var one: seq<Byte> := [1];
    assert codec.decode(codec.encode(one)) == Some(one);
    ConsistencyExactlyWhen(codec, Scope({p}, {}, false), files, Creates(p));
  }

  /** So a clean history never leaves a consistent disk inconsistent, and opening a writer on it succeeds after a crash
      at any point. */
  lemma {:induction false} CleanHistoryIsConsistent(codec: Codec, scope: Scope, origin: Files, journal: seq<Change>,
      n: nat, k: nat)
    requires codec.Lossless() && scope.clean && n <= k <= |journal|
    requires ChangesSince(SafeChanges(codec, scope), origin, journal, n)
    requires AllConsistent(codec, Replay(origin, journal[..n]), None)
    ensures AllConsistent(codec, Replay(origin, journal[..k]), None)
  {
    if k > n {
      CleanHistoryIsConsistent(codec, scope, origin, journal, n, k - 1);
      ReplayPrefix(origin, journal, k);
      assert SafeChanges(codec, scope)(Replay(origin, journal[..k - 1]), journal[k - 1]);
      ConsistencyExactlyWhen(codec, scope, Replay(origin, journal[..k - 1]), journal[k - 1]);
    }
  }

  /** On a consistent disk no archive is in the way of a write. */
  lemma NothingStopsAWrite(t: Task, before: Files, after: Files)
    requires AllConsistent(t.codec, before, None) && (t.active.Some? ==> t.active.value.kind.Plain?)
    ensures !Stopped(t, before, after)
  {
    if t.active.Some? && t.active.value in before {
      assert Closed(before, None, t.active.value);
    }
    forall started, path | Opened(t, before, started, path) ensures AllConsistent(t.codec, started, Some(path)) {
      OpenedIsConsistent(t, before, started, path);
    }
  }

  lemma OpenedIsConsistent(t: Task, before: Files, started: Files, path: LogPath)
    requires AllConsistent(t.codec, before, None) && Opened(t, before, started, path)
    ensures AllConsistent(t.codec, started, Some(path))
  {
    if t.rotates {
      var rotated :| RotatedAndOpened(t, before, rotated, started, path);
      forall p | Closed(started, Some(path), p) ensures Consistent(t.codec, started, p) {
        RotationKeepsConsistent(t, before, rotated, p);
      }
    } else {
      forall p | Closed(started, Some(path), p) ensures Consistent(t.codec, started, p) {
        assert Closed(before, None, p);
      }
    }
  }

  lemma RotationKeepsConsistent(t: Task, before: Files, rotated: Files, p: LogPath)
    requires AllConsistent(t.codec, before, None) && Rotated(t, before, rotated) && p.kind.Plain? && p in rotated
    ensures Consistent(t.codec, rotated, p)
  {
    if t.active.Some? {
      EnforcementKeeps(Archived(t.codec, before, t.active.value), None, t.maxTotal, rotated);
    }
    assert Closed(before, None, p);
  }

  // ----- names -----

  /** A log or an archive has this name. */
  predicate Named(files: Files, p: LogPath) {
    p in files || ArchiveOf(p) in files
  }

  /** Nothing but the logs of the scope gets a name that was not there before. */
  lemma {:induction false} NamesComeFromScope(codec: Codec, scope: Scope, origin: Files, journal: seq<Change>,
      n: nat, k: nat, p: LogPath)
    requires n <= k <= |journal| && p.kind.Plain?
    requires ChangesSince(SafeChanges(codec, scope), origin, journal, n)
    ensures Named(Replay(origin, journal[..k]), p) ==> Named(Replay(origin, journal[..n]), p) || p in scope.logs
  {
    if k > n {
      NamesComeFromScope(codec, scope, origin, journal, n, k - 1, p);
      ReplayPrefix(origin, journal, k);
      assert SafeChanges(codec, scope)(Replay(origin, journal[..k - 1]), journal[k - 1]);
      NewName(codec, scope, Replay(origin, journal[..k - 1]), journal[k - 1], p);
    }
  }

  lemma NewName(codec: Codec, scope: Scope, files: Files, change: Change, p: LogPath)
    requires Safe(codec, scope, files, change) && p.kind.Plain?
    ensures Named(Apply(files, change), p) ==> Named(files, p) || p in scope.logs
  {
  }

  // ----- a session -----

  datatype Record = Record(bytes: seq<Byte>, now: Moment, accepted: nat)

  ghost predicate NamesTellSegments(records: seq<Record>) {
    forall i, j, s, t :: 0 <= i < |records| && 0 <= j < |records| ==>
      PathOf(records[i].now, s) == PathOf(records[j].now, t) ==> s == t
  }

  /** The names of a session tell the segment number, and no earlier session has used them. */
  ghost predicate OneSession(records: seq<Record>, files: Files) {
    && NamesTellSegments(records)
    && (forall i, s :: 0 <= i < |records| ==> !Named(files, PathOf(records[i].now, s)))
  }

  ghost predicate UsedBefore(records: seq<Record>, n: nat, segment: nat, p: LogPath)
    requires n <= |records|
  {
    exists i, s :: 0 <= i < n && 0 <= s < segment && p == PathOf(records[i].now, s)
  }

  /** The logs written in the session so far, and the limits it may have enforced. */
  ghost predicate SessionScope(scope: Scope, records: seq<Record>, n: nat, segment: nat, maxTotal: U64)
    requires n <= |records|
  {
    && scope.clean
    && (forall p :: p in scope.logs ==> UsedBefore(records, n, segment, p))
    && (forall permit :: permit in scope.evictions ==> LimitFits(permit.limit, records, maxTotal))
  }

  /** The limit is the total, or what a record of the session leaves of it. */
  ghost predicate LimitFits(limit: U64, records: seq<Record>, maxTotal: U64) {
    limit == maxTotal || exists i :: 0 <= i < |records| && limit + |records[i].bytes| == maxTotal
  }

  /** At this point of the journal the record is at the end of this log. */
  predicate RecordedAt(origin: Files, journal: seq<Change>, at: nat, path: LogPath, content: seq<Byte>,
      bytes: seq<Byte>)
  {
    && at <= |journal| && path.kind.Plain? && Get(Replay(origin, journal[..at]), path) == Some(content)
    && |bytes| <= |content| && content[|content| - |bytes|..] == bytes
  }

  datatype Place = Place(at: nat, path: LogPath, content: seq<Byte>)

  /** Every record that was written is in the place given for it. */
  predicate AllRecorded(origin: Files, journal: seq<Change>, start: nat, records: seq<Record>,
      results: seq<WriteResult>, places: seq<Place>)
  {
    && |results| == |places| <= |records|
    && forall i :: 0 <= i < |results| && results[i].Written? ==>
         && start <= places[i].at && records[i].accepted <= |records[i].bytes|
         && RecordedAt(origin, journal, places[i].at, places[i].path, places[i].content,
                       records[i].bytes[..records[i].accepted])
  }

  lemma StillRecorded(origin: Files, journal: seq<Change>, longer: seq<Change>, start: nat, records: seq<Record>,
      results: seq<WriteResult>, places: seq<Place>)
    requires journal <= longer && AllRecorded(origin, journal, start, records, results, places)
    ensures AllRecorded(origin, longer, start, records, results, places)
  {
    forall i | 0 <= i < |results| && results[i].Written?
      ensures RecordedAt(origin, longer, places[i].at, places[i].path, places[i].content,
                         records[i].bytes[..records[i].accepted])
    {
      assert longer[..places[i].at] == journal[..places[i].at];
    }
  }

  /** What holds of the disk and the writer between two writes of a session. */
  ghost predicate InSession(writer: ManagedLogWriter, start: seq<Change>, before: Files, records: seq<Record>, n: nat,
      scope: Scope)
    requires n <= |records|
    reads writer, writer.directory
  {
    && writer.Valid() && writer.Unarchived() && writer.SafeSince(start, scope)
    && SessionScope(scope, records, n, writer.segment, writer.maxTotal)
    && (writer.current.Some? ==> writer.current.value.path in scope.logs)
    && before == Replay(writer.directory.origin, start)
  }

  lemma NamesAreFreeInSession(writer: ManagedLogWriter, start: seq<Change>, before: Files, records: seq<Record>, n: nat,
      scope: Scope)
    requires n < |records| && InSession(writer, start, before, records, n, scope) && OneSession(records, before)
    ensures writer.StaysClean(records[n].now) && NamesAreDistinct(records[n].now)
  {
    var journal := writer.directory.journal;
    assert journal[..|journal|] == journal && journal[..|start|] == start;
    forall s | s >= writer.segment
      ensures ArchiveOf(PathOf(records[n].now, s)) !in writer.directory.files
      ensures writer.ActivePath() != Some(PathOf(records[n].now, s))
    {
      var p := PathOf(records[n].now, s);
      NotUsedYet(records, n, writer.segment, s);
      NamesComeFromScope(writer.codec, scope, writer.directory.origin, journal, |start|, |journal|, p);
    }
    forall s: nat, t: nat | records[n].now.name(s) == records[n].now.name(t) ensures s == t {
      assert PathOf(records[n].now, s) == PathOf(records[n].now, t);
    }
  }

  lemma NotUsedYet(records: seq<Record>, n: nat, segment: nat, s: nat)
    requires n < |records| && s >= segment && NamesTellSegments(records)
    ensures !UsedBefore(records, n, segment, PathOf(records[n].now, s))
  {
  }

  lemma UsedStays(records: seq<Record>, n: nat, segment: nat, m: nat, later: nat, p: LogPath)
    requires n <= m <= |records| && segment <= later && UsedBefore(records, n, segment, p)
    ensures UsedBefore(records, m, later, p)
  {
    var i, s :| 0 <= i < n && 0 <= s < segment && p == PathOf(records[i].now, s);
    assert 0 <= i < m && 0 <= s < later;
  }

  lemma ScopeGrows(scope: Scope, more: Scope, records: seq<Record>, n: nat, segment: nat, later: nat, maxTotal: U64)
    requires n < |records| && segment <= later && SessionScope(scope, records, n, segment, maxTotal) && more.clean
    requires forall p :: p in more.logs ==>
               p in scope.logs || (later > segment && p == PathOf(records[n].now, later - 1))
    requires forall permit :: permit in more.evictions ==> LimitFits(permit.limit, records, maxTotal)
    ensures SessionScope(Both(scope, more), records, n + 1, later, maxTotal)
  {
    forall p | p in scope.logs + more.logs ensures UsedBefore(records, n + 1, later, p) {
      if p in scope.logs {
        UsedStays(records, n, segment, n + 1, later, p);
      }
    }
  }

  method WriteNext(writer: ManagedLogWriter, records: seq<Record>, n: nat, ghost start: seq<Change>,
      ghost before: Files, ghost scope: Scope) returns (result: WriteResult, ghost wider: Scope, ghost place: Place)
    requires n < |records| && records[n].accepted <= |records[n].bytes| && writer.codec.Lossless()
    requires InSession(writer, start, before, records, n, scope) && OneSession(records, before)
    requires AllConsistent(writer.codec, before, None)
    modifies writer, writer.directory
    ensures old(writer.directory.journal) <= writer.directory.journal
    ensures InSession(writer, start, before, records, n + 1, wider)
    ensures !result.ArchiveMismatch?
    ensures result.Written? ==>
              place.at == |writer.directory.journal|
              && RecordedAt(writer.directory.origin, writer.directory.journal, place.at, place.path, place.content,
                            records[n].bytes[..records[n].accepted])
  {
    var r := records[n];
    NamesAreFreeInSession(writer, start, before, records, n, scope);
    DiskIsConsistent(writer, start, before, records, n, scope);
    ghost var journal, segment := writer.directory.journal, writer.segment;
    result, place := WriteUnhindered(writer, r);
    ghost var more := writer.WriteScope(|r.bytes|, true);
    wider := Both(scope, more);
    writer.JoinSafe(start, journal, scope, more, wider);
    ScopeGrows(scope, more, records, n, segment, writer.segment, writer.maxTotal);
  }

  /** On a consistent disk, with no archive under a name that the writer may use. */
  method WriteUnhindered(writer: ManagedLogWriter, r: Record) returns (result: WriteResult, ghost place: Place)
    requires writer.Valid() && r.accepted <= |r.bytes|
    requires writer.StaysClean(r.now) && NamesAreDistinct(r.now)
    requires AllConsistent(writer.codec, writer.directory.files, None)
    modifies writer, writer.directory
    ensures writer.Valid() && writer.Unarchived()
    ensures writer.SafeSince(old(writer.directory.journal), writer.WriteScope(|r.bytes|, true))
    ensures writer.Continues(old(writer.ActivePath()), old(writer.segment), r.now)
    ensures !result.ArchiveMismatch?
    ensures result.Written? ==>
              place.at == |writer.directory.journal|
              && RecordedAt(writer.directory.origin, writer.directory.journal, place.at, place.path, place.content,
                            r.bytes[..r.accepted])
  {
    ghost var plan, files := writer.Plan(|r.bytes|, r.now), writer.directory.files;
    result := writer.Write(r.bytes, r.now, r.accepted);
    NothingStopsAWrite(plan, files, writer.directory.files);
    place := Place(0, LogPath(0, "", Plain), []);
    if result.Written? {
      place := Place(|writer.directory.journal|, writer.current.value.path,
                     writer.directory.files[writer.current.value.path]);
      assert writer.directory.journal[..place.at] == writer.directory.journal;
    }
  }

  lemma DiskIsConsistent(writer: ManagedLogWriter, start: seq<Change>, before: Files, records: seq<Record>, n: nat,
      scope: Scope)
    requires n <= |records| && InSession(writer, start, before, records, n, scope)
    requires writer.codec.Lossless() && AllConsistent(writer.codec, before, None)
    ensures forall k :: |start| <= k <= |writer.directory.journal| ==>
              AllConsistent(writer.codec, Replay(writer.directory.origin, writer.directory.journal[..k]), None)
    ensures AllConsistent(writer.codec, writer.directory.files, None)
  {
    var journal := writer.directory.journal;
    assert journal[..|start|] == start && journal[..|journal|] == journal;
    forall k | |start| <= k <= |journal|
      ensures AllConsistent(writer.codec, Replay(writer.directory.origin, journal[..k]), None)
    {
      CleanHistoryIsConsistent(writer.codec, scope, writer.directory.origin, journal, |start|, k);
    }
  }

  method Begin(directory: LogDirectory, codec: Codec, maxFile: U64, maxTotal: U64, now: int, ghost records: seq<Record>)
      returns (writer: ManagedLogWriter, ghost scope: Scope)
    requires directory.Valid() && AllConsistent(codec, directory.files, None)
    modifies directory
    ensures fresh(writer) && writer.directory == directory && writer.codec == codec && writer.maxTotal == maxTotal
    ensures InSession(writer, old(directory.journal), old(directory.files), records, 0, scope)
  {
    var opening := OpenWriter(directory, codec, maxFile, maxTotal, now);
    writer := opening.value;
    scope := NO_LOG.(evictions := {Permit(None, maxTotal)});
  }

  lemma OneMoreRecorded(origin: Files, journal: seq<Change>, longer: seq<Change>, start: nat, records: seq<Record>,
      results: seq<WriteResult>, places: seq<Place>, result: WriteResult, place: Place)
    requires journal <= longer && AllRecorded(origin, journal, start, records, results, places)
    requires |results| < |records| && start <= |longer|
    requires result.Written? ==>
               && place.at == |longer| && records[|results|].accepted <= |records[|results|].bytes|
               && RecordedAt(origin, longer, place.at, place.path, place.content,
                             records[|results|].bytes[..records[|results|].accepted])
    ensures AllRecorded(origin, longer, start, records, results + [result], places + [place])
  {
    StillRecorded(origin, journal, longer, start, records, results, places);
  }

  method WriteAll(writer: ManagedLogWriter, records: seq<Record>, ghost start: seq<Change>, ghost before: Files,
      ghost begun: Scope) returns (results: seq<WriteResult>, ghost scope: Scope, ghost places: seq<Place>)
    requires InSession(writer, start, before, records, 0, begun) && OneSession(records, before)
    requires writer.codec.Lossless() && AllConsistent(writer.codec, before, None)
    requires forall i :: 0 <= i < |records| ==> records[i].accepted <= |records[i].bytes|
    modifies writer, writer.directory
    ensures InSession(writer, start, before, records, |records|, scope)
    ensures |results| == |records| && forall i :: 0 <= i < |results| ==> !results[i].ArchiveMismatch?
    ensures AllRecorded(writer.directory.origin, writer.directory.journal, |start|, records, results, places)
  {
    results, scope, places := [], begun, [];
    for n := 0 to |records|
      invariant InSession(writer, start, before, records, n, scope)
      invariant |results| == n && forall i :: 0 <= i < n ==> !results[i].ArchiveMismatch?
      invariant AllRecorded(writer.directory.origin, writer.directory.journal, |start|, records, results, places)
    {
      ghost var journal := writer.directory.journal;
      ghost var place;
      var result;
      result, scope, place := WriteNext(writer, records, n, start, before, scope);
      OneMoreRecorded(writer.directory.origin, journal, writer.directory.journal, |start|, records, results, places,
                      result, place);
      results, places := results + [result], places + [place];
    }
  }

  /** A writer is opened on a consistent disk and writes the records one after the other.  No archive ever stops it;
      whenever the process is stopped, the disk is consistent, so that opening again succeeds; every written record is
      at the end of a log; and every change was safe, within the limits of the session. */
  method Session(directory: LogDirectory, codec: Codec, maxFile: U64, maxTotal: U64, now: int, records: seq<Record>)
      returns (results: seq<WriteResult>, ghost scope: Scope, ghost places: seq<Place>, ghost segment: nat)
    requires directory.Valid() && codec.Lossless() && AllConsistent(codec, directory.files, None)
    requires OneSession(records, directory.files)
    requires forall i :: 0 <= i < |records| ==> records[i].accepted <= |records[i].bytes|
    modifies directory
    ensures |results| == |records| && forall i :: 0 <= i < |results| ==> !results[i].ArchiveMismatch?
    ensures directory.Valid() && old(directory.journal) <= directory.journal
    ensures ChangesSince(SafeChanges(codec, scope), directory.origin, directory.journal, |old(directory.journal)|)
    ensures SessionScope(scope, records, |records|, segment, maxTotal)
    ensures forall k :: |old(directory.journal)| <= k <= |directory.journal| ==>
              AllConsistent(codec, Replay(directory.origin, directory.journal[..k]), None)
    ensures AllRecorded(directory.origin, directory.journal, |old(directory.journal)|, records, results, places)
  {
    ghost var start, before := directory.journal, directory.files;
    var writer;
    writer, scope := Begin(directory, codec, maxFile, maxTotal, now, records);
    results, scope, places := WriteAll(writer, records, start, before, scope);
    segment := writer.segment;
    DiskIsConsistent(writer, start, before, records, |records|, scope);
  }

  /** A crash at any point after a record was written leaves it in its log or in an archive, unless it was evicted. */
  lemma RecordsSurviveACrash(codec: Codec, scope: Scope, origin: Files, journal: seq<Change>, start: nat,
      records: seq<Record>, results: seq<WriteResult>, places: seq<Place>, i: nat, k: nat)
    requires codec.Lossless() && ChangesSince(SafeChanges(codec, scope), origin, journal, start)
    requires AllRecorded(origin, journal, start, records, results, places)
    requires i < |results| && results[i].Written? && places[i].at <= k <= |journal|
    ensures Preserved(codec, Replay(origin, journal[..k]), places[i].path, places[i].content)
            || EvictedBetween(journal, places[i].at, k, places[i].path)
  {
    CrashLosesNothing(codec, scope, origin, journal, places[i].at, k, places[i].path, places[i].content);
  }

  /** Opening again on what a crash left keeps it too, unless the total is exceeded and its archive has to go. */
  lemma OpeningAgainKeeps(codec: Codec, crashed: Files, maxTotal: U64, after: Files, p: LogPath, content: seq<Byte>)
      returns (archived: Files, removed: set<LogPath>)
    requires codec.Lossless() && p.kind.Plain? && Preserved(codec, crashed, p, content)
    requires AllConsistent(codec, crashed, None) && Maintained(codec, crashed, None, maxTotal, after)
    ensures AllArchived(codec, crashed, None, archived) && after == archived - removed
    ensures removed == {}
            || (TotalSize(archived) > maxTotal && ShortestOldestRun(archived, None, LowWater(maxTotal), removed))
    ensures Preserved(codec, after, p, content) || ArchiveOf(p) in removed
  {
    archived :| AllArchived(codec, crashed, None, archived) && Enforced(archived, None, maxTotal, after);
    removed := EnforcementRemoves(archived, None, maxTotal, after);
    ArchivingKeeps(codec, crashed, archived, p, content);
  }

  lemma ArchivingKeeps(codec: Codec, crashed: Files, archived: Files, p: LogPath, content: seq<Byte>)
    requires codec.Lossless() && p.kind.Plain? && Preserved(codec, crashed, p, content)
    requires AllConsistent(codec, crashed, None) && AllArchived(codec, crashed, None, archived)
    ensures p !in archived && Preserved(codec, archived, p, content)
  {
    var done :| ArchivedSoFar(codec, crashed, archived, done) && AllClosed(crashed, None, done);
    assert Dealt(codec, crashed, archived, p in done, p);
    if p in crashed {
      assert Closed(crashed, None, p);
      ArchivingKeepsContent(codec, crashed, None, archived, p);
    }
  }
}
