/** Archiving of closed log files, one file-system change at a time. */
module LogArchive {
  import opened Common
  import opened LogDisk
  import opened LogFiles

  /** The compression codec; `decode` fails on damaged data. */
  datatype Codec = Codec(encode: seq<Byte> -> seq<Byte>, decode: seq<Byte> -> Option<seq<Byte>>) {
    ghost predicate Lossless() {
      forall content :: decode(encode(content)) == Some(content)
    }
  }

  function ArchiveOf(p: LogPath): LogPath {
    p.(kind := Archive)
  }

  function TemporaryOf(p: LogPath): LogPath {
    p.(kind := Temporary)
  }

  /** An archive that is already there must hold what the source holds. */
  predicate Consistent(codec: Codec, files: Files, p: LogPath)
    requires p in files
  {
    ArchiveOf(p) in files ==> codec.decode(files[ArchiveOf(p)]) == Some(files[p])
  }

  /** The files once p has been archived. */
  function Archived(codec: Codec, files: Files, p: LogPath): Files
    requires p in files && p.kind.Plain?
  {
    if ArchiveOf(p) in files then files - {p}
    else (files - {TemporaryOf(p)} - {p})[ArchiveOf(p) := codec.encode(files[p])]
  }

  /** The states the disk goes through while p is archived; a crash can leave any of them. */
  ghost predicate Intermediate(codec: Codec, files: Files, p: LogPath, s: Files)
    requires p in files && p.kind.Plain?
  {
    if ArchiveOf(p) in files then s == files || (Consistent(codec, files, p) && s == files - {p})
    else
      var clean, encoded := files - {TemporaryOf(p)}, codec.encode(files[p]);
      || s == files
      || s == clean
      || (exists k :: 0 <= k <= |encoded| && s == clean[TemporaryOf(p) := encoded[..k]])
      || s == clean[ArchiveOf(p) := encoded]
      || s == Archived(codec, files, p)
  }

  // ----- what may be done to the disk -----

  predicate ArchiveHolds(codec: Codec, files: Files, p: LogPath) {
    && p in files && ArchiveOf(p) in files
    && (codec.decode(files[ArchiveOf(p)]) == Some(files[p]) || files[ArchiveOf(p)] == codec.encode(files[p]))
  }

  /** An eviction that is allowed: with this file active, for this limit. */
  datatype Permit = Permit(active: Option<LogPath>, limit: U64)

  /** Which logs may be created and appended to, and which evictions are allowed.  In a clean scope no log is written
      whose name an archive already has. */
  datatype Scope = Scope(logs: set<LogPath>, evictions: set<Permit>, clean: bool)

  const NO_LOG := Scope({}, {}, true)

  predicate Within(narrow: Scope, wide: Scope) {
    narrow.logs <= wide.logs && narrow.evictions <= wide.evictions && (wide.clean ==> narrow.clean)
  }

  function Both(a: Scope, b: Scope): Scope {
    Scope(a.logs + b.logs, a.evictions + b.evictions, a.clean && b.clean)
  }

  predicate MayWrite(scope: Scope, files: Files, p: LogPath) {
    p.kind.Temporary? || (p.kind.Plain? && p in scope.logs && (scope.clean ==> ArchiveOf(p) !in files))
  }

  /** Archives are written nowhere but in a temporary file, renamed only when complete and only to a free name; a log
      goes only when an archive holds it or when its eviction is allowed and due; an archive goes only by eviction. */
  ghost predicate Safe(codec: Codec, scope: Scope, files: Files, change: Change) {
    match change
    case Creates(p) => p !in files && MayWrite(scope, files, p)
    case Appends(p, _) => MayWrite(scope, files, p)
    case Renames(p, to) =>
      var source := p.(kind := Plain);
      && p == TemporaryOf(source) && to == ArchiveOf(source) && to !in files
      && source in files && Get(files, p) == Some(codec.encode(files[source]))
    case Removes(p) => p.kind.Temporary? || (p.kind.Plain? && ArchiveHolds(codec, files, p))
    case Evicts(p, active, limit) => Permit(active, limit) in scope.evictions && EvictionIsDue(files, p, active, limit)
  }

  ghost function SafeChanges(codec: Codec, scope: Scope): (Files, Change) -> bool {
    (files: Files, change: Change) => Safe(codec, scope, files, change)
  }

  lemma WiderScope(codec: Codec, narrow: Scope, wide: Scope, origin: Files, journal: seq<Change>, n: nat)
    requires Within(narrow, wide) && ChangesSince(SafeChanges(codec, narrow), origin, journal, n)
    ensures ChangesSince(SafeChanges(codec, wide), origin, journal, n)
  {
    forall k | n <= k < |journal| ensures SafeChanges(codec, wide)(Replay(origin, journal[..k]), journal[k]) {
      assert SafeChanges(codec, narrow)(Replay(origin, journal[..k]), journal[k]);
    }
  }

  ghost function Stages(codec: Codec, before: Files, p: LogPath): Files -> bool
    requires p in before && p.kind.Plain?
  {
    (s: Files) => Intermediate(codec, before, p, s)
  }

  lemma EvictionsAreSafe(codec: Codec, origin: Files, journal: seq<Change>, n: nat, active: Option<LogPath>, limit: U64)
    requires ChangesSince(DueEvictions(active, limit), origin, journal, n)
    ensures ChangesSince(SafeChanges(codec, NO_LOG.(evictions := {Permit(active, limit)})), origin, journal, n)
  {
    var scope := NO_LOG.(evictions := {Permit(active, limit)});
    forall k | n <= k < |journal| ensures SafeChanges(codec, scope)(Replay(origin, journal[..k]), journal[k]) {
      assert DueEvictions(active, limit)(Replay(origin, journal[..k]), journal[k]);
    }
  }

  // ----- archiving one log -----

  /** What archiving p has done to the disk since the journal had n entries. */
  ghost predicate Archiving(codec: Codec, before: Files, p: LogPath, directory: LogDirectory, n: nat)
    requires p in before && p.kind.Plain?
    reads directory
  {
    && directory.Valid() && n <= |directory.journal|
    && ChangesSince(SafeChanges(codec, NO_LOG), directory.origin, directory.journal, n)
    && StatesSince(Stages(codec, before, p), directory.origin, directory.journal, n)
  }

  lemma OneMoreChange(codec: Codec, before: Files, p: LogPath, directory: LogDirectory, n: nat, change: Change)
    requires p in before && p.kind.Plain? && Archiving(codec, before, p, directory, n)
    requires Safe(codec, NO_LOG, directory.files, change)
    requires Intermediate(codec, before, p, Apply(directory.files, change))
    ensures ChangesSince(SafeChanges(codec, NO_LOG), directory.origin, directory.journal + [change], n)
    ensures StatesSince(Stages(codec, before, p), directory.origin, directory.journal + [change], n)
  {
    ChangesOneMore(SafeChanges(codec, NO_LOG), directory.origin, directory.journal, n, change);
    StatesOneMore(Stages(codec, before, p), directory.origin, directory.journal, n, change);
  }

  /** The comparison of two buffered readers, each of which hands out its data in pieces of any size. */
  method ValidateArchiveMatchesSource(codec: Codec, source: seq<Byte>, archive: seq<Byte>) returns (ok: bool)
    ensures ok <==> codec.decode(archive) == Some(source)
  {
    var decoded := codec.decode(archive);
    if decoded.None? {
      return false;
    }
    var i := 0;
    while true
      invariant 0 <= i <= |source| && i <= |decoded.value|
      invariant source[..i] == decoded.value[..i]
      decreases |source| - i
    {
      var left, right := |source| - i, |decoded.value| - i;
      if left == 0 || right == 0 {
        assert source[..|source|] == source && decoded.value[..|decoded.value|] == decoded.value;
        return left == 0 && right == 0;
      }
      var sourceBuffered :| 1 <= sourceBuffered <= left;
      var archiveBuffered :| 1 <= archiveBuffered <= right;
      var compared := if sourceBuffered < archiveBuffered then sourceBuffered else archiveBuffered;
      if source[i..i + compared] != decoded.value[i..i + compared] {
        assert source[i..i + compared] != decoded.value[i..i + compared];
        return false;
      }
      assert source[..i + compared] == source[..i] + source[i..i + compared];
      assert decoded.value[..i + compared] == decoded.value[..i] + decoded.value[i..i + compared];
      i := i + compared;
    }
  }

  /** Every change is safe, and every state in between is one from which archiving can be taken up again. */
  method ArchiveFile(directory: LogDirectory, codec: Codec, p: LogPath) returns (ok: bool)
    requires directory.Valid() && p in directory.files && p.kind.Plain?
    modifies directory
    ensures ok == Consistent(codec, old(directory.files), p)
    ensures directory.files == if ok then Archived(codec, old(directory.files), p) else old(directory.files)
    ensures old(directory.journal) <= directory.journal
    ensures Archiving(codec, old(directory.files), p, directory, |old(directory.journal)|)
  {
    assert directory.journal[..|directory.journal|] == directory.journal;
    if ArchiveOf(p) in directory.files {
      ok := ValidateArchiveMatchesSource(codec, directory.files[p], directory.files[ArchiveOf(p)]);
      if ok {
        OneMoreChange(codec, directory.files, p, directory, |directory.journal|, Removes(p));
        directory.Remove(p);
      }
    } else {
      CreateArchive(directory, codec, p);
      ok := true;
    }
  }

  method CreateArchive(directory: LogDirectory, codec: Codec, p: LogPath)
    requires p in directory.files && p.kind.Plain? && ArchiveOf(p) !in directory.files
    requires Archiving(codec, directory.files, p, directory, |directory.journal|)
    modifies directory
    ensures directory.files == Archived(codec, old(directory.files), p) && old(directory.journal) <= directory.journal
    ensures Archiving(codec, old(directory.files), p, directory, |old(directory.journal)|)
  {
    ghost var before, start := directory.files, |directory.journal|;
    OneMoreChange(codec, before, p, directory, start, Removes(TemporaryOf(p)));
    directory.Remove(TemporaryOf(p));
    WriteTemporary(directory, codec, p, before, start);
    Publish(directory, codec, p, before, start);
  }

  method Publish(directory: LogDirectory, codec: Codec, p: LogPath, ghost before: Files, ghost start: nat)
    requires p in before && p.kind.Plain? && ArchiveOf(p) !in before && Archiving(codec, before, p, directory, start)
    requires directory.files == (before - {TemporaryOf(p)})[TemporaryOf(p) := codec.encode(before[p])]
    modifies directory
    ensures directory.files == Archived(codec, before, p) && old(directory.journal) <= directory.journal
    ensures Archiving(codec, before, p, directory, start)
  {
    PublishIsSafe(codec, before, p);
    OneMoreChange(codec, before, p, directory, start, Renames(TemporaryOf(p), ArchiveOf(p)));
    directory.Rename(TemporaryOf(p), ArchiveOf(p));
    OneMoreChange(codec, before, p, directory, start, Removes(p));
    directory.Remove(p);
  }

  /** Renaming the complete temporary file, and then removing the source. */
  lemma PublishIsSafe(codec: Codec, before: Files, p: LogPath)
    requires p in before && p.kind.Plain? && ArchiveOf(p) !in before
    ensures var encoded, clean := codec.encode(before[p]), before - {TemporaryOf(p)};
            var complete, published := clean[TemporaryOf(p) := encoded], clean[ArchiveOf(p) := encoded];
            && Safe(codec, NO_LOG, complete, Renames(TemporaryOf(p), ArchiveOf(p)))
            && Apply(complete, Renames(TemporaryOf(p), ArchiveOf(p))) == published
            && Intermediate(codec, before, p, published)
            && Safe(codec, NO_LOG, published, Removes(p))
            && Apply(published, Removes(p)) == Archived(codec, before, p)
            && Intermediate(codec, before, p, Archived(codec, before, p))
  {
    var source := TemporaryOf(p).(kind := Plain);
    assert source == p;
  }

  /** The encoder writes in pieces of any size. */
  method WriteTemporary(directory: LogDirectory, codec: Codec, p: LogPath, ghost before: Files, ghost start: nat)
    requires p in before && p.kind.Plain? && ArchiveOf(p) !in before
    requires directory.files == before - {TemporaryOf(p)} && Archiving(codec, before, p, directory, start)
    modifies directory
    ensures Archiving(codec, before, p, directory, start) && old(directory.journal) <= directory.journal
    ensures directory.files == old(directory.files)[TemporaryOf(p) := codec.encode(before[p])]
  {
    var encoded := codec.encode(directory.files[p]);
    var written := 0;
    CreateTemporary(directory, codec, p, encoded, before, start);
    while written < |encoded|
      invariant 0 <= written <= |encoded|
      invariant directory.files == (before - {TemporaryOf(p)})[TemporaryOf(p) := encoded[..written]]
      invariant Archiving(codec, before, p, directory, start) && old(directory.journal) <= directory.journal
    {
      var n :| 1 <= n <= |encoded| - written;
      WritePiece(directory, codec, p, encoded, written, n, before, start);
      written := written + n;
    }
    assert encoded[..written] == encoded;
  }

  method CreateTemporary(directory: LogDirectory, codec: Codec, p: LogPath, ghost encoded: seq<Byte>,
      ghost before: Files, ghost start: nat)
    requires p in before && p.kind.Plain? && ArchiveOf(p) !in before && encoded == codec.encode(before[p])
    requires directory.files == before - {TemporaryOf(p)} && Archiving(codec, before, p, directory, start)
    modifies directory
    ensures Archiving(codec, before, p, directory, start) && old(directory.journal) <= directory.journal
    ensures directory.files == (before - {TemporaryOf(p)})[TemporaryOf(p) := encoded[..0]]
  {
    FirstPiece(codec, before, p, encoded);
    OneMoreChange(codec, before, p, directory, start, Creates(TemporaryOf(p)));
    directory.Create(TemporaryOf(p));
  }

  method WritePiece(directory: LogDirectory, codec: Codec, p: LogPath, encoded: seq<Byte>, written: nat, n: nat,
      ghost before: Files, ghost start: nat)
    requires p in before && p.kind.Plain? && ArchiveOf(p) !in before && encoded == codec.encode(before[p])
    requires Archiving(codec, before, p, directory, start) && written + n <= |encoded|
    requires directory.files == (before - {TemporaryOf(p)})[TemporaryOf(p) := encoded[..written]]
    modifies directory
    ensures Archiving(codec, before, p, directory, start) && old(directory.journal) <= directory.journal
    ensures directory.files == (before - {TemporaryOf(p)})[TemporaryOf(p) := encoded[..written + n]]
  {
    var piece := encoded[written..written + n];
    NextPiece(codec, before, p, directory.files, encoded, written, n);
    OneMoreChange(codec, before, p, directory, start, Appends(TemporaryOf(p), piece));
    directory.Append(TemporaryOf(p), piece);
  }

  lemma FirstPiece(codec: Codec, before: Files, p: LogPath, encoded: seq<Byte>)
    requires p in before && p.kind.Plain? && ArchiveOf(p) !in before && encoded == codec.encode(before[p])
    ensures var clean, change := before - {TemporaryOf(p)}, Creates(TemporaryOf(p));
            && Safe(codec, NO_LOG, clean, change)
            && Apply(clean, change) == clean[TemporaryOf(p) := encoded[..0]]
            && Intermediate(codec, before, p, Apply(clean, change))
  {
    assert encoded[..0] == [];
  }

  lemma NextPiece(codec: Codec, before: Files, p: LogPath, files: Files, encoded: seq<Byte>, written: nat, n: nat)
    requires p in before && p.kind.Plain? && ArchiveOf(p) !in before && encoded == codec.encode(before[p])
    requires written + n <= |encoded| && files == (before - {TemporaryOf(p)})[TemporaryOf(p) := encoded[..written]]
    ensures var change := Appends(TemporaryOf(p), encoded[written..written + n]);
            && Safe(codec, NO_LOG, files, change)
            && Apply(files, change) == (before - {TemporaryOf(p)})[TemporaryOf(p) := encoded[..written + n]]
            && Intermediate(codec, before, p, Apply(files, change))
  {
    assert encoded[..written] + encoded[written..written + n] == encoded[..written + n];
  }

  // ----- crashes -----

  /** What was logged to p is on the disk: in p itself, which may have grown, or in a complete archive. */
  predicate Preserved(codec: Codec, files: Files, p: LogPath, content: seq<Byte>) {
    || (p in files && content <= files[p])
    || (ArchiveOf(p) in files
        && codec.decode(files[ArchiveOf(p)]).Some? && content <= codec.decode(files[ArchiveOf(p)]).value)
  }

  predicate Evicting(change: Change, p: LogPath) {
    change.Evicts? && (change.path == p || change.path == ArchiveOf(p))
  }

  ghost predicate EvictedBetween(journal: seq<Change>, n: nat, k: nat, p: LogPath)
    requires k <= |journal|
  {
    exists i :: n <= i < k && Evicting(journal[i], p)
  }

  lemma EvictedLonger(journal: seq<Change>, n: nat, k: nat, p: LogPath)
    requires n < k <= |journal|
    ensures EvictedBetween(journal, n, k, p) <==> EvictedBetween(journal, n, k - 1, p) || Evicting(journal[k - 1], p)
  {
  }

  lemma SafeChangeKeeps(codec: Codec, scope: Scope, files: Files, change: Change, p: LogPath, content: seq<Byte>)
    requires codec.Lossless() && p.kind.Plain? && Safe(codec, scope, files, change)
    requires Preserved(codec, files, p, content) && !Evicting(change, p)
    ensures Preserved(codec, Apply(files, change), p, content)
  {
    if change == Removes(p) {
      assert codec.decode(codec.encode(files[p])) == Some(files[p]);
    }
  }

  /** After a crash at any point of a safe history, every log that was on the disk before is intact or in a complete
      archive, unless it was evicted; and evictions were due when they were made. */
  lemma {:induction false} CrashLosesNothing(codec: Codec, scope: Scope, origin: Files, journal: seq<Change>, n: nat,
      k: nat, p: LogPath, content: seq<Byte>)
    requires codec.Lossless() && p.kind.Plain? && n <= k <= |journal|
    requires ChangesSince(SafeChanges(codec, scope), origin, journal, n)
    requires Preserved(codec, Replay(origin, journal[..n]), p, content)
    ensures Preserved(codec, Replay(origin, journal[..k]), p, content) || EvictedBetween(journal, n, k, p)
  {
    if k > n {
      CrashLosesNothing(codec, scope, origin, journal, n, k - 1, p, content);
      ReplayPrefix(origin, journal, k);
      assert SafeChanges(codec, scope)(Replay(origin, journal[..k - 1]), journal[k - 1]);
      EvictedLonger(journal, n, k, p);
      if !EvictedBetween(journal, n, k, p) {
        SafeChangeKeeps(codec, scope, Replay(origin, journal[..k - 1]), journal[k - 1], p, content);
      }
    }
  }

  predicate EvictedItself(change: Change, p: LogPath) {
    change.Evicts? && change.path == p
  }

  lemma ArchiveStays(codec: Codec, scope: Scope, files: Files, change: Change, p: LogPath)
    requires p.kind.Archive? && p in files && Safe(codec, scope, files, change)
    ensures Get(Apply(files, change), p) == Get(files, p) || EvictedItself(change, p)
  {
  }

  ghost predicate ItselfEvicted(journal: seq<Change>, n: nat, k: nat, p: LogPath)
    requires k <= |journal|
  {
    exists i :: n <= i < k && EvictedItself(journal[i], p)
  }

  lemma EvictedItselfLonger(journal: seq<Change>, n: nat, k: nat, p: LogPath)
    requires n < k <= |journal|
    ensures ItselfEvicted(journal, n, k, p) <==> ItselfEvicted(journal, n, k - 1, p) || EvictedItself(journal[k - 1], p)
  {
  }

  /** An archive is never changed, and goes only when its eviction is due. */
  lemma {:induction false} ArchivesStay(codec: Codec, scope: Scope, origin: Files, journal: seq<Change>, n: nat, k: nat,
      p: LogPath)
    requires p.kind.Archive? && n <= k <= |journal| && ChangesSince(SafeChanges(codec, scope), origin, journal, n)
    requires p in Replay(origin, journal[..n])
    ensures Get(Replay(origin, journal[..k]), p) == Get(Replay(origin, journal[..n]), p)
            || ItselfEvicted(journal, n, k, p)
  {
    if k > n {
      ArchivesStay(codec, scope, origin, journal, n, k - 1, p);
      ReplayPrefix(origin, journal, k);
      assert SafeChanges(codec, scope)(Replay(origin, journal[..k - 1]), journal[k - 1]);
      EvictedItselfLonger(journal, n, k, p);
      if !ItselfEvicted(journal, n, k, p) {
        ArchiveStays(codec, scope, Replay(origin, journal[..k - 1]), journal[k - 1], p);
      }
    }
  }

  /** A mismatching archive stops archiving before anything is changed. */
  lemma MismatchChangesNothing(codec: Codec, files: Files, p: LogPath, s: Files)
    requires p in files && p.kind.Plain? && Intermediate(codec, files, p, s)
    ensures !Consistent(codec, files, p) ==> s == files
    ensures forall q: LogPath :: q.text != p.text || q.timestamp != p.timestamp ==> Get(s, q) == Get(files, q)
  {
  }

  /** Archiving again after a crash ends in the very state the first attempt was heading for. */
  lemma RestartConverges(codec: Codec, files: Files, p: LogPath, s: Files)
    requires p in files && p.kind.Plain? && codec.Lossless() && Intermediate(codec, files, p, s)
    requires Consistent(codec, files, p)
    ensures p in s ==> Consistent(codec, s, p) && Archived(codec, s, p) == Archived(codec, files, p)
    ensures p !in s ==> s == Archived(codec, files, p)
    ensures ArchiveOf(p) in Archived(codec, files, p) && p !in Archived(codec, files, p)
    ensures codec.decode(Archived(codec, files, p)[ArchiveOf(p)]) == Some(files[p])
  {
    if p in s && ArchiveOf(p) !in files {
      var clean, encoded := files - {TemporaryOf(p)}, codec.encode(files[p]);
      if ArchiveOf(p) in s {
        assert s == clean[ArchiveOf(p) := encoded];
      } else {
        assert s - {TemporaryOf(p)} == clean;
      }
      assert Archived(codec, s, p) == Archived(codec, files, p);
    }
  }
}
