/** Archiving all closed logs, and starting over after a crash in the middle of it. */
module LogClosing {
  import opened Common
  import opened LogDisk
  import opened LogArchive

  predicate Closed(files: Files, active: Option<LogPath>, p: LogPath) {
    p in files && p.kind.Plain? && active != Some(p)
  }

  predicate OnlyClosed(files: Files, active: Option<LogPath>, done: set<LogPath>) {
    forall p :: p in done ==> Closed(files, active, p)
  }

  predicate AllClosed(files: Files, active: Option<LogPath>, done: set<LogPath>) {
    OnlyClosed(files, active, done) && forall p :: p in files && Closed(files, active, p) ==> p in done
  }

  ghost predicate AllConsistent(codec: Codec, files: Files, active: Option<LogPath>) {
    forall p :: Closed(files, active, p) ==> Consistent(codec, files, p)
  }

  /** What has become of log p and of the two files that belong to it. */
  predicate Dealt(codec: Codec, before: Files, files: Files, done: bool, p: LogPath) {
    var added := done && p in before && ArchiveOf(p) !in before;
    && Get(files, p) == (if done then None else Get(before, p))
    && Get(files, ArchiveOf(p)) == (if added then Some(codec.encode(before[p])) else Get(before, ArchiveOf(p)))
    && Get(files, TemporaryOf(p)) == (if added then None else Get(before, TemporaryOf(p)))
  }

  /** The logs in `done` have been replaced by archives, and nothing else has changed. */
  ghost predicate ArchivedSoFar(codec: Codec, before: Files, files: Files, done: set<LogPath>) {
    && (forall p :: p in done ==> p in before && p.kind.Plain? && Consistent(codec, before, p))
    && (forall p: LogPath :: p.kind.Plain? ==> Dealt(codec, before, files, p in done, p))
  }

  /** Every log but the active one has been replaced by its archive. */
  ghost predicate AllArchived(codec: Codec, before: Files, active: Option<LogPath>, files: Files) {
    exists done :: ArchivedSoFar(codec, before, files, done) && AllClosed(before, active, done)
  }

  ghost predicate PartlyArchived(codec: Codec, before: Files, active: Option<LogPath>, files: Files) {
    exists done :: ArchivedSoFar(codec, before, files, done) && OnlyClosed(before, active, done)
  }

  lemma ArchiveOneMore(codec: Codec, before: Files, files: Files, done: set<LogPath>, p: LogPath)
    requires ArchivedSoFar(codec, before, files, done) && p in before && p !in done && p.kind.Plain?
    ensures p in files && files[p] == before[p]
    ensures Consistent(codec, files, p) == Consistent(codec, before, p)
    ensures Consistent(codec, files, p) ==> ArchivedSoFar(codec, before, Archived(codec, files, p), done + {p})
  {
    assert Dealt(codec, before, files, false, p);
    if Consistent(codec, files, p) {
      var after := Archived(codec, files, p);
      forall q: LogPath | q.kind.Plain? ensures Dealt(codec, before, after, q in done + {p}, q) {
        assert Dealt(codec, before, files, q in done, q);
        if q != p {
          assert Get(after, q) == Get(files, q) && Get(after, ArchiveOf(q)) == Get(files, ArchiveOf(q));
        }
      }
    }
  }

  /** A state on the way: some logs are done, and at most one more is being archived. */
  ghost predicate AtStage(codec: Codec, before: Files, active: Option<LogPath>, files: Files, done: set<LogPath>,
      p: LogPath, s: Files) {
    && ArchivedSoFar(codec, before, files, done) && OnlyClosed(before, active, done)
    && (s == files
        || (Closed(before, active, p) && p !in done && p in files && Consistent(codec, files, p)
           && Intermediate(codec, files, p, s)))
  }

  ghost predicate ClosingStage(codec: Codec, before: Files, active: Option<LogPath>, s: Files) {
    exists files, done, p :: AtStage(codec, before, active, files, done, p, s)
  }

  ghost function ClosingStages(codec: Codec, before: Files, active: Option<LogPath>): Files -> bool {
    (s: Files) => ClosingStage(codec, before, active, s)
  }

  lemma StagesAreOnTheWay(codec: Codec, before: Files, active: Option<LogPath>, files: Files, done: set<LogPath>,
      p: LogPath,
      origin: Files, journal: seq<Change>, n: nat)
    requires ArchivedSoFar(codec, before, files, done) && OnlyClosed(before, active, done)
    requires Closed(before, active, p) && p !in done && p in files
    requires StatesSince(Stages(codec, files, p), origin, journal, n)
    ensures StatesSince(ClosingStages(codec, before, active), origin, journal, n)
  {
    forall k | n <= k <= |journal| ensures ClosingStages(codec, before, active)(Replay(origin, journal[..k])) {
      var s := Replay(origin, journal[..k]);
      assert Stages(codec, files, p)(s);
      if !Consistent(codec, files, p) {
        MismatchChangesNothing(codec, files, p, s);
      }
      assert AtStage(codec, before, active, files, done, p, s);
    }
  }

  /** What closing the logs has done to the disk since the journal had n entries. */
  ghost predicate Closing(codec: Codec, before: Files, active: Option<LogPath>, directory: LogDirectory, n: nat)
    reads directory
  {
    && directory.Valid() && n <= |directory.journal|
    && ChangesSince(SafeChanges(codec, NO_LOG), directory.origin, directory.journal, n)
    && StatesSince(ClosingStages(codec, before, active), directory.origin, directory.journal, n)
  }

  ghost predicate DoneSoFar(before: Files, active: Option<LogPath>, listed: seq<LogPath>, done: set<LogPath>) {
    forall p :: p in done <==> p in listed && Closed(before, active, p)
  }

  method ArchiveClosedLogs(directory: LogDirectory, active: Option<LogPath>, codec: Codec) returns (ok: bool)
    requires directory.Valid()
    modifies directory
    ensures ok <==> AllConsistent(codec, old(directory.files), active)
    ensures ok ==> AllArchived(codec, old(directory.files), active, directory.files)
    ensures PartlyArchived(codec, old(directory.files), active, directory.files)
    ensures old(directory.journal) <= directory.journal
    ensures Closing(codec, old(directory.files), active, directory, |old(directory.journal)|)
  {
    ghost var before, start := directory.files, |directory.journal|;
    var paths := directory.KnownLogFiles();
    ghost var done := {};
    assert directory.journal[..start] == directory.journal;
    assert AtStage(codec, before, active, before, done, LogPath(0, "", Plain), before);
    for i := 0 to |paths|
      invariant old(directory.journal) <= directory.journal && Closing(codec, before, active, directory, start)
      invariant ArchivedSoFar(codec, before, directory.files, done) && DoneSoFar(before, active, paths[..i], done)
    {
      var p := paths[i];
      assert p in before && OnlyClosed(before, active, done);
      if p.kind.Plain? && active != Some(p) {
        assert p !in done;
        ok := ArchiveNext(directory, active, codec, p, before, done, start);
        if !ok {
          return;
        }
        done := done + {p};
      }
    }
    assert paths[..|paths|] == paths;
    ok := true;
  }

  method ArchiveNext(directory: LogDirectory, active: Option<LogPath>, codec: Codec, p: LogPath,
      ghost before: Files, ghost done: set<LogPath>, ghost start: nat) returns (ok: bool)
    requires Closing(codec, before, active, directory, start)
    requires ArchivedSoFar(codec, before, directory.files, done) && OnlyClosed(before, active, done)
    requires Closed(before, active, p) && p !in done
    modifies directory
    ensures Closing(codec, before, active, directory, start) && old(directory.journal) <= directory.journal
    ensures ok == Consistent(codec, before, p)
    ensures ArchivedSoFar(codec, before, directory.files, if ok then done + {p} else done)
  {
    ArchiveOneMore(codec, before, directory.files, done, p);
    ghost var files, journal := directory.files, directory.journal;
    ok := ArchiveFile(directory, codec, p);
    StagesAreOnTheWay(codec, before, active, files, done, p, directory.origin, directory.journal, |journal|);
    ChangesThroughout(SafeChanges(codec, NO_LOG), directory.origin, journal, directory.journal, start);
    StatesThroughout(ClosingStages(codec, before, active), directory.origin, journal, directory.journal, start);
  }

  // ----- nothing is lost -----

  /** Exactly what p held is on the disk: in p itself or in a complete archive. */
  predicate Recoverable(codec: Codec, files: Files, p: LogPath, content: seq<Byte>) {
    || Get(files, p) == Some(content)
    || (ArchiveOf(p) in files && codec.decode(files[ArchiveOf(p)]) == Some(content))
  }

  /** Whether archiving finishes or stops at a mismatch, every log is as it was or in an archive that decodes to it. */
  lemma ArchivingLosesNothing(codec: Codec, before: Files, active: Option<LogPath>, files: Files, p: LogPath)
    requires codec.Lossless() && PartlyArchived(codec, before, active, files) && p in before && p.kind.Plain?
    ensures Recoverable(codec, files, p, before[p])
    ensures active == Some(p) ==> Get(files, p) == Some(before[p])
  {
    var done :| ArchivedSoFar(codec, before, files, done) && OnlyClosed(before, active, done);
    assert Dealt(codec, before, files, p in done, p);
  }

  /** The same holds in every state that closing the logs goes through, so after a crash at any point of it. */
  lemma CrashWhileClosingLosesNothing(codec: Codec, before: Files, active: Option<LogPath>, s: Files, p: LogPath)
    requires codec.Lossless() && ClosingStage(codec, before, active, s) && p in before && p.kind.Plain?
    ensures Recoverable(codec, s, p, before[p])
    ensures active == Some(p) ==> Get(s, p) == Some(before[p])
  {
    var files, done, q :| AtStage(codec, before, active, files, done, q, s);
    assert PartlyArchived(codec, before, active, files);
    ArchivingLosesNothing(codec, before, active, files, p);
    assert Dealt(codec, before, files, p in done, p);
    if s != files {
      if p == q {
        assert codec.decode(codec.encode(files[p])) == Some(files[p]);
      } else {
        MismatchChangesNothing(codec, files, q, s);
        assert Get(s, p) == Get(files, p) && Get(s, ArchiveOf(p)) == Get(files, ArchiveOf(p));
      }
    }
  }

  /** When it finishes, each log that is not the active one is an archive that decodes to it. */
  lemma ArchivingKeepsContent(codec: Codec, before: Files, active: Option<LogPath>, files: Files, p: LogPath)
    requires codec.Lossless() && AllArchived(codec, before, active, files) && p in before && p.kind.Plain?
    ensures active != Some(p) ==>
              p !in files && ArchiveOf(p) in files && codec.decode(files[ArchiveOf(p)]) == Some(before[p])
    ensures active == Some(p) ==> Get(files, p) == Some(before[p])
  {
    var done :| ArchivedSoFar(codec, before, files, done) && AllClosed(before, active, done);
    assert Dealt(codec, before, files, p in done, p);
  }

  // ----- starting over -----

  lemma SameFiles(a: Files, b: Files)
    requires forall p :: Get(a, p) == Get(b, p)
    ensures a == b
  {
    forall p ensures p in a <==> p in b {
      assert Get(a, p) == Get(b, p);
    }
    forall p | p in a ensures a[p] == b[p] {
      assert Get(a, p) == Get(b, p);
    }
  }

  /** Which files there are in the end does not depend on the order of archiving. */
  lemma ArchivedIsUnique(codec: Codec, before: Files, active: Option<LogPath>, a: Files, b: Files)
    requires AllArchived(codec, before, active, a) && AllArchived(codec, before, active, b)
    ensures a == b
  {
    var done :| ArchivedSoFar(codec, before, a, done) && AllClosed(before, active, done);
    var done' :| ArchivedSoFar(codec, before, b, done') && AllClosed(before, active, done');
    forall q ensures Get(a, q) == Get(b, q) {
      var p := q.(kind := Plain);
      assert Dealt(codec, before, a, p in done, p) && Dealt(codec, before, b, p in done', p);
      assert q == p || q == ArchiveOf(p) || q == TemporaryOf(p);
    }
    SameFiles(a, b);
  }

  /** One log, from a state on the way to its archive: archiving it again ends as it would have ended. */
  lemma DealtAgain(codec: Codec, before: Files, s: Files, after: Files, p: LogPath)
    requires codec.Lossless() && p in before && p.kind.Plain? && Consistent(codec, before, p)
    requires Intermediate(codec, before, p, s) && Dealt(codec, s, after, p in s, p)
    ensures p in s ==> Consistent(codec, s, p)
    ensures Dealt(codec, before, after, true, p)
  {
    assert codec.decode(codec.encode(before[p])) == Some(before[p]);
  }

  lemma DealtInTwoParts(codec: Codec, before: Files, files: Files, after: Files, done: bool, more: bool, p: LogPath)
    requires Dealt(codec, before, files, done, p) && Dealt(codec, files, after, more, p) && !(done && more)
    requires more ==> p in files
    ensures Dealt(codec, before, after, done || more, p)
  {
  }

  /** After a crash anywhere in closing the logs, closing them again succeeds and ends with the same files. */
  lemma ClosingRestartConverges(codec: Codec, before: Files, active: Option<LogPath>, s: Files, after: Files)
    requires codec.Lossless() && AllConsistent(codec, before, active) && ClosingStage(codec, before, active, s)
    ensures AllConsistent(codec, s, active)
    ensures AllArchived(codec, s, active, after) ==> AllArchived(codec, before, active, after)
  {
    var files, done, p :| AtStage(codec, before, active, files, done, p, s);
    forall q | Closed(s, active, q) ensures Consistent(codec, s, q) && Closed(before, active, q) && q !in done {
      RestartOne(codec, before, active, files, done, p, s, q);
    }
    if AllArchived(codec, s, active, after) {
      var again :| ArchivedSoFar(codec, s, after, again) && AllClosed(s, active, again);
      var all := set q | q in before && Closed(before, active, q);
      forall q: LogPath | q.kind.Plain? ensures Dealt(codec, before, after, q in all, q) {
        assert Dealt(codec, s, after, q in again, q);
        RestartOne(codec, before, active, files, done, p, s, q);
        RestartDeals(codec, before, active, files, done, p, s, after, q);
      }
      assert ArchivedSoFar(codec, before, after, all);
    }
  }

  lemma RestartOne(codec: Codec, before: Files, active: Option<LogPath>, files: Files, done: set<LogPath>, p: LogPath,
      s: Files, q: LogPath)
    requires codec.Lossless() && AllConsistent(codec, before, active) && q.kind.Plain?
    requires AtStage(codec, before, active, files, done, p, s)
    ensures Closed(s, active, q) ==> Consistent(codec, s, q) && Closed(before, active, q) && q !in done
  {
    assert Dealt(codec, before, files, q in done, q);
    if s != files && q == p {
      assert codec.decode(codec.encode(files[p])) == Some(files[p]);
    } else {
      if s != files {
        MismatchChangesNothing(codec, files, p, s);
      }
      assert Get(s, q) == Get(files, q) && Get(s, ArchiveOf(q)) == Get(files, ArchiveOf(q));
      if Closed(s, active, q) {
        assert q !in done && Consistent(codec, before, q);
      }
    }
  }

  lemma RestartDeals(codec: Codec, before: Files, active: Option<LogPath>, files: Files, done: set<LogPath>, p: LogPath,
      s: Files, after: Files, q: LogPath)
    requires codec.Lossless() && AllConsistent(codec, before, active) && q.kind.Plain?
    requires AtStage(codec, before, active, files, done, p, s) && Dealt(codec, s, after, Closed(s, active, q), q)
    ensures Dealt(codec, before, after, Closed(before, active, q), q)
  {
    assert Dealt(codec, before, files, q in done, q);
    if s != files && q == p {
      DealtAgain(codec, files, s, after, p);
      DealtInTwoParts(codec, before, files, after, false, true, p);
    } else {
      if s != files {
        MismatchChangesNothing(codec, files, p, s);
        assert Get(s, q) == Get(files, q) && Get(s, ArchiveOf(q)) == Get(files, ArchiveOf(q));
        assert Get(s, TemporaryOf(q)) == Get(files, TemporaryOf(q));
      }
      assert Dealt(codec, files, after, Closed(s, active, q), q);
      DealtInTwoParts(codec, before, files, after, q in done, Closed(s, active, q), q);
    }
  }
}
