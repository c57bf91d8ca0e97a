/** The total size of the managed log files, and its enforcement. */
module LogFiles {
  import opened Common
  import opened LogDisk
  import opened Sorting

  const CAPACITY_LOW_WATER_PERCENT := 90

  function Suffix(kind: Kind): string {
    match kind
    case Plain => ".jsonl"
    case Archive => ".jsonl.zst"
    case Temporary => ".jsonl.zst.tmp"
  }

  function OldestFirst(): (LogPath, LogPath) -> bool {
    (a: LogPath, b: LogPath) =>
      a.timestamp < b.timestamp
      || (a.timestamp == b.timestamp && Before(a.text + Suffix(a.kind), b.text + Suffix(b.kind)))
  }

  lemma OldestFirstTransitive()
    ensures Transitive(OldestFirst())
  {
    forall a: LogPath, b: LogPath, c: LogPath | OldestFirst()(a, b) && OldestFirst()(b, c) ensures OldestFirst()(a, c) {
      if a.timestamp == b.timestamp == c.timestamp {
        BeforeTransitive(a.text + Suffix(a.kind), b.text + Suffix(b.kind), c.text + Suffix(c.kind));
      }
    }
  }

  lemma OldestFirstIrreflexive(a: LogPath)
    ensures !OldestFirst()(a, a)
  {
    BeforeIrreflexive(a.text + Suffix(a.kind));
  }

  lemma OldestFirstAsymmetric(a: LogPath, b: LogPath)
    ensures !(OldestFirst()(a, b) && OldestFirst()(b, a))
  {
    if OldestFirst()(a, b) && OldestFirst()(b, a) {
      OldestFirstTransitive();
      OldestFirstIrreflexive(a);
    }
  }

  lemma NamesDiffer(a: LogPath, b: LogPath)
    requires a.text + Suffix(a.kind) == b.text + Suffix(b.kind)
    ensures a.text == b.text && a.kind == b.kind
  {
    var x, y := a.text + Suffix(a.kind), b.text + Suffix(b.kind);
    assert x[|x| - 1] == Suffix(a.kind)[|Suffix(a.kind)| - 1];
    assert y[|y| - 1] == Suffix(b.kind)[|Suffix(b.kind)| - 1];
    assert a.text == x[..|x| - |Suffix(a.kind)|] && b.text == y[..|y| - |Suffix(b.kind)|];
  }

  lemma OldestFirstTotal(a: LogPath, b: LogPath)
    ensures a == b || OldestFirst()(a, b) || OldestFirst()(b, a)
  {
    BeforeTotal(a.text + Suffix(a.kind), b.text + Suffix(b.kind));
    if a.text + Suffix(a.kind) == b.text + Suffix(b.kind) {
      NamesDiffer(a, b);
    }
  }

  // ----- sizes -----

  ghost predicate NothingManaged(files: Files) {
    forall p :: p in files ==> !Managed(p)
  }

  ghost function TotalSize(files: Files): nat
    decreases |files|
  {
    if NothingManaged(files) then 0
    else
      var p :| p in files && Managed(p);
      assert (files - {p}).Keys == files.Keys - {p};
      |files[p]| + TotalSize(files - {p})
  }

  lemma {:induction false} TotalSizeWithout(files: Files, p: LogPath)
    requires p in files
    ensures TotalSize(files) == TotalSize(files - {p}) + if Managed(p) then |files[p]| else 0
    decreases |files|
  {
    if NothingManaged(files) {
      assert NothingManaged(files - {p});
    } else {
      var q :| q in files && Managed(q) && TotalSize(files) == |files[q]| + TotalSize(files - {q});
      if q != p {
        assert (files - {q}).Keys == files.Keys - {q} && (files - {p}).Keys == files.Keys - {p};
        TotalSizeWithout(files - {q}, p);
        TotalSizeWithout(files - {p}, q);
        assert files - {q} - {p} == files - {p} - {q};
      }
    }
  }

  lemma TotalSizeWith(files: Files, p: LogPath, content: seq<Byte>)
    requires Managed(p)
    ensures TotalSize(files[p := content]) == |content| + TotalSize(files - {p})
  {
    assert files[p := content] - {p} == files - {p};
    TotalSizeWithout(files[p := content], p);
  }

  // ----- capacity -----

  function LowWater(maxTotal: U64): nat {
    var scaled := maxTotal * CAPACITY_LOW_WATER_PERCENT;
    (if scaled > U64_MAX then U64_MAX else scaled) / 100
  }

  predicate Deletable(files: Files, active: Option<LogPath>, p: LogPath) {
    p in files && Managed(p) && active != Some(p)
  }

  /** `removed` is the shortest run of the oldest deletable files that brings the total down to the low-water
      mark, or all of them if none does. */
  ghost predicate ShortestOldestRun(files: Files, active: Option<LogPath>, target: nat, removed: set<LogPath>) {
    && (forall p :: p in removed ==> Deletable(files, active, p))
    && (forall p, q :: p in removed && Deletable(files, active, q) && q !in removed ==> OldestFirst()(p, q))
    && (TotalSize(files - removed) <= target || forall p :: Deletable(files, active, p) ==> p in removed)
    && (removed != {} ==> exists newest :: NewestNeeded(files, target, removed, newest))
  }

  /** Keeping the newest of the removed files would leave the total above the target. */
  ghost predicate NewestNeeded(files: Files, target: nat, removed: set<LogPath>, newest: LogPath) {
    && newest in removed && newest in files
    && (forall p :: p in removed && p != newest ==> OldestFirst()(p, newest))
    && TotalSize(files - removed) + |files[newest]| > target
  }

  ghost predicate Enforced(files: Files, active: Option<LogPath>, maxTotal: U64, files': Files) {
    if TotalSize(files) <= maxTotal then files' == files
    else exists removed :: ShortestOldestRun(files, active, LowWater(maxTotal), removed) && files' == files - removed
  }

  /** A file goes for lack of room only when it may, is the oldest of those, and the total is above the target. */
  ghost predicate EvictionIsDue(files: Files, p: LogPath, active: Option<LogPath>, limit: U64) {
    && Deletable(files, active, p)
    && (forall q :: Deletable(files, active, q) && q != p ==> OldestFirst()(p, q))
    && TotalSize(files) > LowWater(limit)
  }

  /** The changes that are evictions for this active file and limit, and due. */
  ghost function DueEvictions(active: Option<LogPath>, limit: U64): (Files, Change) -> bool {
    (files: Files, change: Change) =>
      change.Evicts? && change.active == active && change.limit == limit
            && EvictionIsDue(files, change.path, active, limit)
  }

  // ----- which file is older -----

  /** Plain logs and archives count towards the total with every byte, and nothing else does. */
  lemma EveryLogCounts(files: Files, p: LogPath, content: seq<Byte>)
    requires p !in files
    ensures TotalSize(map[]) == 0
    ensures TotalSize(files[p := content]) == TotalSize(files) + if p.kind.Temporary? then 0 else |content|
  {
    assert files[p := content] - {p} == files;
    TotalSizeWithout(files[p := content], p);
  }

  /** The timestamp decides, and between files of one timestamp the first character in which the names differ. */
  ghost predicate Older(p: LogPath, q: LogPath) {
    || p.timestamp < q.timestamp
    || (p.timestamp == q.timestamp && exists k: nat :: DifferAt(p.text + Suffix(p.kind), q.text + Suffix(q.kind), k))
  }

  lemma OldestFirstIsByAge(p: LogPath, q: LogPath)
    ensures OldestFirst()(p, q) <==> Older(p, q)
  {
    BeforeExactlyWhen(p.text + Suffix(p.kind), q.text + Suffix(q.kind));
  }

  /** A log is before its archive. */
  lemma LogBeforeItsArchive(p: LogPath)
    requires p.kind.Plain?
    ensures Older(p, p.(kind := Archive))
  {
    var archive := p.(kind := Archive);
    assert DifferAt(p.text + Suffix(p.kind), archive.text + Suffix(archive.kind), |p.text| + 6);
  }

  /** Wherever a file has gone, every older log or archive but the active one has gone too. */
  ghost predicate OlderWentFirst(files: Files, active: Option<LogPath>, files': Files) {
    forall p, q ::
      q in files && q !in files' && p in files && !p.kind.Temporary? && active != Some(p) && Older(p, q) ==>
        p !in files'
  }

  lemma OlderGoFirst(files: Files, active: Option<LogPath>, target: nat, removed: set<LogPath>)
    requires ShortestOldestRun(files, active, target, removed)
    ensures OlderWentFirst(files, active, files - removed)
  {
    forall p, q | q in removed && p in files && !p.kind.Temporary? && active != Some(p) && Older(p, q)
      ensures p in removed
    {
      OldestFirstIsByAge(p, q);
      OldestFirstAsymmetric(p, q);
    }
  }

  /** Enforcement throws away no file while an older one that may go is kept. */
  lemma EnforcementTakesTheOldest(files: Files, active: Option<LogPath>, maxTotal: U64, files': Files)
    requires Enforced(files, active, maxTotal, files')
    ensures OlderWentFirst(files, active, files')
  {
    if TotalSize(files) > maxTotal {
      var removed :| ShortestOldestRun(files, active, LowWater(maxTotal), removed) && files' == files - removed;
      OlderGoFirst(files, active, LowWater(maxTotal), removed);
    }
  }

  /** Every single eviction takes the oldest log or archive there is, but for the active one. */
  lemma DueIsOldest(files: Files, p: LogPath, active: Option<LogPath>, limit: U64, q: LogPath)
    requires EvictionIsDue(files, p, active, limit)
    requires q in files && !q.kind.Temporary? && active != Some(q) && q != p
    ensures Older(p, q) && !Older(q, p)
  {
    OldestFirstIsByAge(p, q);
    OldestFirstIsByAge(q, p);
    OldestFirstAsymmetric(p, q);
  }

  method ManagedLogSize(directory: LogDirectory) returns (total: nat)
    ensures total == TotalSize(directory.files)
  {
    var paths := directory.KnownLogFiles();
    ghost var rest := directory.files;
    total := 0;
    for i := 0 to |paths|
      invariant total + TotalSize(rest) == TotalSize(directory.files)
      invariant forall p :: p in rest <==> p in directory.files && p !in paths[..i]
      invariant forall p :: p in rest ==> rest[p] == directory.files[p]
    {
      TotalSizeWithout(rest, paths[i]);
      total := total + |directory.files[paths[i]]|;
      rest := rest - {paths[i]};
    }
    assert NothingManaged(rest);
  }

  method EnforceCapacity(directory: LogDirectory, active: Option<LogPath>, maxTotal: U64)
    requires directory.Valid()
    modifies directory
    ensures directory.Valid() && old(directory.journal) <= directory.journal
    ensures Enforced(old(directory.files), active, maxTotal, directory.files)
    ensures OlderWentFirst(old(directory.files), active, directory.files)
    ensures ChangesSince(DueEvictions(active, maxTotal), directory.origin, directory.journal, |old(directory.journal)|)
  {
    var total := ManagedLogSize(directory);
    if total <= maxTotal {
      return;
    }
    var listed := directory.KnownLogFiles();
    var paths := Sort(OldestFirst(), listed);
    SortedListing(listed);
    ghost var before := directory.files;
    EvictOldest(directory, active, maxTotal, paths, total);
    EnforcementTakesTheOldest(before, active, maxTotal, directory.files);
  }

  /** The files evicted so far are those of the first n listed that may go. */
  ghost predicate Evicting(before: Files, active: Option<LogPath>, maxTotal: U64, paths: seq<LogPath>, n: nat,
      removed: set<LogPath>, newest: LogPath, directory: LogDirectory, start: nat)
    reads directory
  {
    && n <= |paths| && directory.Valid() && directory.files == before - removed
    && Swept(before, active, LowWater(maxTotal), paths, n, removed, newest)
    && ChangesSince(DueEvictions(active, maxTotal), directory.origin, directory.journal, start)
  }

  method EvictOldest(directory: LogDirectory, active: Option<LogPath>, maxTotal: U64, paths: seq<LogPath>, size: nat)
    requires directory.Valid() && ListsManaged(directory.files, paths)
    requires size == TotalSize(directory.files) > maxTotal
    modifies directory
    ensures directory.Valid() && old(directory.journal) <= directory.journal
    ensures Enforced(old(directory.files), active, maxTotal, directory.files)
    ensures ChangesSince(DueEvictions(active, maxTotal), directory.origin, directory.journal, |old(directory.journal)|)
  {
    var target, total := LowWater(maxTotal), size;
    ghost var before, removed, newest := directory.files, {}, LogPath(0, "", Plain);
    ghost var start := |directory.journal|;
    assert directory.files - removed == directory.files;
    var i := 0;
    while i < |paths|
      invariant Evicting(before, active, maxTotal, paths, i, removed, newest, directory, start)
      invariant total == TotalSize(directory.files) && old(directory.journal) <= directory.journal
    {
      if total <= target {
        break;
      }
      var p := paths[i];
      NextIsDue(before, active, maxTotal, paths, i, removed, newest);
      if active != Some(p) {
        ChangesOneMore(DueEvictions(active, maxTotal), directory.origin, directory.journal, start,
                       Evicts(p, active, maxTotal));
        total := total - |directory.files[p]|;
        directory.Evict(p, active, maxTotal);
        removed, newest := removed + {p}, p;
      }
      i := i + 1;
    }
    RunIsShortest(before, active, target, paths, i, removed, newest);
  }

  /** The next file is the active one and stays, or its eviction is due and makes the total that much smaller. */
  lemma NextIsDue(files: Files, active: Option<LogPath>, maxTotal: U64, paths: seq<LogPath>, n: nat,
      removed: set<LogPath>, newest: LogPath)
    requires n < |paths| && Swept(files, active, LowWater(maxTotal), paths, n, removed, newest)
    requires TotalSize(files - removed) > LowWater(maxTotal)
    ensures var p, target := paths[n], LowWater(maxTotal);
            if active == Some(p) then Swept(files, active, target, paths, n + 1, removed, newest)
            else
              && EvictionIsDue(files - removed, p, active, maxTotal)
              && p in files - removed && files - removed - {p} == files - (removed + {p})
              && TotalSize(files - removed) == TotalSize(files - (removed + {p})) + |files[p]|
              && Swept(files, active, target, paths, n + 1, removed + {p}, p)
  {
    SweepNext(files, active, LowWater(maxTotal), paths, n, removed, newest);
    if active != Some(paths[n]) {
      OldestLeft(files, active, LowWater(maxTotal), paths, n, removed, newest);
    }
  }

  lemma OldestLeft(files: Files, active: Option<LogPath>, target: nat, paths: seq<LogPath>, n: nat,
      removed: set<LogPath>, newest: LogPath)
    requires n < |paths| && Swept(files, active, target, paths, n, removed, newest) && active != Some(paths[n])
    ensures Deletable(files - removed, active, paths[n])
    ensures forall q :: Deletable(files - removed, active, q) && q != paths[n] ==> OldestFirst()(paths[n], q)
  {
    forall q | Deletable(files - removed, active, q) && q != paths[n] ensures OldestFirst()(paths[n], q) {
      assert q in paths;
      var j :| 0 <= j < |paths| && paths[j] == q;
    }
  }

  /** Of the first n listed files the deletable ones are removed, and removing the newest was needed. */
  ghost predicate Swept(files: Files, active: Option<LogPath>, target: nat, paths: seq<LogPath>, n: nat,
      removed: set<LogPath>, newest: LogPath)
    requires n <= |paths|
  {
    && ListsManaged(files, paths)
    && (forall i :: 0 <= i < |paths| ==> (paths[i] in removed <==> i < n && active != Some(paths[i])))
    && (forall p :: p in removed ==> p in paths)
    && (removed != {} ==> NewestNeeded(files, target, removed, newest))
  }

  lemma SweepNext(files: Files, active: Option<LogPath>, target: nat, paths: seq<LogPath>, n: nat,
      removed: set<LogPath>, newest: LogPath)
    requires n < |paths| && Swept(files, active, target, paths, n, removed, newest)
    requires TotalSize(files - removed) > target
    ensures var p := paths[n];
            if active == Some(p) then Swept(files, active, target, paths, n + 1, removed, newest)
            else
              && p in files - removed && files - removed - {p} == files - (removed + {p})
              && TotalSize(files - removed) == TotalSize(files - (removed + {p})) + |files[p]|
              && Swept(files, active, target, paths, n + 1, removed + {p}, p)
  {
    var p := paths[n];
    if active != Some(p) {
      forall q | q in removed ensures OldestFirst()(q, p) {
        var i :| 0 <= i < |paths| && paths[i] == q;
      }
      RemovalIsNeeded(files, target, removed, p);
    }
    forall i, j | 0 <= i < j < |paths| ensures paths[i] != paths[j] {
      OldestFirstIrreflexive(paths[i]);
    }
  }

  lemma RemovalIsNeeded(files: Files, target: nat, removed: set<LogPath>, p: LogPath)
    requires p in files && p !in removed && Managed(p) && TotalSize(files - removed) > target
    requires forall q :: q in removed ==> OldestFirst()(q, p)
    ensures files - removed - {p} == files - (removed + {p})
    ensures TotalSize(files - removed) == TotalSize(files - (removed + {p})) + |files[p]|
    ensures NewestNeeded(files, target, removed + {p}, p)
  {
    TotalSizeWithout(files - removed, p);
    assert files - removed - {p} == files - (removed + {p});
  }

  ghost predicate ListsManaged(files: Files, paths: seq<LogPath>) {
    && (forall p :: p in paths <==> p in files && Managed(p))
    && (forall i, j :: 0 <= i < j < |paths| ==> OldestFirst()(paths[i], paths[j]))
  }

  lemma SortedListing(listed: seq<LogPath>)
    requires forall i, j :: 0 <= i < j < |listed| ==> listed[i] != listed[j]
    ensures var paths := Sort(OldestFirst(), listed);
            && (forall p :: p in paths <==> p in listed)
            && (forall i, j :: 0 <= i < j < |paths| ==> OldestFirst()(paths[i], paths[j]) && paths[i] != paths[j])
  {
    forall i, j | 0 <= i < j < |listed|
      ensures OldestFirst()(listed[i], listed[j]) || OldestFirst()(listed[j], listed[i])
    {
      OldestFirstTotal(listed[i], listed[j]);
    }
    OldestFirstTransitive();
    SortOrders(OldestFirst(), listed);
    SortPermutes(OldestFirst(), listed);
    var paths := Sort(OldestFirst(), listed);
    forall p ensures p in paths <==> p in listed {
      assert p in multiset(paths) <==> p in multiset(listed);
    }
    forall i, j | 0 <= i < j < |paths| ensures paths[i] != paths[j] {
      OldestFirstIrreflexive(paths[i]);
    }
  }

  lemma RunIsShortest(files: Files, active: Option<LogPath>, target: nat, paths: seq<LogPath>, n: nat,
      removed: set<LogPath>, newest: LogPath)
    requires n <= |paths| && Swept(files, active, target, paths, n, removed, newest)
    requires n < |paths| ==> TotalSize(files - removed) <= target
    ensures ShortestOldestRun(files, active, target, removed)
  {
    forall p, q | p in removed && Deletable(files, active, q) && q !in removed ensures OldestFirst()(p, q) {
      var i :| 0 <= i < |paths| && paths[i] == p;
      var j :| 0 <= j < |paths| && paths[j] == q;
      assert i < n <= j;
    }
  }

  // ----- what capacity enforcement means -----

  /** The low-water mark is ninety percent of the limit, rounded down, unless ninety times the limit does not
      fit 64 bits; it is never above ninety percent. */
  lemma LowWaterIsNinetyPercent(maxTotal: U64)
    ensures LowWater(maxTotal) * 100 <= maxTotal * 90
    ensures maxTotal * 90 <= U64_MAX ==> maxTotal * 90 < (LowWater(maxTotal) + 1) * 100
    ensures LowWater(maxTotal) <= maxTotal
  {
  }

  lemma {:induction false} MoreRemovedLessLeft(files: Files, some: set<LogPath>, more: set<LogPath>)
    requires some <= more
    ensures TotalSize(files - more) <= TotalSize(files - some)
    decreases more - some
  {
    if some == more {
      assert files - some == files - more;
    } else {
      assert !(more <= some);
      var p :| p in more && p !in some;
      MoreRemovedLessLeft(files, some + {p}, more);
      if p in files {
        TotalSizeWithout(files - some, p);
        assert files - some - {p} == files - (some + {p});
      } else {
        assert files - some == files - (some + {p});
      }
    }
  }

  lemma RunsAreNested(files: Files, active: Option<LogPath>, target: nat, a: set<LogPath>, b: set<LogPath>)
    requires ShortestOldestRun(files, active, target, a) && ShortestOldestRun(files, active, target, b)
    ensures a <= b || b <= a
  {
    if !(a <= b) {
      var p :| p in a && p !in b;
      forall q | q in b ensures q in a {
        OldestFirstAsymmetric(p, q);
      }
    }
  }

  /** Which files go is decided by the directory alone, not by the order in which it is listed. */
  lemma RunIsUnique(files: Files, active: Option<LogPath>, target: nat, a: set<LogPath>, b: set<LogPath>)
    requires ShortestOldestRun(files, active, target, a) && ShortestOldestRun(files, active, target, b)
    ensures a == b
  {
    RunsAreNested(files, active, target, a, b);
    if a < b {
      NoShorterRun(files, active, target, a, b);
    } else if b < a {
      NoShorterRun(files, active, target, b, a);
    }
  }

  lemma LeftAboveTarget(files: Files, target: nat, some: set<LogPath>, more: set<LogPath>, newest: LogPath)
    requires NewestNeeded(files, target, more, newest) && some <= more - {newest} && Managed(newest)
    ensures TotalSize(files - some) > target
  {
    MoreRemovedLessLeft(files, some, more - {newest});
    TotalSizeWithout(files - (more - {newest}), newest);
    assert files - (more - {newest}) - {newest} == files - more;
  }

  lemma NoShorterRun(files: Files, active: Option<LogPath>, target: nat, a: set<LogPath>, b: set<LogPath>)
    requires ShortestOldestRun(files, active, target, a) && ShortestOldestRun(files, active, target, b)
    ensures !(a < b)
  {
    if a < b {
      var newest :| NewestNeeded(files, target, b, newest);
      assert !(b <= a);
      var extra :| extra in b && extra !in a;
      OldestFirstAsymmetric(newest, extra);
      LeftAboveTarget(files, target, a, b, newest);
    }
  }

  /** Enforcement never deletes the active file or a file it does not manage, and never changes what it keeps;
      it leaves at most the limit unless nothing but the active file is left. */
  lemma EnforcementKeeps(files: Files, active: Option<LogPath>, maxTotal: U64, files': Files)
    requires Enforced(files, active, maxTotal, files')
    ensures forall p :: p in files' ==> p in files && files'[p] == files[p]
    ensures forall p :: p in files && !Deletable(files, active, p) ==> p in files'
    ensures TotalSize(files') <= maxTotal || forall p :: p in files' && Managed(p) ==> active == Some(p)
  {
    LowWaterIsNinetyPercent(maxTotal);
  }

  /** What is left when only the active file can be. */
  lemma OnlyActiveLeft(files: Files, active: LogPath)
    requires active in files && Managed(active) && forall p :: p in files && Managed(p) ==> p == active
    ensures TotalSize(files) == |files[active]|
  {
    TotalSizeWithout(files, active);
    assert NothingManaged(files - {active});
  }
}
