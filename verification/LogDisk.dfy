/** The files of one log root, and the changes that are made to them one after the other. */
module LogDisk {
  import opened Common

  datatype Kind = Plain | Archive | Temporary

  /** `text` is the path without the suffix that tells the kind; the timestamp is parsed from it. */
  datatype LogPath = LogPath(timestamp: int, text: string, kind: Kind)

  type Files = map<LogPath, seq<Byte>>

  /** Temporary files are not counted, listed or deleted by the capacity rules. */
  predicate Managed(p: LogPath) {
    !p.kind.Temporary?
  }

  /** One change of the disk.  A removal for lack of room says for which active file and limit it was made. */
  datatype Change =
    | Creates(path: LogPath)
    | Appends(path: LogPath, bytes: seq<Byte>)
    | Renames(path: LogPath, to: LogPath)
    | Removes(path: LogPath)
    | Evicts(path: LogPath, active: Option<LogPath>, limit: U64)

  function Apply(files: Files, change: Change): Files {
    match change
    case Creates(p) => files[p := []]
    case Appends(p, bytes) => if p in files then files[p := files[p] + bytes] else files
    case Renames(p, to) => if p in files then (files - {p})[to := files[p]] else files
    case Removes(p) => files - {p}
    case Evicts(p, _, _) => files - {p}
  }

  /** What is on the disk once all these changes have been made. */
  function Replay(origin: Files, journal: seq<Change>): Files {
    if journal == [] then origin
    else Apply(Replay(origin, journal[..|journal| - 1]), journal[|journal| - 1])
  }

  lemma ReplayOneMore(origin: Files, journal: seq<Change>, change: Change)
    ensures Replay(origin, journal + [change]) == Apply(Replay(origin, journal), change)
  {
    assert (journal + [change])[..|journal|] == journal;
  }

  lemma ReplayPrefix(origin: Files, journal: seq<Change>, k: nat)
    requires 0 < k <= |journal|
    ensures Replay(origin, journal[..k]) == Apply(Replay(origin, journal[..k - 1]), journal[k - 1])
  {
    assert journal[..k] == journal[..k - 1] + [journal[k - 1]];
    ReplayOneMore(origin, journal[..k - 1], journal[k - 1]);
  }

  /** Every change since the journal had n entries was allowed on the disk it was made to. */
  ghost predicate ChangesSince(allowed: (Files, Change) -> bool, origin: Files, journal: seq<Change>, n: nat) {
    forall k :: n <= k < |journal| ==> allowed(Replay(origin, journal[..k]), journal[k])
  }

  /** Every state of the disk since then was allowed. */
  ghost predicate StatesSince(allowed: Files -> bool, origin: Files, journal: seq<Change>, n: nat) {
    forall k :: n <= k <= |journal| ==> allowed(Replay(origin, journal[..k]))
  }

  lemma ChangesOneMore(allowed: (Files, Change) -> bool, origin: Files, journal: seq<Change>, n: nat, change: Change)
    requires ChangesSince(allowed, origin, journal, n) && allowed(Replay(origin, journal), change)
    ensures ChangesSince(allowed, origin, journal + [change], n)
  {
    var longer := journal + [change];
    forall k | n <= k < |longer| ensures allowed(Replay(origin, longer[..k]), longer[k]) {
      assert longer[..k] == journal[..k];
      assert journal[..|journal|] == journal;
    }
  }

  lemma StatesOneMore(allowed: Files -> bool, origin: Files, journal: seq<Change>, n: nat, change: Change)
    requires StatesSince(allowed, origin, journal, n) && allowed(Apply(Replay(origin, journal), change))
    ensures StatesSince(allowed, origin, journal + [change], n)
  {
    var longer := journal + [change];
    ReplayOneMore(origin, journal, change);
    forall k | n <= k <= |longer| ensures allowed(Replay(origin, longer[..k])) {
      if k == |longer| {
        assert longer[..k] == longer;
      } else {
        assert longer[..k] == journal[..k];
      }
    }
  }

  lemma ChangesThroughout(allowed: (Files, Change) -> bool, origin: Files, journal: seq<Change>, longer: seq<Change>,
      n: nat)
    requires n <= |journal| && journal <= longer
    requires ChangesSince(allowed, origin, journal, n) && ChangesSince(allowed, origin, longer, |journal|)
    ensures ChangesSince(allowed, origin, longer, n)
  {
    forall k | n <= k < |longer| ensures allowed(Replay(origin, longer[..k]), longer[k]) {
      assert k < |journal| ==> longer[..k] == journal[..k] && longer[k] == journal[k];
    }
  }

  lemma StatesThroughout(allowed: Files -> bool, origin: Files, journal: seq<Change>, longer: seq<Change>, n: nat)
    requires n <= |journal| && journal <= longer
    requires StatesSince(allowed, origin, journal, n) && StatesSince(allowed, origin, longer, |journal|)
    ensures StatesSince(allowed, origin, longer, n)
  {
    forall k | n <= k <= |longer| ensures allowed(Replay(origin, longer[..k])) {
      assert k < |journal| ==> longer[..k] == journal[..k];
    }
  }

  /** The directory, with the journal of every change ever made to it.  A crash leaves the disk as a prefix of the
      journal made it. */
  class LogDirectory {
    ghost const origin: Files
    ghost var journal: seq<Change>
    var files: Files

    ghost predicate Valid()
      reads this
    {
      files == Replay(origin, journal)
    }

    constructor (files: Files)
      ensures Valid() && this.files == files && origin == files && journal == []
    {
      this.files, origin, journal := files, files, [];
    }

    method Create(p: LogPath)
      requires Valid()
      modifies this
      ensures Valid() && journal == old(journal) + [Creates(p)] && files == old(files)[p := []]
    {
      ReplayOneMore(origin, journal, Creates(p));
      files, journal := files[p := []], journal + [Creates(p)];
    }

    method Append(p: LogPath, bytes: seq<Byte>)
      requires Valid() && p in files
      modifies this
      ensures Valid() && journal == old(journal) + [Appends(p, bytes)]
      ensures files == old(files)[p := old(files)[p] + bytes]
    {
      ReplayOneMore(origin, journal, Appends(p, bytes));
      files, journal := files[p := files[p] + bytes], journal + [Appends(p, bytes)];
    }

    method Rename(p: LogPath, to: LogPath)
      requires Valid() && p in files
      modifies this
      ensures Valid() && journal == old(journal) + [Renames(p, to)] && files == (old(files) - {p})[to := old(files)[p]]
    {
      ReplayOneMore(origin, journal, Renames(p, to));
      files, journal := (files - {p})[to := files[p]], journal + [Renames(p, to)];
    }

    method Remove(p: LogPath)
      requires Valid()
      modifies this
      ensures Valid() && journal == old(journal) + [Removes(p)] && files == old(files) - {p}
    {
      ReplayOneMore(origin, journal, Removes(p));
      files, journal := files - {p}, journal + [Removes(p)];
    }

    method Evict(p: LogPath, ghost active: Option<LogPath>, ghost limit: U64)
      requires Valid()
      modifies this
      ensures Valid() && journal == old(journal) + [Evicts(p, active, limit)] && files == old(files) - {p}
    {
      ReplayOneMore(origin, journal, Evicts(p, active, limit));
      files, journal := files - {p}, journal + [Evicts(p, active, limit)];
    }

    /** The directory listing, in no particular order. */
    method KnownLogFiles() returns (paths: seq<LogPath>)
      ensures forall p :: p in paths <==> p in files && Managed(p)
      ensures forall i, j :: 0 <= i < j < |paths| ==> paths[i] != paths[j]
    {
      var rest := set p | p in files && Managed(p);
      paths := [];
      while rest != {}
        invariant forall p :: p in files && Managed(p) <==> p in rest || p in paths
        invariant forall i :: 0 <= i < |paths| ==> paths[i] !in rest
        invariant forall i, j :: 0 <= i < j < |paths| ==> paths[i] != paths[j]
      {
        var p :| p in rest;
        rest := rest - {p};
        paths := paths + [p];
      }
    }
  }
}
