/**
 * One run of the archiver: gather the replays of the named streams, make sure the directory
 * exists, download the missing replays, list the directory's replay files and, when asked to,
 * remove those no stream mentions.
 */
module Sync {
  import opened Results
  import opened Seqs
  import opened Replays
  import opened Paths
  import opened Streams
  import opened Reconcile
  import opened Backoff
  import opened Directory
  import opened Download

  /** How a run ends and the directory entries it leaves. */
  datatype Report = Report(outcome: RunOutcome, entries: set<Path>)

  /** The entries left by the pruner: every replay file that is not wanted is gone. */
  function Pruned(entries: set<Path>, keep: seq<Path>): set<Path> {
    set p | p in entries && (!IsReplayFile(p) || p in keep)
  }

  /** The whole run, from the directory entries before it. */
  function SyncRun(dir: Path, entries: set<Path>, streams: seq<string>, service: string -> StreamReply,
                   remove: bool, replies: seq<Reply>): Report
  {
    match GatherReplays(streams, service)
    case Failure(e) => Report(Failed(e), entries)
    case Success(replays) =>
      var run := DownloadAll(dir, ToDownload(dir, replays, entries), entries, false, replies);
      if run.outcome.Done? && remove then Report(Done, Pruned(run.files, ToKeep(dir, replays)))
      else Report(run.outcome, run.files)
  }

  /** Every path the download loop adds is the target path of one of the replays. */
  lemma WantedAreKept(dir: Path, replays: seq<Replay>, files: set<Path>)
    ensures forall p :: p in Wanted(dir, ToDownload(dir, replays, files)) ==> p in ToKeep(dir, replays)
  {
    forall p | p in Wanted(dir, ToDownload(dir, replays, files))
      ensures p in ToKeep(dir, replays)
    {
      var r :| r in ToDownload(dir, replays, files) && p == KeepPath(dir, r);
    }
  }

  /**
   * A run that ends well leaves the target path of every replay in the directory, so that
   * nothing is left to download.
   */
  lemma SyncKeepsWanted(dir: Path, entries: set<Path>, streams: seq<string>, service: string -> StreamReply,
                        remove: bool, replies: seq<Reply>)
    requires SyncRun(dir, entries, streams, service, remove, replies).outcome.Done?
    ensures GatherReplays(streams, service).Success?
    ensures forall r :: r in GatherReplays(streams, service).value
                     ==> KeepPath(dir, r) in SyncRun(dir, entries, streams, service, remove, replies).entries
    ensures ToDownload(dir, GatherReplays(streams, service).value, SyncRun(dir, entries, streams, service, remove, replies).entries) == []
  {
    var replays := GatherReplays(streams, service).value;
    var todo := ToDownload(dir, replays, entries);
    var run := DownloadAll(dir, todo, entries, false, replies);
    var after := SyncRun(dir, entries, streams, service, remove, replies).entries;
    RerunDownloadsNothing(dir, replays, entries, false, replies);
    forall r | r in replays
      ensures KeepPath(dir, r) in after
    {
      assert KeepPath(dir, r) in run.files;
      assert KeepPath(dir, r) in ToKeep(dir, replays);
    }
    NothingMissing(dir, replays, after);
  }

  /**
   * A run adds only target paths of the gathered replays, and removes only replay files that
   * no replay wants, and only when removal was asked for and every download succeeded.
   */
  lemma SyncTouchesOnlyItsOwn(dir: Path, entries: set<Path>, streams: seq<string>, service: string -> StreamReply,
                              remove: bool, replies: seq<Reply>)
    ensures forall p :: p in SyncRun(dir, entries, streams, service, remove, replies).entries && p !in entries
                     ==> GatherReplays(streams, service).Success? && p in ToKeep(dir, GatherReplays(streams, service).value)
    ensures forall p :: p in entries && p !in SyncRun(dir, entries, streams, service, remove, replies).entries
                     ==> && remove
                         && SyncRun(dir, entries, streams, service, remove, replies).outcome.Done?
                         && IsReplayFile(p)
                         && p !in ToKeep(dir, GatherReplays(streams, service).value)
  {
    var gathered := GatherReplays(streams, service);
    if gathered.Success? {
      var replays := gathered.value;
      var todo := ToDownload(dir, replays, entries);
      DownloadWritesWanted(dir, todo, entries, false, replies);
      WantedAreKept(dir, replays, entries);
    }
  }

  /** Pruning twice removes nothing more. */
  lemma PrunedTwice(entries: set<Path>, keep: seq<Path>)
    ensures Pruned(Pruned(entries, keep), keep) == Pruned(entries, keep)
  {
  }

  /**
   * Idempotence: after a run that ended well, running again with the same streams changes
   * nothing and requests nothing, whatever the replay server would answer.
   */
  lemma SyncIdempotent(dir: Path, entries: set<Path>, streams: seq<string>, service: string -> StreamReply,
                       remove: bool, replies: seq<Reply>, later: seq<Reply>)
    requires SyncRun(dir, entries, streams, service, remove, replies).outcome.Done?
    ensures var after := SyncRun(dir, entries, streams, service, remove, replies).entries;
      SyncRun(dir, after, streams, service, remove, later) == Report(Done, after)
    ensures var after := SyncRun(dir, entries, streams, service, remove, replies).entries;
      var replays := GatherReplays(streams, service).value;
      DownloadAll(dir, ToDownload(dir, replays, after), after, false, later).events == []
  {
    SyncKeepsWanted(dir, entries, streams, service, remove, replies);
    var replays := GatherReplays(streams, service).value;
    if remove {
      var run := DownloadAll(dir, ToDownload(dir, replays, entries), entries, false, replies);
      PrunedTwice(run.files, ToKeep(dir, replays));
    }
  }

  /** The pruner's list, removed from the directory it was read from, leaves the pruned entries. */
  lemma RemovingStaleLeavesPruned(entries: set<Path>, listing: seq<Path>, keep: seq<Path>)
    requires forall p :: p in listing <==> p in entries
    ensures entries - (set p | p in ToRemove(Existing(listing), keep)) == Pruned(entries, keep)
  {
  }

  /** The `while let` loop over the directory listing that keeps the `ttr` and `ttrm` files. */
  method CollectExisting(listing: seq<Path>) returns (existing: seq<Path>)
    ensures existing == Existing(listing)
  {
    existing := [];
    var i := 0;
    while i < |listing|
      invariant 0 <= i <= |listing|
      invariant existing == Existing(listing[..i])
    {
      var path := listing[i];
      assert listing[..i + 1] == listing[..i] + [path];
      ExistingSnoc(listing[..i], path);
      var extension := Extension(FileName(path));
      if extension.Some? && (extension.value == "ttr" || extension.value == "ttrm") {
        existing := existing + [path];
      }
      i := i + 1;
    }
    assert listing[..i] == listing;
  }

  /** `try_join_all(to_remove.iter().map(fs::remove_file))`, one file after the other. */
  method RemoveAll(d: ReplayDirectory, stale: seq<Path>)
    requires d.Valid() && NoDuplicates(stale)
    requires forall p :: p in stale ==> p in d.entries
    modifies d
    ensures d.Valid() && d.present == old(d.present)
    ensures d.entries == old(d.entries) - (set p | p in stale)
  {
    var i := 0;
    while i < |stale|
      invariant 0 <= i <= |stale|
      invariant d.Valid() && d.present == old(d.present)
      invariant d.entries == old(d.entries) - (set p | p in stale[..i])
    {
      assert stale[i] !in stale[..i];
      d.RemoveFile(stale[i]);
      assert stale[..i + 1] == stale[..i] + [stale[i]];
      i := i + 1;
    }
    assert stale[..i] == stale;
  }

  /** The run, against the directory and the reply script. */
  method Run(d: ReplayDirectory, streams: seq<string>, service: string -> StreamReply, remove: bool, replies: seq<Reply>)
    returns (outcome: RunOutcome)
    requires d.Valid()
    modifies d
    ensures Report(outcome, d.entries) == SyncRun(d.path, old(d.entries), streams, service, remove, replies)
    ensures GatherReplays(streams, service).Success? ==> d.present
    ensures GatherReplays(streams, service).Failure? ==> d.present == old(d.present)
  {
    var gathered := GatherReplays(streams, service);
    if gathered.Failure? {
      return Failed(gathered.error);
    }
    var replays := gathered.value;
    if !d.present {
      d.CreateDir();
    }
    var keep := ToKeep(d.path, replays);
    var todo := ToDownload(d.path, replays, d.entries);
    var run := DownloadMissing(d, todo, false, replies);
    if !run.outcome.Done? {
      return run.outcome;
    }
    var listing := d.ReadDir();
    var existing := CollectExisting(listing);
    if remove {
      var stale := ToRemove(existing, keep);
      FilterDistinct(IsReplayFile, listing);
      FilterDistinct(p => p !in keep, existing);
      RemoveAll(d, stale);
      RemovingStaleLeavesPruned(run.files, listing, keep);
    }
    outcome := Done;
  }
}
