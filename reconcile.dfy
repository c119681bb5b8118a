/**
 * The reconciler: which paths the run wants (`to_keep`), which replays are missing
 * (`to_download`), which directory entries are replay files (`existing`) and which of those
 * are stale (`to_remove`). The target directory is modelled as the set of its entries' paths.
 */
module Reconcile {
  import opened Results
  import opened Replays
  import opened Paths
  import opened Seqs

  /** `to_keep`: the target path of every replay, one per replay and in replay order. */
  function ToKeep(dir: Path, replays: seq<Replay>): (keep: seq<Path>)
    ensures |keep| == |replays|
    ensures forall i :: 0 <= i < |replays| ==> keep[i] == KeepPath(dir, replays[i])
    ensures forall r :: r in replays ==> KeepPath(dir, r) in keep
  {
    var keep := seq(|replays|, i requires 0 <= i < |replays| => KeepPath(dir, replays[i]));
    assert forall r :: r in replays ==> exists i :: 0 <= i < |replays| && replays[i] == r && keep[i] == KeepPath(dir, r);
    keep
  }

  /** `to_download`: the replays whose target path was absent when the existence checks ran. */
  function ToDownload(dir: Path, replays: seq<Replay>, files: set<Path>): (todo: seq<Replay>)
    ensures forall r :: r in todo <==> r in replays && KeepPath(dir, r) !in files
  {
    Filter(r => KeepPath(dir, r) !in files, replays)
  }

  /** `existing`: the directory entries whose extension is exactly `ttr` or `ttrm`, in listing order. */
  function Existing(entries: seq<Path>): (existing: seq<Path>)
    ensures forall p :: p in existing <==> p in entries && IsReplayFile(p)
  {
    Filter(IsReplayFile, entries)
  }

  /** One more directory entry adds itself to `existing` exactly when it is a replay file. */
  lemma ExistingSnoc(entries: seq<Path>, p: Path)
    ensures Existing(entries + [p]) == Existing(entries) + (if IsReplayFile(p) then [p] else [])
  {
    FilterSnoc(IsReplayFile, entries, p);
  }

  /** `to_remove`: the existing replay files that the run does not want. */
  function ToRemove(existing: seq<Path>, keep: seq<Path>): (stale: seq<Path>)
    ensures forall p :: p in stale <==> p in existing && p !in keep
  {
    Filter(p => p !in keep, existing)
  }

  /** The replays to download keep their relative order and, like their source, have no duplicates. */
  lemma ToDownloadOrdered(dir: Path, replays: seq<Replay>, files: set<Path>)
    ensures IsSubsequence(ToDownload(dir, replays, files), replays)
    ensures NoDuplicates(replays) ==> NoDuplicates(ToDownload(dir, replays, files))
  {
    FilterIsSubsequence(r => KeepPath(dir, r) !in files, replays);
    if NoDuplicates(replays) {
      FilterDistinct(r => KeepPath(dir, r) !in files, replays);
    }
  }

  /** Pruning removes replay files only, never a wanted path and never an entry that is not listed. */
  lemma PruneIsSafe(entries: seq<Path>, keep: seq<Path>)
    ensures forall p :: p in ToRemove(Existing(entries), keep) ==> p in entries && IsReplayFile(p) && p !in keep
    ensures IsSubsequence(ToRemove(Existing(entries), keep), entries)
  {
    var existing := Existing(entries);
    FilterIsSubsequence(IsReplayFile, entries);
    FilterIsSubsequence(p => p !in keep, existing);
    SubsequenceTransitive(ToRemove(existing, keep), existing, entries);
  }

  /** Once every wanted path exists, nothing is left to download: a rerun downloads nothing. */
  lemma NothingMissing(dir: Path, replays: seq<Replay>, files: set<Path>)
    requires forall r :: r in replays ==> KeepPath(dir, r) in files
    ensures ToDownload(dir, replays, files) == []
  {
    FilterNone(r => KeepPath(dir, r) !in files, replays);
  }

  /** Once no replay file outside the wanted paths exists, a rerun of the pruner removes nothing. */
  lemma NothingStale(files: set<Path>, keep: seq<Path>, entries: seq<Path>)
    requires forall p :: p in files && IsReplayFile(p) ==> p in keep
    requires forall p :: p in entries ==> p in files
    ensures ToRemove(Existing(entries), keep) == []
  {
    FilterNone(p => p !in keep, Existing(entries));
  }

  /** Wanted {A, B}, directory holds A: only B is downloaded. */
  lemma DownloadExample(dir: Path, a: Replay, b: Replay, files: set<Path>)
    requires KeepPath(dir, a) in files && KeepPath(dir, b) !in files
    ensures ToDownload(dir, [a, b], files) == [b]
  {
    var keep := r => KeepPath(dir, r) !in files;
    assert [a, b][..1] == [a];
    assert [a][..0] == [];
    assert Filter(keep, [a]) == [];
  }

  /** Directory {A, C, D} with A and C replay files and D not: the pruner considers A and C only. */
  lemma ExistingOfThree(pa: Path, c: Path, d: Path)
    requires IsReplayFile(pa) && IsReplayFile(c) && !IsReplayFile(d)
    ensures Existing([pa, c, d]) == [pa, c]
  {
    assert [] + [pa] == [pa] && [pa] + [c] == [pa, c] && [pa, c] + [d] == [pa, c, d];
    ExistingSnoc([], pa);
    ExistingSnoc([pa], c);
    ExistingSnoc([pa, c], d);
  }

  /** The listing `./a.ttr`, `./c.ttrm`, `./D.txt`: the pruner considers the first two only. */
  lemma ExistingExample()
    ensures Existing(["./a.ttr", "./c.ttrm", "./D.txt"]) == ["./a.ttr", "./c.ttrm"]
  {
    SingleReplayExample();
    MultiReplayExample();
    TextFileExample();
    ExistingOfThree("./a.ttr", "./c.ttrm", "./D.txt");
  }

  lemma SingleReplayExample()
    ensures Extension(FileName("./a.ttr")) == Some("ttr") && IsReplayFile("./a.ttr")
  {
    LastIndexOfIs("./a.ttr", '/', 1);
    assert FileName("./a.ttr") == "a.ttr";
    LastIndexOfIs("a.ttr", '.', 1);
  }

  lemma MultiReplayExample()
    ensures Extension(FileName("./c.ttrm")) == Some("ttrm") && IsReplayFile("./c.ttrm")
  {
    LastIndexOfIs("./c.ttrm", '/', 1);
    assert FileName("./c.ttrm") == "c.ttrm";
    LastIndexOfIs("c.ttrm", '.', 1);
  }

  lemma TextFileExample()
    ensures Extension(FileName("./D.txt")) == Some("txt") && !IsReplayFile("./D.txt")
  {
    LastIndexOfIs("./D.txt", '/', 1);
    assert FileName("./D.txt") == "D.txt";
    LastIndexOfIs("D.txt", '.', 1);
  }

  /** Of the replay files A and C, with A and B wanted, only C is stale. */
  lemma RemoveExample(pa: Path, pb: Path, c: Path)
    requires c != pa && c != pb
    ensures ToRemove([pa, c], [pa, pb]) == [c]
  {
    var stale := p => p !in [pa, pb];
    FilterSnoc(stale, [pa], c);
    FilterSnoc(stale, [], pa);
    assert [] + [pa] == [pa] && [pa] + [c] == [pa, c];
  }
}
