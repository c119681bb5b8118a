/**
 * The download loop: for each missing replay in order, the retry loop for its URL and, when a
 * body comes back, a file at its target path. The rate-limit flag is shared by all replays;
 * the first download error ends the run.
 */
module Download {
  import opened Results
  import opened Seqs
  import opened Replays
  import opened Paths
  import opened Reconcile
  import opened Backoff
  import opened Directory

  /** How a run of the loop ends; `OutOfReplies` means the reply script ran out. */
  datatype RunOutcome = Done | Failed(error: Error) | OutOfReplies

  datatype Run = Run(outcome: RunOutcome, files: set<Path>, hitLimit: bool, remaining: seq<Reply>, events: seq<Event>)

  /** The target paths of some replays. */
  function Wanted(dir: Path, replays: seq<Replay>): set<Path> {
    set r | r in replays :: KeepPath(dir, r)
  }

  /** The loop over `todo`, starting from the directory entries `files` and the flag `hitLimit`. */
  function DownloadAll(dir: Path, todo: seq<Replay>, files: set<Path>, hitLimit: bool, replies: seq<Reply>): (run: Run)
    ensures hitLimit ==> run.hitLimit
    ensures files <= run.files
    decreases |todo|
  {
    if todo == [] then Run(Done, files, hitLimit, replies, [])
    else
      var r := todo[0];
      var a := Retry(Url(r), hitLimit, replies);
      if a.outcome.Fetched? then
        var path := KeepPath(dir, r);
        var rest := DownloadAll(dir, todo[1..], files + {path}, a.hitLimit, a.remaining);
        rest.(events := a.events + [Wrote(path)] + rest.events)
      else Run(Abort(r, a.outcome), files, a.hitLimit, a.remaining, a.events)
  }

  /** How the run ends when the attempts for `r` end other than with a body: the `?` on the request. */
  function Abort(r: Replay, o: Outcome): (outcome: RunOutcome)
    requires !o.Fetched?
    ensures outcome.Failed? <==> !o.Exhausted?
    ensures o.HttpError? ==> outcome == Failed(DownloadHttp(r.id, o.status))
    ensures o.Transport? ==> outcome == Failed(DownloadTransport(r.id))
  {
    match o
    case HttpError(status) => Failed(DownloadHttp(r.id, status))
    case Transport => Failed(DownloadTransport(r.id))
    case Exhausted => OutOfReplies
  }

  lemma WantedCons(dir: Path, todo: seq<Replay>)
    requires todo != []
    ensures Wanted(dir, todo) == {KeepPath(dir, todo[0])} + Wanted(dir, todo[1..])
  {
    assert forall x :: x in todo <==> x == todo[0] || x in todo[1..];
  }

  /** The run writes target paths of its replays only, and all of them when it is done. */
  lemma {:induction false} DownloadWritesWanted(dir: Path, todo: seq<Replay>, files: set<Path>, hitLimit: bool, replies: seq<Reply>)
    ensures DownloadAll(dir, todo, files, hitLimit, replies).files <= files + Wanted(dir, todo)
    ensures DownloadAll(dir, todo, files, hitLimit, replies).outcome.Done?
      ==> DownloadAll(dir, todo, files, hitLimit, replies).files == files + Wanted(dir, todo)
    decreases |todo|
  {
    if todo != [] {
      var r := todo[0];
      var a := Retry(Url(r), hitLimit, replies);
      WantedCons(dir, todo);
      if a.outcome.Fetched? {
        DownloadWritesWanted(dir, todo[1..], files + {KeepPath(dir, r)}, a.hitLimit, a.remaining);
      }
    }
  }

  /** The events of a file write followed by a paced log form a paced log. */
  lemma PacedAfterWrite(hitLimit: bool, path: Path, log: seq<Event>)
    requires Paced(hitLimit, log)
    ensures Paced(hitLimit, [Wrote(path)] + log)
  {
    assert ([Wrote(path)] + log)[1..] == log;
  }

  /** The attempts for one replay, its file write and the rest of the run form a paced log. */
  lemma PacedTurn(hitLimit: bool, attempts: seq<Event>, path: Path, later: seq<Event>)
    requires Paced(hitLimit, attempts) && Paced(hitLimit || WarnedEngaged in attempts, later)
    ensures Paced(hitLimit, attempts + [Wrote(path)] + later)
  {
    PacedAfterWrite(hitLimit || WarnedEngaged in attempts, path, later);
    PacedConcat(hitLimit, attempts, [Wrote(path)] + later);
    assert attempts + [Wrote(path)] + later == attempts + ([Wrote(path)] + later);
  }

  /** Across the whole run a request is preceded by a sleep exactly when the flag is already set. */
  lemma {:induction false} DownloadPaced(dir: Path, todo: seq<Replay>, files: set<Path>, hitLimit: bool, replies: seq<Reply>)
    ensures Paced(hitLimit, DownloadAll(dir, todo, files, hitLimit, replies).events)
    decreases |todo|
  {
    if todo != [] {
      var r := todo[0];
      var a := Retry(Url(r), hitLimit, replies);
      RetryPaced(Url(r), hitLimit, replies);
      if a.outcome.Fetched? {
        var path := KeepPath(dir, r);
        var rest := DownloadAll(dir, todo[1..], files + {path}, a.hitLimit, a.remaining);
        DownloadPaced(dir, todo[1..], files + {path}, a.hitLimit, a.remaining);
        PacedTurn(hitLimit, a.events, path, rest.events);
      }
    }
  }

  /** The flag never goes back: it ends set exactly when it started set or the run engaged it. */
  lemma {:induction false} DownloadFlag(dir: Path, todo: seq<Replay>, files: set<Path>, hitLimit: bool, replies: seq<Reply>)
    ensures DownloadAll(dir, todo, files, hitLimit, replies).hitLimit
      == (hitLimit || WarnedEngaged in DownloadAll(dir, todo, files, hitLimit, replies).events)
    decreases |todo|
  {
    if todo != [] {
      var r := todo[0];
      var a := Retry(Url(r), hitLimit, replies);
      RetryPaced(Url(r), hitLimit, replies);
      if a.outcome.Fetched? {
        var path := KeepPath(dir, r);
        DownloadFlag(dir, todo[1..], files + {path}, a.hitLimit, a.remaining);
      }
    }
  }

  /**
   * A failed download ends the run at once: the replays before it were written, nothing after
   * it was requested (its own request is the last event), and the error names its id.
   */
  lemma {:induction false} FailureStops(dir: Path, todo: seq<Replay>, files: set<Path>, hitLimit: bool, replies: seq<Reply>)
    requires DownloadAll(dir, todo, files, hitLimit, replies).outcome.Failed?
    ensures var run := DownloadAll(dir, todo, files, hitLimit, replies);
      exists k :: 0 <= k < |todo| && StoppedAt(dir, todo, files, run, k)
    decreases |todo|
  {
    var run := DownloadAll(dir, todo, files, hitLimit, replies);
    var r := todo[0];
    var a := Retry(Url(r), hitLimit, replies);
    if a.outcome.Fetched? {
      var path := KeepPath(dir, r);
      var rest := DownloadAll(dir, todo[1..], files + {path}, a.hitLimit, a.remaining);
      FailureStops(dir, todo[1..], files + {path}, a.hitLimit, a.remaining);
      var k :| 0 <= k < |todo[1..]| && StoppedAt(dir, todo[1..], files + {path}, rest, k);
      StoppedLater(dir, todo, files, a.events + [Wrote(path)], rest, k);
    } else {
      RetryEndsWithRequest(Url(r), hitLimit, replies);
      assert todo[..0] == [];
      assert StoppedAt(dir, todo, files, run, 0);
    }
  }

  /** `run` stopped at `todo[k]`: the replays before it were written, and its request came last. */
  predicate StoppedAt(dir: Path, todo: seq<Replay>, files: set<Path>, run: Run, k: nat)
    requires k < |todo|
  {
    run.files == files + Wanted(dir, todo[..k]) && FailedOn(todo[k], run)
  }

  /** `run` failed on `r`: the error names its id and its request is the last event. */
  predicate FailedOn(r: Replay, run: Run) {
    && run.outcome.Failed?
    && (run.outcome.error.DownloadHttp? || run.outcome.error.DownloadTransport?)
    && run.outcome.error.id == r.id
    && run.events != [] && run.events[|run.events| - 1] == Requested(Url(r))
  }

  /** A run that stopped at `todo[1..][k]`, resumed after the first replay was written, stopped at `todo[k + 1]`. */
  lemma StoppedLater(dir: Path, todo: seq<Replay>, files: set<Path>, log: seq<Event>, rest: Run, k: nat)
    requires 0 <= k < |todo| - 1
    requires StoppedAt(dir, todo[1..], files + {KeepPath(dir, todo[0])}, rest, k)
    ensures StoppedAt(dir, todo, files, Resumed(log, rest), k + 1)
  {
    WrittenBefore(dir, todo, k);
    assert todo[k + 1] == todo[1..][k];
    FailedOnResumed(todo[k + 1], log, rest);
  }

  /** The replays before `todo[k + 1]` are the first one and those before `todo[1..][k]`. */
  lemma WrittenBefore(dir: Path, todo: seq<Replay>, k: nat)
    requires 0 <= k < |todo| - 1
    ensures Wanted(dir, todo[..k + 1]) == {KeepPath(dir, todo[0])} + Wanted(dir, todo[1..][..k])
  {
    assert todo[..k + 1][0] == todo[0] && todo[..k + 1][1..] == todo[1..][..k];
    WantedCons(dir, todo[..k + 1]);
  }

  lemma FailedOnResumed(r: Replay, log: seq<Event>, rest: Run)
    requires FailedOn(r, rest)
    ensures FailedOn(r, Resumed(log, rest))
  {
    LastOfConcat(log, rest.events);
  }

  lemma LastOfConcat(a: seq<Event>, b: seq<Event>)
    requires b != []
    ensures (a + b)[|a + b| - 1] == b[|b| - 1]
  {
  }

  /** A retry loop that settled ended with its last request. */
  lemma {:induction false} RetryEndsWithRequest(url: string, hitLimit: bool, replies: seq<Reply>)
    requires Retry(url, hitLimit, replies).outcome != Exhausted
    ensures Retry(url, hitLimit, replies).events != []
    ensures Retry(url, hitLimit, replies).events[|Retry(url, hitLimit, replies).events| - 1] == Requested(url)
    decreases |replies|
  {
    if replies[0] == Status(TooManyRequests) {
      RetryEndsWithRequest(url, true, replies[1..]);
    }
  }

  /**
   * Rerun idempotence: after a run that downloaded every missing replay, computing the
   * replays to download again yields nothing.
   */
  lemma RerunDownloadsNothing(dir: Path, replays: seq<Replay>, files: set<Path>, hitLimit: bool, replies: seq<Reply>)
    requires DownloadAll(dir, ToDownload(dir, replays, files), files, hitLimit, replies).outcome.Done?
    ensures forall r :: r in replays ==> KeepPath(dir, r) in DownloadAll(dir, ToDownload(dir, replays, files), files, hitLimit, replies).files
    ensures ToDownload(dir, replays, DownloadAll(dir, ToDownload(dir, replays, files), files, hitLimit, replies).files) == []
  {
    var todo := ToDownload(dir, replays, files);
    var after := DownloadAll(dir, todo, files, hitLimit, replies).files;
    DownloadWritesWanted(dir, todo, files, hitLimit, replies);
    forall r | r in replays
      ensures KeepPath(dir, r) in after
    {
      if KeepPath(dir, r) !in files {
        assert r in todo;
      }
    }
    NothingMissing(dir, replays, after);
  }

  /** A 404 for the first replay ends the run with that status: nothing written, the second replay never requested. */
  lemma NotFoundAborts(dir: Path, a: Replay, b: Replay, files: set<Path>, later: seq<Reply>)
    ensures var run := DownloadAll(dir, [a, b], files, false, [Status(404)] + later);
      && run.outcome == Failed(DownloadHttp(a.id, 404))
      && run.files == files
      && run.remaining == later
      && run.events == [Requested(Url(a))]
  {
    NotFoundIsFinal(Url(a), false, later);
  }

  /** The run `run` with `log` recorded before it. */
  function Resumed(log: seq<Event>, run: Run): Run {
    run.(events := log + run.events)
  }

  /** A turn of the download loop whose replay was fetched: its file is written and the loop goes on. */
  lemma FetchedTurn(dir: Path, todo: seq<Replay>, files: set<Path>, hitLimit: bool, replies: seq<Reply>, log: seq<Event>)
    requires todo != [] && Retry(Url(todo[0]), hitLimit, replies).outcome.Fetched?
    ensures var a := Retry(Url(todo[0]), hitLimit, replies);
      var path := KeepPath(dir, todo[0]);
      Resumed(log, DownloadAll(dir, todo, files, hitLimit, replies))
        == Resumed(log + a.events + [Wrote(path)], DownloadAll(dir, todo[1..], files + {path}, a.hitLimit, a.remaining))
  {
    var a := Retry(Url(todo[0]), hitLimit, replies);
    var path := KeepPath(dir, todo[0]);
    var rest := DownloadAll(dir, todo[1..], files + {path}, a.hitLimit, a.remaining);
    FetchedStep(dir, todo, files, hitLimit, replies);
    ResumedTwice(log, a.events + [Wrote(path)], rest);
  }

  lemma ResumedTwice(log: seq<Event>, more: seq<Event>, run: Run)
    ensures Resumed(log, Resumed(more, run)) == Resumed(log + more, run)
  {
    assert log + (more + run.events) == log + more + run.events;
  }

  /** The loop's step for a fetched replay, as one equation. */
  lemma FetchedStep(dir: Path, todo: seq<Replay>, files: set<Path>, hitLimit: bool, replies: seq<Reply>)
    requires todo != [] && Retry(Url(todo[0]), hitLimit, replies).outcome.Fetched?
    ensures var a := Retry(Url(todo[0]), hitLimit, replies);
      var path := KeepPath(dir, todo[0]);
      var rest := DownloadAll(dir, todo[1..], files + {path}, a.hitLimit, a.remaining);
      DownloadAll(dir, todo, files, hitLimit, replies) == rest.(events := a.events + [Wrote(path)] + rest.events)
  {
  }

  /** A turn of the download loop that did not fetch its replay ends the run. */
  lemma FinalTurn(dir: Path, todo: seq<Replay>, files: set<Path>, hitLimit: bool, replies: seq<Reply>, log: seq<Event>)
    requires todo != [] && !Retry(Url(todo[0]), hitLimit, replies).outcome.Fetched?
    ensures var a := Retry(Url(todo[0]), hitLimit, replies);
      Resumed(log, DownloadAll(dir, todo, files, hitLimit, replies))
        == Run(Abort(todo[0], a.outcome), files, a.hitLimit, a.remaining, log + a.events)
  {
  }

  /** One turn of the download loop: the attempts for the replay's URL and, when they fetch its body, its file. */
  method DownloadOne(d: ReplayDirectory, replay: Replay, hitLimit: bool, replies: seq<Reply>) returns (a: Attempts)
    requires d.present
    modifies d
    ensures a == Retry(Url(replay), hitLimit, replies)
    ensures d.present
    ensures d.entries == if a.outcome.Fetched? then old(d.entries) + {KeepPath(d.path, replay)} else old(d.entries)
  {
    var path := KeepPath(d.path, replay);
    var url := Url(replay);
    a := RequestWithRetry(url, hitLimit, replies);
    if a.outcome.Fetched? {
      d.Write(path);
    }
  }

  /** `DownloadMissing`: the download loop run against the directory and the reply script. */
  method DownloadMissing(d: ReplayDirectory, todo: seq<Replay>, hitLimit: bool, replies: seq<Reply>) returns (run: Run)
    requires d.present
    modifies d
    ensures run == DownloadAll(d.path, todo, old(d.entries), hitLimit, replies)
    ensures d.present && d.entries == run.files
  {
    ghost var spec := DownloadAll(d.path, todo, d.entries, hitLimit, replies);
    var hit, remaining, events := hitLimit, replies, [];
    var pending := todo;
    while pending != []
      invariant d.present
      invariant spec == Resumed(events, DownloadAll(d.path, pending, d.entries, hit, remaining))
      decreases |pending|
    {
      var replay := pending[0];
      ghost var before := d.entries;
      var a := DownloadOne(d, replay, hit, remaining);
      if a.outcome.Fetched? {
        FetchedTurn(d.path, pending, before, hit, remaining, events);
        events := events + a.events + [Wrote(KeepPath(d.path, replay))];
        hit, remaining := a.hitLimit, a.remaining;
        pending := pending[1..];
      } else {
        FinalTurn(d.path, pending, before, hit, remaining, events);
        return Run(Abort(replay, a.outcome), d.entries, a.hitLimit, a.remaining, events + a.events);
      }
    }
    run := Run(Done, d.entries, hit, remaining, events);
  }
}
