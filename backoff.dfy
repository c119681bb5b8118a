/**
 * The rate-limit backoff of the replay downloads: one request per attempt, a 429 answer
 * retries, any other answer ends the attempts. Once a 429 has been seen, a flag stays set for
 * the rest of the run and every later request is preceded by a five-second sleep.
 *
 * The replay server is a script of replies, consumed one per request; sleeps, requests and
 * warnings are recorded in an event log.
 */
module Backoff {
  import opened Streams

  const TooManyRequests: StatusCode := 429

  /** The delay, in seconds, of the sleep before each request once the flag is set. */
  const RateLimitDelay: nat := 5

  /** What the replay server does with one request. */
  datatype Reply = Status(code: StatusCode) | TransportFailure

  datatype Event =
    | Slept(seconds: nat)
    | Requested(url: string)
    | WarnedEngaged   // "Inoue returned 429 - adding a 5 second delay"
    | WarnedRepeat    // "Inoue returned 429"
    | Wrote(path: string)

  /** How the attempts for one URL end; `Exhausted` means the reply script ran out. */
  datatype Outcome = Fetched | HttpError(status: StatusCode) | Transport | Exhausted

  datatype Attempts = Attempts(outcome: Outcome, hitLimit: bool, remaining: seq<Reply>, events: seq<Event>)

  /** The sleep that precedes a request while the flag is set. */
  function Pause(hitLimit: bool): seq<Event> {
    if hitLimit then [Slept(RateLimitDelay)] else []
  }

  /** How a reply other than 429 ends the attempts: `send()?` and `error_for_status()?`. */
  function Settle(reply: Reply): (o: Outcome)
    ensures o != Exhausted
    ensures o.Fetched? <==> reply.Status? && !IsErrorStatus(reply.code)
    ensures o.HttpError? <==> reply.Status? && IsErrorStatus(reply.code)
    ensures o.HttpError? ==> o.status == reply.code
  {
    match reply
    case TransportFailure => Transport
    case Status(code) => if IsErrorStatus(code) then HttpError(code) else Fetched
  }

  /** The retry loop for one URL, from the flag's value when it starts. */
  function Retry(url: string, hitLimit: bool, replies: seq<Reply>): (a: Attempts)
    ensures hitLimit ==> a.hitLimit
    decreases |replies|
  {
    if replies == [] then Attempts(Exhausted, hitLimit, [], [])
    else
      var sent := Pause(hitLimit) + [Requested(url)];
      if replies[0] == Status(TooManyRequests) then
        var warning := if hitLimit then WarnedRepeat else WarnedEngaged;
        var rest := Retry(url, true, replies[1..]);
        Attempts(rest.outcome, rest.hitLimit, rest.remaining, sent + [warning] + rest.events)
      else
        Attempts(Settle(replies[0]), hitLimit, replies[1..], sent)
  }

  /**
   * The replies are consumed in order, one per request: what is left is a suffix of the script,
   * and the loop made exactly as many requests as it consumed replies.
   */
  lemma {:induction false} RetryConsumesInOrder(url: string, hitLimit: bool, replies: seq<Reply>)
    ensures |Retry(url, hitLimit, replies).remaining| <= |replies|
    ensures var a := Retry(url, hitLimit, replies);
      a.remaining == replies[|replies| - |a.remaining|..]
    ensures var a := Retry(url, hitLimit, replies);
      Count(a.events, Requested(url)) == |replies| - |a.remaining|
    ensures var a := Retry(url, hitLimit, replies);
      a.outcome != Exhausted ==> |a.remaining| < |replies|
    decreases |replies|
  {
    if replies != [] {
      SentCount(url, hitLimit, Requested(url));
      if replies[0] == Status(TooManyRequests) {
        var rest := Retry(url, true, replies[1..]);
        RetryConsumesInOrder(url, true, replies[1..]);
        TurnCount(url, hitLimit, rest.events, Requested(url));
        assert replies[1..][|replies| - 1 - |rest.remaining|..] == replies[|replies| - |rest.remaining|..];
      }
    }
  }

  /** How many times `e` occurs in `log`. */
  function Count(log: seq<Event>, e: Event): nat {
    if log == [] then 0 else (if log[0] == e then 1 else 0) + Count(log[1..], e)
  }

  lemma {:induction false} CountConcat(a: seq<Event>, b: seq<Event>, e: Event)
    ensures Count(a + b, e) == Count(a, e) + Count(b, e)
  {
    if a == [] {
      assert a + b == b;
    } else {
      assert (a + b)[1..] == a[1..] + b;
      CountConcat(a[1..], b, e);
    }
  }

  /**
   * The pacing discipline of a log that starts with the flag at `hitLimit`: while the flag is
   * set every request comes right after a sleep of `RateLimitDelay` seconds, while it is clear there is no sleep, the flag
   * is set by the "engaged" warning only and the "repeat" warning is given only once it is set.
   */
  predicate Paced(hitLimit: bool, log: seq<Event>)
    decreases |log|
  {
    if log == [] then true
    else match log[0]
      case Slept(seconds) => seconds == RateLimitDelay && hitLimit && |log| >= 2 && log[1].Requested? && Paced(hitLimit, log[2..])
      case Requested(_) => !hitLimit && Paced(hitLimit, log[1..])
      case WarnedEngaged => !hitLimit && Paced(true, log[1..])
      case WarnedRepeat => hitLimit && Paced(hitLimit, log[1..])
      case Wrote(_) => Paced(hitLimit, log[1..])
  }

  /** Paced logs compose, the second starting from the flag the first leaves behind. */
  lemma {:induction false} PacedConcat(hitLimit: bool, a: seq<Event>, b: seq<Event>)
    requires Paced(hitLimit, a) && Paced(hitLimit || WarnedEngaged in a, b)
    ensures Paced(hitLimit, a + b)
    decreases |a|
  {
    if a == [] {
      assert a + b == b;
    } else {
      assert (a + b)[0] == a[0];
      assert (a + b)[1..] == a[1..] + b;
      match a[0]
      case Slept(_) =>
        assert (a + b)[2..] == a[2..] + b;
        assert WarnedEngaged in a <==> WarnedEngaged in a[2..];
        PacedConcat(hitLimit, a[2..], b);
      case Requested(_) =>
        assert WarnedEngaged in a <==> WarnedEngaged in a[1..];
        PacedConcat(hitLimit, a[1..], b);
      case WarnedEngaged =>
        PacedConcat(true, a[1..], b);
      case WarnedRepeat =>
        assert WarnedEngaged in a <==> WarnedEngaged in a[1..];
        PacedConcat(hitLimit, a[1..], b);
      case Wrote(_) =>
        assert WarnedEngaged in a <==> WarnedEngaged in a[1..];
        PacedConcat(hitLimit, a[1..], b);
    }
  }

  /**
   * The retry loop sleeps before an attempt exactly when the flag is already set, and the flag
   * it leaves behind is set exactly when it was set before or the loop engaged it.
   */
  lemma {:induction false} RetryPaced(url: string, hitLimit: bool, replies: seq<Reply>)
    ensures Paced(hitLimit, Retry(url, hitLimit, replies).events)
    ensures Retry(url, hitLimit, replies).hitLimit == (hitLimit || WarnedEngaged in Retry(url, hitLimit, replies).events)
    decreases |replies|
  {
    if replies != [] {
      var sent := Pause(hitLimit) + [Requested(url)];
      assert Paced(hitLimit, sent) by {
        if hitLimit {
          assert sent[2..] == [];
        } else {
          assert sent[1..] == [];
        }
      }
      assert WarnedEngaged !in sent;
      if replies[0] == Status(TooManyRequests) {
        var warning := if hitLimit then WarnedRepeat else WarnedEngaged;
        var rest := Retry(url, true, replies[1..]);
        RetryPaced(url, true, replies[1..]);
        assert Paced(hitLimit, [warning] + rest.events) by {
          assert ([warning] + rest.events)[1..] == rest.events;
        }
        PacedConcat(hitLimit, sent, [warning] + rest.events);
        assert sent + [warning] + rest.events == sent + ([warning] + rest.events);
      }
    }
  }

  /** The events of one request: a sleep when the flag is set, then the request. */
  lemma SentCount(url: string, hitLimit: bool, e: Event)
    ensures Count(Pause(hitLimit) + [Requested(url)], e)
      == (if e == Requested(url) then 1 else 0) + (if hitLimit && e == Slept(RateLimitDelay) then 1 else 0)
  {
    var sent := Pause(hitLimit) + [Requested(url)];
    if hitLimit {
      assert sent == [Slept(RateLimitDelay), Requested(url)];
      assert sent[1..] == [Requested(url)] && sent[1..][1..] == [];
      assert Count([Requested(url)], e) == (if e == Requested(url) then 1 else 0);
      assert Count(sent, e) == (if e == Slept(RateLimitDelay) then 1 else 0) + Count(sent[1..], e);
    } else {
      assert sent[1..] == [];
    }
  }

  /** The events of a turn that met a 429, followed by those of the later turns. */
  lemma TurnCount(url: string, hitLimit: bool, later: seq<Event>, e: Event)
    ensures var warning := if hitLimit then WarnedRepeat else WarnedEngaged;
      Count(Pause(hitLimit) + [Requested(url)] + [warning] + later, e)
        == Count(Pause(hitLimit) + [Requested(url)], e) + (if e == warning then 1 else 0) + Count(later, e)
  {
    var warning := if hitLimit then WarnedRepeat else WarnedEngaged;
    var sent := Pause(hitLimit) + [Requested(url)];
    CountConcat(sent + [warning], later, e);
    CountConcat(sent, [warning], e);
    assert [warning][1..] == [];
  }

  /** Every 429 keeps the loop going and the first other reply ends it, with that reply's outcome. */
  lemma {:induction false} RetrySettlesAt(url: string, hitLimit: bool, replies: seq<Reply>, k: nat)
    requires k < |replies|
    requires forall i :: 0 <= i < k ==> replies[i] == Status(TooManyRequests)
    requires replies[k] != Status(TooManyRequests)
    ensures Retry(url, hitLimit, replies).outcome == Settle(replies[k])
    ensures Retry(url, hitLimit, replies).remaining == replies[k + 1..]
    ensures Retry(url, hitLimit, replies).hitLimit == (hitLimit || k > 0)
    decreases k
  {
    if k > 0 {
      assert forall i :: 0 <= i < k - 1 ==> replies[1..][i] == replies[i + 1];
      RetrySettlesAt(url, true, replies[1..], k - 1);
      assert replies[1..][k..] == replies[k + 1..];
    }
  }

  /**
   * With `k` answers 429 before the first other reply, the loop makes `k + 1` requests, sleeps
   * before each of the `k` retries (and before the first request when the flag was already
   * set), warns once that the delay is engaged if it was not, and warns about every other 429.
   */
  lemma {:induction false} RetryCounts(url: string, hitLimit: bool, replies: seq<Reply>, k: nat)
    requires k < |replies|
    requires forall i :: 0 <= i < k ==> replies[i] == Status(TooManyRequests)
    requires replies[k] != Status(TooManyRequests)
    ensures Count(Retry(url, hitLimit, replies).events, Requested(url)) == k + 1
    ensures Count(Retry(url, hitLimit, replies).events, Slept(RateLimitDelay)) == k + (if hitLimit then 1 else 0)
    ensures Count(Retry(url, hitLimit, replies).events, WarnedEngaged) == (if !hitLimit && k > 0 then 1 else 0)
    ensures Count(Retry(url, hitLimit, replies).events, WarnedRepeat) == (if !hitLimit && k > 0 then k - 1 else k)
    decreases k
  {
    SentCount(url, hitLimit, Requested(url));
    SentCount(url, hitLimit, Slept(RateLimitDelay));
    SentCount(url, hitLimit, WarnedEngaged);
    SentCount(url, hitLimit, WarnedRepeat);
    if k > 0 {
      var rest := Retry(url, true, replies[1..]);
      assert forall i :: 0 <= i < k - 1 ==> replies[1..][i] == replies[i + 1];
      RetryCounts(url, true, replies[1..], k - 1);
      TurnCount(url, hitLimit, rest.events, Requested(url));
      TurnCount(url, hitLimit, rest.events, Slept(RateLimitDelay));
      TurnCount(url, hitLimit, rest.events, WarnedEngaged);
      TurnCount(url, hitLimit, rest.events, WarnedRepeat);
    }
  }

  /** A server that answers nothing but 429 keeps the loop going until the script runs out. */
  lemma {:induction false} AlwaysLimitedNeverSettles(url: string, hitLimit: bool, replies: seq<Reply>)
    requires forall i :: 0 <= i < |replies| ==> replies[i] == Status(TooManyRequests)
    ensures Retry(url, hitLimit, replies).outcome == Exhausted
    ensures Retry(url, hitLimit, replies).remaining == []
    decreases |replies|
  {
    if replies != [] {
      assert forall i :: 0 <= i < |replies| - 1 ==> replies[1..][i] == replies[i + 1];
      AlwaysLimitedNeverSettles(url, true, replies[1..]);
    }
  }

  /** From a clear flag, the answers 429, 429, 200 give two sleeps, one warning of each kind and the body. */
  lemma TwoLimitsThenSuccess(url: string)
    ensures var a := Retry(url, false, [Status(429), Status(429), Status(200)]);
      && a.outcome == Fetched && a.hitLimit && a.remaining == []
      && Count(a.events, Slept(RateLimitDelay)) == 2
      && Count(a.events, WarnedEngaged) == 1
      && Count(a.events, WarnedRepeat) == 1
  {
    var replies := [Status(429), Status(429), Status(200)];
    RetrySettlesAt(url, false, replies, 2);
    RetryCounts(url, false, replies, 2);
  }

  /**
   * A 404 ends the loop at once with an error: a single request, no retry, and a sleep before
   * it only when the flag was already set.
   */
  lemma NotFoundIsFinal(url: string, hitLimit: bool, later: seq<Reply>)
    ensures Retry(url, hitLimit, [Status(404)] + later)
      == Attempts(HttpError(404), hitLimit, later, Pause(hitLimit) + [Requested(url)])
    ensures !hitLimit ==> Retry(url, hitLimit, [Status(404)] + later).events == [Requested(url)]
  {
    assert ([Status(404)] + later)[1..] == later;
  }

  /** `RequestWithRetry`: the retry loop run against the reply script. */
  method RequestWithRetry(url: string, hitLimit: bool, replies: seq<Reply>) returns (a: Attempts)
    ensures a == Retry(url, hitLimit, replies)
  {
    var hit, pending, log := hitLimit, replies, [];
    while true
      invariant Retry(url, hitLimit, replies) == After(log, Retry(url, hit, pending))
      decreases |pending|
    {
      if pending == [] {
        return Attempts(Exhausted, hit, [], log);
      }
      RetryUnfold(url, hit, pending);
      ghost var before, wasHit := log, hit;
      if hit {
        log := log + [Slept(RateLimitDelay)];
      }
      log := log + [Requested(url)];
      assert log == before + (Pause(wasHit) + [Requested(url)]);
      var reply := pending[0];
      pending := pending[1..];
      if reply == Status(TooManyRequests) {
        if hit {
          log := log + [WarnedRepeat];
        } else {
          hit := true;
          log := log + [WarnedEngaged];
        }
        assert log == before + (Pause(wasHit) + [Requested(url)] + [if wasHit then WarnedRepeat else WarnedEngaged]);
        AfterAfter(before, Pause(wasHit) + [Requested(url)] + [if wasHit then WarnedRepeat else WarnedEngaged], Retry(url, hit, pending));
      } else {
        return Attempts(Settle(reply), hit, pending, log);
      }
    }
  }

  /** One turn of the retry loop. */
  lemma RetryUnfold(url: string, hitLimit: bool, replies: seq<Reply>)
    requires replies != []
    ensures replies[0] == Status(TooManyRequests) ==>
      Retry(url, hitLimit, replies) ==
        After(Pause(hitLimit) + [Requested(url)] + [if hitLimit then WarnedRepeat else WarnedEngaged], Retry(url, true, replies[1..]))
    ensures replies[0] != Status(TooManyRequests) ==>
      Retry(url, hitLimit, replies) == Attempts(Settle(replies[0]), hitLimit, replies[1..], Pause(hitLimit) + [Requested(url)])
  {
  }

  lemma AfterAfter(log: seq<Event>, more: seq<Event>, a: Attempts)
    ensures After(log, After(more, a)) == After(log + more, a)
  {
    assert log + (more + a.events) == (log + more) + a.events;
  }

  /** The attempts `a` with `log` recorded before them. */
  function After(log: seq<Event>, a: Attempts): Attempts {
    a.(events := log + a.events)
  }
}
