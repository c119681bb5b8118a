/**
 * The replay descriptor: what a stream record becomes, its canonical filename (the only key
 * that joins remote descriptors to local files) and its download URL.
 */
module Replays {
  import opened Results
  import opened Decimal

  /** The year range of chrono's calendar dates. */
  const MinYear := -262144
  const MaxYear := 262143

  const NanosPerSecond := 1_000_000_000

  /**
   * A UTC instant as calendar fields. As in chrono, a leap second is second 59 with a
   * sub-second part of 10^9 nanoseconds or more.
   */
  datatype Timestamp = Timestamp(year: int, month: nat, day: nat, hour: nat, minute: nat, second: nat, nanos: nat)

  predicate IsLeapYear(y: int) {
    y % 4 == 0 && (y % 100 != 0 || y % 400 == 0)
  }

  function DaysInMonth(y: int, m: nat): nat {
    if m == 2 then (if IsLeapYear(y) then 29 else 28)
    else if m == 4 || m == 6 || m == 9 || m == 11 then 30
    else 31
  }

  /** The instants chrono can represent. */
  predicate ValidTimestamp(t: Timestamp) {
    && MinYear <= t.year <= MaxYear
    && 1 <= t.month <= 12
    && 1 <= t.day <= DaysInMonth(t.year, t.month)
    && t.hour < 24 && t.minute < 60 && t.second < 60
    && t.nanos < 2 * NanosPerSecond
    && (t.nanos >= NanosPerSecond ==> t.second == 59)
  }

  /** A timestamp chrono can produce: the parsed and converted `recorded_at` of a record. */
  type Instant = t: Timestamp | ValidTimestamp(t) witness Timestamp(1970, 1, 1, 0, 0, 0, 0)

  /** The second as `%S` prints it: 60 during a leap second. */
  function DisplaySecond(t: Timestamp): nat {
    t.second + t.nanos / NanosPerSecond
  }

  /** The part of a timestamp the filename keeps: everything down to the (displayed) second. */
  function Truncated(t: Timestamp): seq<int> {
    [t.year, t.month, t.day, t.hour, t.minute, DisplaySecond(t)]
  }

  /** `%Y`: four zero-padded digits for years 0 to 9999, otherwise a sign and at least four digits. */
  function YearText(y: int): (t: string)
    ensures 0 <= y <= 9999 ==> |t| == 4 && AllDigits(t) && Value(t) == y
    ensures y < 0 ==> |t| > 4 && t[0] == '-' && AllDigits(t[1..]) && Value(t[1..]) == -y
    ensures y > 9999 ==> |t| > 4 && t[0] == '+' && AllDigits(t[1..]) && Value(t[1..]) == y
  {
    var magnitude := if y < 0 then -y else y;
    ZeroPadRoundTrip(magnitude, 4);
    if 0 <= y <= 9999 then
      assert Pow10(4) == 10000;
      ZeroPadLength(y, 4);
      ZeroPad(y, 4)
    else
      var sign := if y < 0 then "-" else "+";
      assert (sign + ZeroPad(magnitude, 4))[1..] == ZeroPad(magnitude, 4);
      sign + ZeroPad(magnitude, 4)
  }

  /** The date half of `%Y%m%dT%H%M%SZ`. */
  function DateText(t: Timestamp): string {
    YearText(t.year) + ZeroPad(t.month, 2) + ZeroPad(t.day, 2)
  }

  /** The time-of-day half of `%Y%m%dT%H%M%SZ`. */
  function TimeText(t: Timestamp): string {
    ZeroPad(t.hour, 2) + ZeroPad(t.minute, 2) + ZeroPad(DisplaySecond(t), 2)
  }

  /** The timestamp formatted with `%Y%m%dT%H%M%SZ`. */
  function TimestampText(t: Timestamp): string {
    DateText(t) + "T" + TimeText(t) + "Z"
  }

  datatype Replay = Replay(id: string, isMulti: bool, timestamp: Instant)

  /**
   * A record of a stream answer. `recordedAt` is the outcome of RFC 3339 parsing and
   * conversion to UTC: `None` when the text is rejected.
   */
  datatype Record = Record(replayId: string, isMulti: Option<bool>, recordedAt: Option<Instant>)

  function ExtensionFor(isMulti: bool): string {
    if isMulti then "ttrm" else "ttr"
  }

  /** The filename up to its extension: `{timestamp}-{id}`. */
  function Stem(r: Replay): string {
    TimestampText(r.timestamp) + "-" + r.id
  }

  /** `{timestamp}-{id}.{ttr|ttrm}` */
  function Filename(r: Replay): string {
    Stem(r) + "." + ExtensionFor(r.isMulti)
  }

  const ReplayEndpoint := "https://inoue.szy.lol/api/replay/"

  function Url(r: Replay): (u: string)
    ensures |u| == |ReplayEndpoint| + |r.id|
    ensures u[..|ReplayEndpoint|] == ReplayEndpoint && u[|ReplayEndpoint|..] == r.id
  {
    ReplayEndpoint + r.id
  }

  /** Record to descriptor: the id is copied, a missing multiplayer flag means single player. */
  function FromRecord(rec: Record): (r: Result<Replay>)
    ensures r.Success? <==> rec.recordedAt.Some?
    ensures r.Failure? ==> r.error == TimestampParse
    ensures r.Success? ==>
      && r.value.id == rec.replayId
      && r.value.isMulti == (rec.isMulti == Some(true))
      && r.value.timestamp == rec.recordedAt.value
  {
    match rec.recordedAt
    case None => Failure(TimestampParse)
    case Some(t) =>
      var multi := match rec.isMulti case Some(b) => b case None => false;
      Success(Replay(rec.replayId, multi, t))
  }

  /**
   * The filename ends in a dot and an extension without dots, after a non-empty stem; the
   * extension is "ttrm" exactly for multiplayer replays and "ttr" otherwise.
   */
  lemma FilenameParts(r: Replay)
    ensures |Stem(r)| > 0 && '.' !in ExtensionFor(r.isMulti)
    ensures ExtensionFor(r.isMulti) == "ttrm" <==> r.isMulti
    ensures ExtensionFor(r.isMulti) == "ttr" <==> !r.isMulti
  {
    assert Stem(r)[|TimestampText(r.timestamp)|] == '-';
  }

  /** The three pieces of a concatenation are recovered by slicing at their lengths. */
  lemma Split3(x: string, y: string, z: string)
    ensures var s := x + y + z;
      s[..|x|] == x && s[|x|..|x| + |y|] == y && s[|x| + |y|..] == z
  {
  }

  /** Two concatenations with equally long heads have equal heads and equal tails. */
  lemma SplitEqual(x: string, y: string, x': string, y': string)
    requires |x| == |x'| && x + y == x' + y'
    ensures x == x' && y == y'
  {
    assert x == (x + y)[..|x|] && x' == (x' + y')[..|x|];
    assert y == (x + y)[|x|..] && y' == (x' + y')[|x|..];
  }

  /** Two-digit fields below 100 take exactly two characters and read back to their value. */
  lemma TwoDigits(n: nat)
    requires n < 100
    ensures |ZeroPad(n, 2)| == 2 && Value(ZeroPad(n, 2)) == n
  {
    assert Pow10(2) == 100;
    ZeroPadLength(n, 2);
    ZeroPadRoundTrip(n, 2);
  }

  lemma DateTextDecodes(t: Instant)
    requires 0 <= t.year <= 9999
    ensures var s := DateText(t);
      |s| == 8 && AllDigits(s) && Value(s[..4]) == t.year && Value(s[4..6]) == t.month && Value(s[6..8]) == t.day
  {
    assert Pow10(4) == 10000;
    ZeroPadLength(t.year, 4);
    ZeroPadRoundTrip(t.year, 4);
    TwoDigits(t.month);
    TwoDigits(t.day);
    Split3(ZeroPad(t.year, 4), ZeroPad(t.month, 2), ZeroPad(t.day, 2));
  }

  lemma TimeTextDecodes(t: Instant)
    ensures var s := TimeText(t);
      |s| == 6 && AllDigits(s) && Value(s[..2]) == t.hour && Value(s[2..4]) == t.minute && Value(s[4..]) == DisplaySecond(t)
  {
    TwoDigits(t.hour);
    TwoDigits(t.minute);
    TwoDigits(DisplaySecond(t));
    Split3(ZeroPad(t.hour, 2), ZeroPad(t.minute, 2), ZeroPad(DisplaySecond(t), 2));
  }

  /**
   * For years 0 to 9999 the timestamp text is 16 characters: eight digits of date, 'T', six
   * digits of time, 'Z'.
   */
  lemma TimestampTextShape(t: Instant)
    requires 0 <= t.year <= 9999
    ensures var s := TimestampText(t);
      && |s| == 16 && s[8] == 'T' && s[15] == 'Z'
      && s[..8] == DateText(t) && s[9..15] == TimeText(t)
      && AllDigits(s[..8]) && AllDigits(s[9..15])
  {
    DateTextDecodes(t);
    TimeTextDecodes(t);
    Split3(DateText(t), "T", TimeText(t));
  }

  /** For years 0 to 9999 equal timestamp texts mean equal timestamps, down to the second. */
  lemma TimestampTextInjective(s: Instant, t: Instant)
    requires 0 <= s.year <= 9999
    requires 0 <= t.year <= 9999
    requires TimestampText(s) == TimestampText(t)
    ensures Truncated(s) == Truncated(t)
  {
    TimestampTextShape(s);
    TimestampTextShape(t);
    DateTextDecodes(s);
    DateTextDecodes(t);
    TimeTextDecodes(s);
    TimeTextDecodes(t);
  }

  /** The timestamp text depends on the timestamp only down to the second. */
  lemma TimestampTextOfTruncated(s: Timestamp, t: Timestamp)
    requires Truncated(s) == Truncated(t)
    ensures TimestampText(s) == TimestampText(t)
  {
    assert s.year == Truncated(s)[0] && s.month == Truncated(s)[1] && s.day == Truncated(s)[2];
    assert s.hour == Truncated(s)[3] && s.minute == Truncated(s)[4] && DisplaySecond(s) == Truncated(s)[5];
    assert DateText(s) == DateText(t) && TimeText(s) == TimeText(t);
  }

  /** For years 0 to 9999 a filename determines id, multiplayer flag and timestamp down to the second. */
  lemma FilenameDetermines(a: Replay, b: Replay)
    requires 0 <= a.timestamp.year <= 9999
    requires 0 <= b.timestamp.year <= 9999
    requires Filename(a) == Filename(b)
    ensures a.id == b.id && a.isMulti == b.isMulti && Truncated(a.timestamp) == Truncated(b.timestamp)
  {
    var ea, eb := ExtensionFor(a.isMulti), ExtensionFor(b.isMulti);
    var fa, fb := Filename(a), Filename(b);
    assert fa[|fa| - 1] == ea[|ea| - 1] && fb[|fb| - 1] == eb[|eb| - 1];
    assert a.isMulti == b.isMulti;
    SplitEqual(Stem(a) + ".", ea, Stem(b) + ".", eb);
    SplitEqual(Stem(a), ".", Stem(b), ".");
    var ta, tb := TimestampText(a.timestamp), TimestampText(b.timestamp);
    TimestampTextShape(a.timestamp);
    TimestampTextShape(b.timestamp);
    SplitEqual(ta + "-", a.id, tb + "-", b.id);
    SplitEqual(ta, "-", tb, "-");
    TimestampTextInjective(a.timestamp, b.timestamp);
  }

  /**
   * For years 0 to 9999 two replays share a filename exactly when they agree on id,
   * multiplayer flag and the timestamp truncated to the second.
   */
  lemma FilenameInjective(a: Replay, b: Replay)
    requires 0 <= a.timestamp.year <= 9999
    requires 0 <= b.timestamp.year <= 9999
    ensures Filename(a) == Filename(b)
      <==> a.id == b.id && a.isMulti == b.isMulti && Truncated(a.timestamp) == Truncated(b.timestamp)
  {
    if Filename(a) == Filename(b) {
      FilenameDetermines(a, b);
    } else if a.id == b.id && a.isMulti == b.isMulti && Truncated(a.timestamp) == Truncated(b.timestamp) {
      TimestampTextOfTruncated(a.timestamp, b.timestamp);
    }
  }

  /** The sub-second part never reaches the filename: distinct replays can share one. */
  lemma SubSecondNotDistinguished(r: Replay, nanos: nat)
    requires r.timestamp.nanos < NanosPerSecond && nanos < NanosPerSecond
    ensures var r' := r.(timestamp := r.timestamp.(nanos := nanos));
      Filename(r') == Filename(r) && (nanos != r.timestamp.nanos ==> r' != r)
  {
    var r' := r.(timestamp := r.timestamp.(nanos := nanos));
    assert Truncated(r'.timestamp) == Truncated(r.timestamp);
    TimestampTextOfTruncated(r'.timestamp, r.timestamp);
  }

  /** Distinct ids give distinct URLs. */
  lemma UrlInjective(a: Replay, b: Replay)
    ensures Url(a) == Url(b) <==> a.id == b.id
  {
    if Url(a) == Url(b) {
      assert a.id == Url(a)[|ReplayEndpoint|..];
    }
  }

  lemma YearExample()
    ensures YearText(2023) == "2023"
  {
    assert Digits(2023) == Digits(202) + ['3'];
    assert Digits(202) == Digits(20) + ['2'];
    assert Digits(20) == Digits(2) + ['0'];
  }

  lemma DateExample()
    ensures DateText(Timestamp(2023, 5, 1, 12, 30, 0, 0)) == "20230501"
  {
    YearExample();
    assert ZeroPad(5, 2) == "05" && ZeroPad(1, 2) == "01";
  }

  lemma TimeExample()
    ensures TimeText(Timestamp(2023, 5, 1, 12, 30, 0, 0)) == "123000"
  {
    assert ZeroPad(12, 2) == "12" && ZeroPad(30, 2) == "30" && ZeroPad(0, 2) == "00";
  }

  lemma TimestampExample()
    ensures TimestampText(Timestamp(2023, 5, 1, 12, 30, 0, 0)) == "20230501T123000Z"
  {
    DateExample();
    TimeExample();
  }

  /** 2023-05-01T12:30:00Z, "abc123". */
  lemma FilenameExample()
    ensures Filename(Replay("abc123", false, Timestamp(2023, 5, 1, 12, 30, 0, 0))) == "20230501T123000Z-abc123.ttr"
    ensures Filename(Replay("abc123", true, Timestamp(2023, 5, 1, 12, 30, 0, 0))) == "20230501T123000Z-abc123.ttrm"
  {
    TimestampExample();
  }
}
