/**
 * The stream fetcher: one answer per named stream, all-or-nothing, then conversion of every
 * record and first-occurrence deduplication of the resulting replays.
 */
module Streams {
  import opened Results
  import opened Replays
  import opened Seqs

  /** HTTP status codes as reqwest represents them. */
  type StatusCode = s: int | 100 <= s <= 999 witness 200

  /** `error_for_status`: only client (4xx) and server (5xx) errors are errors. */
  predicate IsErrorStatus(s: StatusCode) {
    400 <= s <= 599
  }

  datatype StreamData = StreamData(records: seq<Record>)

  /** A decoded stream answer; `data` is absent in some answers. */
  datatype StreamResponse = StreamResponse(data: Option<StreamData>)

  /**
   * What the metadata service does with a request for one stream: no answer at all, or an
   * answer whose body decodes (`Some`) or does not (`None`).
   */
  datatype StreamReply =
    | Unreachable
    | Answered(status: StatusCode, body: Option<StreamResponse>)

  /** `fetch_stream`: the records of one stream, or why there are none. */
  function FetchStream(stream: string, reply: StreamReply): (r: Result<seq<Record>>)
    ensures r.Failure? ==> r.error == StreamFetch(stream) || r.error == StreamDataMissing(stream)
    ensures r.Failure? && r.error == StreamDataMissing(stream)
      <==> reply.Answered? && !IsErrorStatus(reply.status) && reply.body.Some? && reply.body.value.data.None?
    ensures r.Success? <==>
      reply.Answered? && !IsErrorStatus(reply.status) && reply.body.Some? && reply.body.value.data.Some?
    ensures r.Success? ==> r.value == reply.body.value.data.value.records
  {
    match reply
    case Unreachable => Failure(StreamFetch(stream))
    case Answered(status, body) =>
      if IsErrorStatus(status) then Failure(StreamFetch(stream))
      else match body
        case None => Failure(StreamFetch(stream))
        case Some(response) =>
          match response.data
          case None => Failure(StreamDataMissing(stream))
          case Some(data) => Success(data.records)
  }

  /** Every stream fetched successfully. */
  predicate AllFetched(streams: seq<string>, service: string -> StreamReply) {
    forall i :: 0 <= i < |streams| ==> FetchStream(streams[i], service(streams[i])).Success?
  }

  /**
   * `try_join_all` over the streams followed by `concat`: the records of all streams in stream
   * order, or a failure as soon as one stream fails.
   */
  function FetchAll(streams: seq<string>, service: string -> StreamReply): (r: Result<seq<Record>>)
    ensures r.Success? <==> AllFetched(streams, service)
    ensures r.Failure? ==> exists i :: 0 <= i < |streams| && FetchStream(streams[i], service(streams[i])) == Failure(r.error)
  {
    if streams == [] then Success([])
    else
      var first := FetchStream(streams[0], service(streams[0]));
      var rest := FetchAll(streams[1..], service);
      assert forall i :: 1 <= i < |streams| ==> streams[i] == streams[1..][i - 1];
      if first.Failure? then Failure(first.error)
      else if rest.Failure? then
        var j :| 0 <= j < |streams[1..]| && FetchStream(streams[1..][j], service(streams[1..][j])) == Failure(rest.error);
        assert streams[j + 1] == streams[1..][j];
        Failure(rest.error)
      else Success(first.value + rest.value)
  }

  /**
   * The concatenation holds the records of the fetched streams and nothing else: every record
   * of stream `i` is in it, and every record in it comes from some stream.
   */
  lemma {:induction false} FetchAllContains(streams: seq<string>, service: string -> StreamReply, i: nat)
    requires i < |streams| && FetchAll(streams, service).Success?
    ensures var recs := FetchStream(streams[i], service(streams[i])).value;
      forall rec :: rec in recs ==> rec in FetchAll(streams, service).value
    ensures forall rec :: rec in FetchAll(streams, service).value ==>
      exists j :: 0 <= j < |streams| && rec in FetchStream(streams[j], service(streams[j])).value
  {
    if i > 0 {
      FetchAllContains(streams[1..], service, i - 1);
      assert streams[1..][i - 1] == streams[i];
    } else if |streams| > 1 {
      FetchAllContains(streams[1..], service, 0);
    }
    forall rec | rec in FetchAll(streams, service).value
      ensures exists j :: 0 <= j < |streams| && rec in FetchStream(streams[j], service(streams[j])).value
    {
      if rec !in FetchStream(streams[0], service(streams[0])).value {
        var j :| 0 <= j < |streams[1..]| && rec in FetchStream(streams[1..][j], service(streams[1..][j])).value;
        assert streams[1..][j] == streams[j + 1];
      }
    }
  }

  /**
   * The concatenation keeps stream order: the records of stream `i` come right after those of
   * the streams before it and right before those of the streams after it.
   */
  lemma {:induction false} FetchAllInOrder(streams: seq<string>, service: string -> StreamReply, i: nat)
    requires i < |streams| && FetchAll(streams, service).Success?
    ensures FetchAll(streams[..i], service).Success? && FetchAll(streams[i + 1..], service).Success?
    ensures FetchAll(streams, service).value
      == FetchAll(streams[..i], service).value
         + FetchStream(streams[i], service(streams[i])).value
         + FetchAll(streams[i + 1..], service).value
  {
    assert forall j :: 0 <= j < i ==> streams[..i][j] == streams[j];
    var after := streams[i + 1..];
    assert forall j :: 0 <= j < |after| ==> after[j] == streams[i + 1 + j];
    var first := FetchStream(streams[0], service(streams[0]));
    if i == 0 {
      assert streams[..0] == [];
      assert streams[1..] == streams[i + 1..];
    } else {
      var tail := streams[1..];
      FetchAllInOrder(tail, service, i - 1);
      assert tail[i - 1] == streams[i] && tail[i..] == streams[i + 1..];
      assert streams[..i][1..] == tail[..i - 1];
      assert streams[..i][0] == streams[0];
      var before := FetchAll(tail[..i - 1], service).value;
      assert FetchAll(streams[..i], service).value == first.value + before;
    }
  }

  /** `map(Replay::try_from).try_collect()`: every record converted, or the first conversion failure. */
  function ConvertAll(records: seq<Record>): (r: Result<seq<Replay>>)
    ensures r.Success? <==> forall i :: 0 <= i < |records| ==> records[i].recordedAt.Some?
    ensures r.Failure? ==> r.error == TimestampParse
    ensures r.Success? ==>
      && |r.value| == |records|
      && forall i :: 0 <= i < |records| ==> Success(r.value[i]) == FromRecord(records[i])
  {
    if records == [] then Success([])
    else
      var first := FromRecord(records[0]);
      var rest := ConvertAll(records[1..]);
      assert forall i :: 1 <= i < |records| ==> records[i] == records[1..][i - 1];
      if first.Failure? then Failure(first.error)
      else if rest.Failure? then Failure(rest.error)
      else Success([first.value] + rest.value)
  }

  /** The deduplicated replays of all streams, or the run's first fatal error. */
  function GatherReplays(streams: seq<string>, service: string -> StreamReply): (r: Result<seq<Replay>>)
    ensures r.Success? ==> NoDuplicates(r.value)
    ensures r.Success? <==> FetchAll(streams, service).Success? && ConvertAll(FetchAll(streams, service).value).Success?
    ensures r.Success? ==> forall x :: x in r.value <==> x in ConvertAll(FetchAll(streams, service).value).value
  {
    match FetchAll(streams, service)
    case Failure(e) => Failure(e)
    case Success(records) =>
      match ConvertAll(records)
      case Failure(e) => Failure(e)
      case Success(replays) => Success(Unique(replays))
  }

  /** A record reported by two streams yields one replay. */
  lemma DuplicateRecordKeptOnce(rec: Record, service: string -> StreamReply, a: string, b: string)
    requires rec.recordedAt.Some?
    requires service(a) == Answered(200, Some(StreamResponse(Some(StreamData([rec])))))
    requires service(b) == Answered(200, Some(StreamResponse(Some(StreamData([rec])))))
    ensures GatherReplays([a, b], service) == Success([FromRecord(rec).value])
  {
    var s := [a, b];
    assert FetchStream(s[0], service(s[0])) == Success([rec]);
    assert FetchStream(s[1..][0], service(s[1..][0])) == Success([rec]);
    assert FetchAll(s[1..][1..], service) == Success([]);
    assert FetchAll(s[1..], service) == Success([rec] + []);
    assert FetchAll(s, service) == Success([rec] + ([rec] + []));
    assert [rec] + ([rec] + []) == [rec, rec];
    var v := FromRecord(rec).value;
    var recs := [rec, rec];
    assert ConvertAll(recs[1..][1..]) == Success([]);
    assert ConvertAll(recs[1..]) == Success([v] + []);
    assert ConvertAll(recs) == Success([v] + ([v] + []));
    var vs := [v] + ([v] + []);
    assert vs[..1][..0] == [];
    assert Unique(vs[..1]) == [v];
    assert vs[1] in Unique(vs[..1]);
    assert Unique(vs) == [v];
    assert recs == [rec, rec];
  }

  /** An answer without `data` fails the run; an empty record list does not. */
  lemma MissingDataDetected(stream: string)
    ensures FetchStream(stream, Answered(200, Some(StreamResponse(None)))) == Failure(StreamDataMissing(stream))
    ensures FetchStream(stream, Answered(200, Some(StreamResponse(Some(StreamData([])))))) == Success([])
  {
  }
}
