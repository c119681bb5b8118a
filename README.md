# ttrchive sync engine, modelled in Dafny

ttrchive keeps a local directory of TETR.IO replay files in step with one or more
leaderboard streams. One run:

1. fetches every named stream and concatenates their records;
2. turns each record into a replay descriptor (id, multiplayer flag, UTC timestamp);
3. drops duplicate descriptors, keeping first occurrences;
4. creates the target directory if it is absent;
5. computes the target path `{timestamp}-{id}.{ttr|ttrm}` of every replay;
6. downloads, one at a time, the replays whose target path does not exist yet. A 429 answer is
   retried. From the first 429 on, every later request of the run is preceded by a
   five-second sleep;
7. lists the directory's `ttr`/`ttrm` files;
8. with `--remove`, deletes the files no replay wants.

The model follows `src/main.rs` component by component:

- `Results`: the option, result and error types.
- `Decimal`: digits and zero padding, as `chrono`'s `%Y%m%dT%H%M%SZ` prints them.
- `Replays`: the `Replay` descriptor, `filename`, `url` and the conversion from a record.
  Timestamps are the `Instant` subset type: only calendar instants chrono can represent.
- `Paths`: `join`, `file_name` and `extension` of Rust's `Path`.
- `Streams`: `fetch_stream`, the all-or-nothing gathering over streams, and deduplication.
- `Seqs`: first-occurrence deduplication (`unique`) and filtering.
- `Reconcile`: `to_keep`, `to_download`, `existing` and `to_remove`.
- `Backoff`: the 429 retry loop with its `hit_limit` flag.
- `Download`: the sequential download loop.
- `Directory`: the target directory, as a class whose entries change in place.
- `Sync`: the whole run and its idempotence.

The world around the engine is given as parameters:

- The streams service is a function from stream name to reply.
- The replay server is a script of replies, consumed one per request.
- Sleeps, requests, warnings and writes are recorded as events, in order.

The loops of the source are methods, each proved equal to a specification function:
`Backoff.RequestWithRetry`, `Download.DownloadMissing`, `Sync.CollectExisting`,
`Sync.RemoveAll` and `Sync.Run`. The properties are proved about those functions.

Where the code and its design description differ, the model follows the code:

- `error_for_status` treats only statuses 400 to 599 as errors, not every status outside 2xx.
  A 3xx or 1xx answer therefore counts as fetched.
- `read_dir` lists every entry. A directory whose name ends in `.ttr` or `.ttrm` counts as a
  replay file.
- Nothing requires a replay id to be non-empty or free of `/`.

## Model

| member | source | states |
|---|---|---|
| Replays.FromRecord | src/main.rs:66-75 | conversion succeeds exactly when the timestamp parses, and otherwise fails with a parse error; the id is copied; the multiplayer flag is true only for an explicit `true` (a missing flag means single player); the timestamp is kept |
| Replays.Url | src/main.rs:61-63 | the URL is the replay endpoint followed by exactly the id |
| Replays.UrlInjective | src/main.rs:61-63 | two replays share a URL exactly when they share an id |
| Replays.FilenameParts | src/main.rs:55-59 | the filename has a non-empty stem and a dot-free extension; the extension is `ttrm` exactly for multiplayer replays and `ttr` exactly for the others |
| Replays.TimestampTextShape | src/main.rs:57 | for years 0 to 9999, `%Y%m%dT%H%M%SZ` is 16 characters: 8 date digits, `T`, 6 time digits and `Z` |
| Replays.TimestampTextInjective | src/main.rs:57 | for years 0 to 9999, equal timestamp texts mean equal timestamps down to the displayed second |
| Replays.FilenameInjective | src/main.rs:55-59 | for years 0 to 9999, two replays share a filename if and only if they agree on id, multiplayer flag and timestamp to the second |
| Replays.SubSecondNotDistinguished | src/main.rs:47-59 | replays that differ only below the second are distinct descriptors, yet they share a filename |
| Replays.Filename | src/main.rs:55-59 | no contract of its own: `FilenameParts`, `FilenameInjective` and `FilenameExample` state what the name is and that it identifies the replay |
| Replays.YearText | src/main.rs:57 | `%Y`: for years 0 to 9999, four digits that read back to the year; otherwise a sign (`-` or `+`) followed by digits that read back to the year's magnitude |
| Replays.TimestampText | src/main.rs:57 | no contract of its own: `TimestampTextShape`, `TimestampTextInjective` and `Replays.TimestampExample` state its layout and what it determines |
| Replays.TimestampExample | src/main.rs:57 | 2023-05-01T12:30:00Z is printed `20230501T123000Z` |
| Replays.FilenameExample | src/main.rs:55-59 | a replay "abc123" recorded 2023-05-01T12:30:00Z is named `20230501T123000Z-abc123.ttr` when single player and `.ttrm` when multiplayer |
| Decimal.ZeroPadRoundTrip | src/main.rs:57 | reading back a zero-padded field gives the number that was printed |
| Decimal.ZeroPadLength | src/main.rs:57 | a number below 10^w is padded to exactly w characters |
| Decimal.ZeroPadInjective | src/main.rs:57 | distinct numbers padded to the same width give distinct texts |
| Paths.LastIndexOf | src/main.rs:157 | the position found holds the character, and no later position does; none is found exactly when the character is absent |
| Paths.Join | src/main.rs:111 | the joined path ends with the name, and an absolute name replaces the directory |
| Paths.KeepPath | src/main.rs:111 | the target path ends with the replay's filename |
| Paths.FileName | src/main.rs:156-157 | no contract of its own: `FileNameIsLastComponent` and `FileNameOfJoin` state that it is the tail after the last separator |
| Paths.Extension | src/main.rs:157 | no contract of its own: `ExtensionIsSuffix` and `ExtensionOfDotted` state that it is the dot-free tail after the last dot, and when there is none |
| Paths.FileNameIsLastComponent | src/main.rs:156-157 | the file name of a path is a separator-free suffix that is either the whole path or preceded by a separator, that is, its tail after the last separator; a path without separators is its own file name |
| Paths.ExtensionIsSuffix | src/main.rs:157 | an extension is the dot-free tail after the name's last dot, with at least one character before that dot; a name without a dot has none |
| Paths.IsReplayFile | src/main.rs:157-158 | no contract of its own: `Reconcile.Existing`, `Reconcile.ExistingExample` and `Paths.KeepPathIsReplayFile` state which entries pass |
| Paths.ExtensionOfDotted | src/main.rs:157 | a name made of a non-empty stem, a dot and a dot-free extension has exactly that extension |
| Paths.FileNameOfJoin | src/main.rs:111 | joining a separator-free name to a directory gives a path whose file name is that name |
| Paths.KeepPathIsReplayFile | src/main.rs:109-112 | when the id has no `/`, the target path's last component is the filename, its extension is `ttr`/`ttrm` according to the multiplayer flag, and the pruner sees it as a replay file |
| Streams.FetchStream | src/main.rs:34-45 | the records are returned exactly when the stream answers with a non-error status, a decodable body and present `data`; an absent `data` gives the "missing stream data" error; every other case gives a fetch error |
| Streams.MissingDataDetected | src/main.rs:42 | an answer without `data` fails the run, while an empty record list is a success |
| Streams.FetchAll | src/main.rs:92-98 | gathering succeeds exactly when every stream is fetched; a failure is the failure of one of the streams |
| Streams.FetchAllContains | src/main.rs:92-98 | every record of every fetched stream is in the concatenation, and every record in it comes from one of the streams |
| Streams.FetchAllInOrder | src/main.rs:92-98 | the concatenation is the records of the streams before stream i, then those of stream i, then those of the streams after it |
| Streams.ConvertAll | src/main.rs:99-101 | conversion succeeds exactly when every record's timestamp parses, and then the i-th replay is the conversion of the i-th record |
| Streams.GatherReplays | src/main.rs:92-102 | the gathered replays have no duplicates and are exactly the converted records; gathering fails exactly when fetching or conversion fails |
| Streams.DuplicateRecordKeptOnce | src/main.rs:102 | a record reported by two streams yields a single replay |
| Seqs.Filter | src/main.rs:114-121 | the kept elements are exactly the input's elements that pass, and there are no more of them than input elements |
| Seqs.FilterIsSubsequence | src/main.rs:114-121 | filtering keeps the input's relative order |
| Seqs.Unique | src/main.rs:102 | the result has no duplicates and has exactly the input's members |
| Seqs.UniqueIsSubsequence | src/main.rs:102 | deduplication keeps the input's relative order |
| Seqs.UniqueFirstOccurrenceOrder | src/main.rs:102 | values come out in the order of their first occurrence in the input |
| Seqs.UniqueOfDistinct | src/main.rs:102 | a list without duplicates comes out unchanged |
| Reconcile.ToKeep | src/main.rs:109-112 | one target path per replay, in replay order; every replay's target path is kept |
| Reconcile.ToDownload | src/main.rs:114-121 | a replay is downloaded if and only if it is gathered and its target path is absent |
| Reconcile.ToDownloadOrdered | src/main.rs:114-121 | the replays to download keep their relative order and have no duplicates when the gathered replays have none |
| Reconcile.Existing | src/main.rs:153-162 | an entry is collected if and only if it is listed and its extension is exactly `ttr` or `ttrm` |
| Reconcile.ToRemove | src/main.rs:164-168 | a path is stale if and only if it was collected and is not a target path |
| Reconcile.PruneIsSafe | src/main.rs:153-170 | pruning removes only listed replay files that are not target paths, in listing order |
| Reconcile.NothingMissing | src/main.rs:114-121 | once every target path exists, nothing is left to download |
| Reconcile.NothingStale | src/main.rs:153-170 | once every replay file is a target path, nothing is left to remove |
| Reconcile.DownloadExample | src/main.rs:114-121 | wanted {A, B} with A present: only B is downloaded |
| Reconcile.ExistingExample | src/main.rs:153-162 | the listing `./a.ttr`, `./c.ttrm`, `./D.txt` yields `./a.ttr` and `./c.ttrm`: the `txt` file is skipped because of its extension |
| Reconcile.ExistingOfThree | src/main.rs:153-162 | of three listed entries, the two replay files are collected in listing order and the other entry is not |
| Reconcile.RemoveExample | src/main.rs:164-168 | of A and C, with A and B wanted, only C is removed |
| Backoff.Settle | src/main.rs:135-144 | a reply other than 429 ends the attempts: a non-error status is fetched, a 4xx/5xx status is an HTTP error carrying that status, and a failed send is a transport error |
| Backoff.Retry | src/main.rs:131-146 | once the flag is set, the retry loop never clears it |
| Backoff.RetryConsumesInOrder | src/main.rs:131-146 | the loop consumes replies in order: what is left is a suffix of the script; it makes exactly one request per consumed reply; a loop that ends with an answer consumed at least one |
| Backoff.RetrySettlesAt | src/main.rs:131-146 | with k answers 429 before the first other reply, the loop ends with that reply's outcome, leaves the replies after it, and the flag is set when it was set before or k > 0 |
| Backoff.RetryCounts | src/main.rs:131-146 | with k answers 429 first: k+1 requests; k five-second sleeps, plus one when the flag was already set; one "adding a 5 second delay" warning if the flag was clear and k > 0; "returned 429" warnings for the remaining 429s |
| Backoff.RetryPaced | src/main.rs:131-146 | a request is preceded by a five-second sleep exactly while the flag is set; the flag is set only by the engaging warning; it ends set exactly when it was set or the loop engaged it |
| Backoff.AlwaysLimitedNeverSettles | src/main.rs:131-146 | a server that answers only 429 never lets the loop end with an answer |
| Backoff.TwoLimitsThenSuccess | src/main.rs:131-146 | from a clear flag, the answers 429, 429, 200 give the body after two sleeps and one warning of each kind |
| Backoff.NotFoundIsFinal | src/main.rs:131-144 | whatever the flag, a 404 ends the loop at once with that status and the flag unchanged, after a single request, preceded by a sleep only when the flag was set; from a clear flag the request is the only event |
| Backoff.RequestWithRetry | src/main.rs:131-146 | the loop over the reply script computes exactly what the retry specification describes |
| Download.Abort | src/main.rs:135-144 | an HTTP or transport failure fails the run with an error naming the replay's id (and the status) |
| Download.DownloadAll | src/main.rs:123-151 | the flag is never cleared and no file disappears during the download loop |
| Download.DownloadWritesWanted | src/main.rs:123-151 | the loop writes only target paths of the replays to download; when it ends well it has written every one of them |
| Download.DownloadPaced | src/main.rs:123-151 | over the whole run a request is preceded by a sleep exactly while the flag is set, and the flag persists from one replay to the next |
| Download.DownloadFlag | src/main.rs:124-146 | the flag ends set exactly when it started set or some 429 engaged it |
| Download.FailureStops | src/main.rs:123-151 | a failure stops the loop at some replay: every replay before it was written, its request is the last event, and the error names its id |
| Download.RerunDownloadsNothing | src/main.rs:114-151 | after a download loop that ends well, every gathered replay is present, so a new computation of the replays to download is empty |
| Download.NotFoundAborts | src/main.rs:123-151 | a 404 for the first replay fails the run: nothing written, and the second replay never requested |
| Download.DownloadOne | src/main.rs:126-150 | one replay: the attempts are those of the retry specification, and the target path is written exactly when the body was fetched |
| Download.DownloadMissing | src/main.rs:123-151 | the loop over the replays to download computes the download specification, and the directory then holds exactly its files |
| Directory.ReplayDirectory.constructor | src/main.rs:104 | a directory starts with its path, existence and entries as given |
| Directory.ReplayDirectory.CreateDir | src/main.rs:105-107 | an absent directory is created, and it is empty |
| Directory.ReplayDirectory.Write | src/main.rs:148-149 | writing a file into the existing directory adds its path and keeps all other entries |
| Directory.ReplayDirectory.RemoveFile | src/main.rs:170 | removing a listed file deletes its path, keeps all other entries, and leaves the directory existing |
| Directory.ReplayDirectory.ReadDir | src/main.rs:154-155 | the listing holds every entry exactly once and nothing else |
| Sync.SyncRun | src/main.rs:78-174 | no contract of its own: `SyncKeepsWanted`, `SyncTouchesOnlyItsOwn` and `SyncIdempotent` state what a run does; `Sync.Run` is proved equal to it |
| Sync.Pruned | src/main.rs:164-171 | no contract of its own: `RemovingStaleLeavesPruned` proves it is what the removal loop leaves, and `PrunedTwice` that pruning again changes nothing |
| Sync.CollectExisting | src/main.rs:153-162 | the `while let` loop computes exactly the collected replay files |
| Sync.RemoveAll | src/main.rs:170 | removing the stale files deletes exactly them from the directory |
| Sync.RemovingStaleLeavesPruned | src/main.rs:153-171 | removing the stale files from a full listing leaves every non-replay entry and every wanted replay file, and nothing else |
| Sync.SyncKeepsWanted | src/main.rs:78-174 | a run that ends well gathered its replays, leaves every target path in the directory, and leaves nothing to download |
| Sync.SyncTouchesOnlyItsOwn | src/main.rs:78-174 | a run adds only target paths of the gathered replays; it removes only replay files no replay wants, and only when removal was asked for and every download succeeded |
| Sync.PrunedTwice | src/main.rs:164-171 | pruning a pruned directory removes nothing more |
| Sync.SyncIdempotent | src/main.rs:78-174 | after a run that ended well, a second run with the same streams ends well, changes nothing and sends no replay request, whatever the server would answer |
| Sync.Run | src/main.rs:78-174 | the run against the directory ends as the run specification says and leaves the entries it describes; once the replays are gathered the directory exists |

## Left out

- Networking is not modelled: reqwest, TLS, JSON decoding and the user agent string
  (`USER_AGENT`). A stream answer is given as status, decoded body or none, and a replay request as status or transport failure.
- Command-line parsing and logging setup are not modelled; the directory, `--remove` and the streams are parameters.
  The 429 warnings are recorded as events.
- Sleeps are not real: each one is a `Slept(5)` event, carrying the `RateLimitDelay` of 5 seconds.
- RFC 3339 parsing is not modelled: a record carries its timestamp already parsed, or none when parsing would fail.
- The contents of the replay files are not modelled, nor failures while reading the response body.
- I/O errors of `try_exists`, `create_dir`, `File::create`, `write_all`, `read_dir` and
  `remove_file` are left out; these calls always succeed in the model.
- Concurrency in `try_join_all` is not modelled: streams and removals run one after the
  other. When several streams fail, the model reports the first in stream order, while
  the real engine reports whichever fails first in time.
- The existence checks read the entries as they are after the directory step. A race with other processes writing the directory is not modelled.
- The order of `read_dir` is unspecified; `ReadDir` picks an arbitrary order, so the listing is fixed only up to order.
- Paths are compared as strings. Rust's `PathBuf` compares by components, so it also
  equates `a//b` with `a/b`; the engine's own paths never differ that way.
- The reply script can run out, which the real server cannot do. The model then ends the
  loop with `Exhausted` and the run with `OutOfReplies`. The `Exhausted` state stands for
  the unbounded case where the server keeps answering 429.
- Paths.KeepPathIsReplayFile: requires an id without `/`, because with one the target path names a nested file.
- Replays.FilenameInjective: holds only for years 0 to 9999. Outside them `%Y` has a sign and a variable width.
- Replays.TimestampTextShape: holds only for years 0 to 9999, for the same reason.
- Backoff.Retry: its own contract states only that the flag is never cleared; what it computes is stated by the lemmas beside it.
- Download.DownloadAll: its own contract states only flag and file monotonicity; what it computes is stated by the lemmas beside it.
- Replays.Filename: has no contract of its own; the lemmas named in its row state its meaning.
- Replays.TimestampText: has no contract of its own; the lemmas named in its row state its meaning.
- Paths.FileName: has no contract of its own; the lemmas named in its row state its meaning.
- Paths.Extension: has no contract of its own; the lemmas named in its row state its meaning.
- Paths.IsReplayFile: has no contract of its own; the members named in its row state its meaning.
- Sync.SyncRun: has no contract of its own; the lemmas named in its row state its meaning.
- Sync.Pruned: has no contract of its own; the lemmas named in its row state its meaning.
- A directory entry whose name ends in `.ttr` or `.ttrm` is collected like a file. With
  `--remove`, `fs::remove_file` on such a stale directory always fails and aborts the run.
  The model has no distinction between files and directories, so `Sync.Run` removes that
  entry and ends `Done`.
