/** Failure-carrying values shared by every component of the synchronisation engine. */
module Results {

  datatype Option<+T> = None | Some(value: T)

  datatype Result<+T> = Success(value: T) | Failure(error: Error)

  /** The fatal errors a synchronisation run can stop with (every one aborts the run). */
  datatype Error =
    | StreamFetch(stream: string)        // transport failure, 4xx/5xx status or undecodable body
    | StreamDataMissing(stream: string)  // a decodable stream answer without its `data` field
    | TimestampParse                     // a record whose `recordedAt` is not RFC 3339
    | DownloadHttp(id: string, status: int)
    | DownloadTransport(id: string)
}
