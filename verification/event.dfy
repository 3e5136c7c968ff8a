/**
 * The event vocabulary shared by the store and its callers: versions,
 * persisted envelopes, read selections, the optimistic-concurrency
 * expectation given to `append` and the conflict it can report.
 */
module Event {

  /** A per-stream position; 0 means the stream is absent or empty. */
  type Version = nat

  /** A raw event stamped with the stream it belongs to and its position in it. */
  datatype Persisted<Id, Evt> = Persisted(streamId: Id, version: Version, inner: Evt)

  /** Which part of a stream a read returns. */
  datatype VersionSelect = All | From(from: Version)

  /** What the caller claims about the stream's current last version. */
  datatype StreamVersionExpected = Any | Exact(expected: Version)

  /** The error `append` returns when an `Exact` claim does not hold. */
  datatype ConflictError = ConflictError(expected: Version, actual: Version)
}
