/**
 * The two scenarios of the in-memory store's own tests, on a fresh store
 * whose ids are strings rendered as themselves.
 */
module StoreTests {
  import opened Results
  import opened Event
  import opened Store

  /**
   * Appending three events with `Exact(0)` to an empty store returns
   * version 3, and reading the stream back gives them stamped 1, 2, 3.
   */
  method ItWorks() returns (version: Result<Version, ConflictError>, read: seq<Persisted<string, string>>)
    ensures version == Ok(3)
    ensures read == [Persisted("stream:test", 1, "event-1"),
                     Persisted("stream:test", 2, "event-2"),
                     Persisted("stream:test", 3, "event-3")]
  {
    var store := new InMemoryEventStore<string, string>(s => s);
    var events := ["event-1", "event-2", "event-3"];
    version := store.Append("stream:test", Exact(0), events);
    read := store.Stream("stream:test", All);
    assert read == Stamp("stream:test", 0, events);
  }

  /**
   * Appending with `Exact(3)` to an empty store fails with
   * `ConflictError(3, 0)`, and the stream stays empty.
   */
  method VersionConflictChecksWorkAsExpected() returns (result: Result<Version, ConflictError>, read: seq<Persisted<string, string>>)
    ensures result == Err(ConflictError(3, 0))
    ensures read == []
  {
    var store := new InMemoryEventStore<string, string>(s => s);
    result := store.Append("stream:test", Exact(3), ["event-1", "event-2", "event-3"]);
    read := store.Stream("stream:test", All);
  }

  /**
   * Two successive appends to one stream: the second, expecting the version
   * the first returned, succeeds and continues the numbering; a retry of the
   * first append with its stale expectation conflicts.
   */
  method SuccessiveAppends() returns (first: Result<Version, ConflictError>, second: Result<Version, ConflictError>,
                                      stale: Result<Version, ConflictError>, tail: seq<Persisted<string, string>>)
    ensures first == Ok(2) && second == Ok(3)
    ensures stale == Err(ConflictError(0, 3))
    ensures tail == [Persisted("stream:test", 3, "event-3")]
  {
    var store := new InMemoryEventStore<string, string>(s => s);
    var e1 := Persisted("stream:test", 1, "event-1");
    var e2 := Persisted("stream:test", 2, "event-2");
    var e3 := Persisted("stream:test", 3, "event-3");
    first := store.Append("stream:test", Exact(0), ["event-1", "event-2"]);
    assert store.Stored("stream:test") == [e1, e2];
    assert store.CurrentVersion("stream:test") == 2;
    second := store.Append("stream:test", Exact(2), ["event-3"]);
    assert store.Stored("stream:test") == [e1, e2, e3];
    assert store.CurrentVersion("stream:test") == 3;
    stale := store.Append("stream:test", Exact(0), ["event-1", "event-2"]);
    store.StreamFrom("stream:test", 3);
    tail := store.Stream("stream:test", From(3));
  }

  /**
   * `Any` skips the version check. Appending no events returns version 0
   * rather than the stream's current version, and leaves the stream as it was.
   */
  method UncheckedAndEmptyAppends() returns (unchecked: Result<Version, ConflictError>, empty: Result<Version, ConflictError>,
                                             read: seq<Persisted<string, string>>, next: Result<Version, ConflictError>)
    ensures unchecked == Ok(2)
    ensures empty == Ok(0)
    ensures read == [Persisted("stream:test", 1, "event-1"), Persisted("stream:test", 2, "event-2")]
    ensures next == Ok(3)
  {
    var store := new InMemoryEventStore<string, string>(s => s);
    var e1 := Persisted("stream:test", 1, "event-1");
    var e2 := Persisted("stream:test", 2, "event-2");
    unchecked := store.Append("stream:test", Any, ["event-1", "event-2"]);
    assert store.Stored("stream:test") == [e1, e2];
    empty := store.Append("stream:test", Any, []);
    assert store.Stored("stream:test") == [e1, e2] + [] == [e1, e2];
    read := store.Stream("stream:test", All);
    assert store.CurrentVersion("stream:test") == 2;
    next := store.Append("stream:test", Exact(2), ["event-3"]);
  }
}
