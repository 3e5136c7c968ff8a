# eventually: in-memory event store and aggregate replay, in Dafny

This project models the core of the `eventually` event-sourcing library:

- **The in-memory reference event store** (`InMemoryEventStore`). Its state is one map from the textual
  (`Display`) form of a stream id to the stream's persisted events. Two operations act on it:
  - `stream(id, select)` reads a snapshot of one stream. It keeps either all events or those from a
    version onward, and it never fails.
  - `append(id, version_check, events)` reads the stream's current last version, which is 0 when the
    stream is absent or empty. It then checks an `Exact(v)` expectation against that version and
    reports `ConflictError { expected, actual }` on a mismatch. Otherwise it stamps the new events
    with consecutive versions and adds them at the end of the stream.
- **The Aggregate contract**: a pure transition `apply(state, event) -> Result<State, Error>`. The
  model adds a replay (`Fold`) that applies a history in order and stops at the first error.

Files:

- `results.dfy`: the `Result` type.
- `event.dfy`: `Version`, `Persisted`, `VersionSelect`, `StreamVersionExpected`, `ConflictError`.
- `store.dfy`: the read filter, version stamping and the `InMemoryEventStore` class.
- `aggregate.dfy`: `Fold` and its lemmas.
- `replay.dfy`: replaying a stream read from the store, including replay from a snapshot.
- `store_tests.dfy`: the store's test scenarios as verified methods.

Modelling choices:

- The store is a class with a field `streams: map<string, seq<Persisted<Id, Evt>>>`.
  - `Append` is a method that reassigns that field.
  - `Stream` is a function that reads it, so it cannot change the store.
  - Rust's `to_string` is the class's constant `key: Id -> string`, given to the constructor.
  - `key` is not assumed to be injective, so two ids that render alike share one stream. This is why
    the invariant `Valid` says that a stream holds only events whose id renders to its key.
- `Version` is `nat`.
- An aggregate is represented by its `apply` function value, `(S, E) -> Result<S, Error>`. Dafny
  functions are deterministic, so "same inputs, same result" holds by construction.
  `FoldDeterminedByApply` states the consequence for replay.
- The source's `Error = Infallible` case (an `apply` that cannot fail) is the hypothesis
  `forall s, e :: apply(s, e).Ok?`.
- The types of `event.rs` and `version.rs` are rebuilt from how `store.rs` uses them. Those two files
  are not part of this model.
  - `StreamVersionExpected` has the variant `Exact(v)`. `store.rs` shows only that variant, and it
    skips the check for every other one. The model names the no-check variant `Any`.

Two behaviours of `append` in `store.rs` that are easy to miss:

- With an empty `events`, `append` returns version 0, not the stream's current version
  (`store.rs:111-114`).
- An append of no events to an absent key still creates an empty entry (`or_insert_with`). Reads
  cannot tell that entry apart from a missing key.

## Model

| member | source | states |
|---|---|---|
| `Store.Filtered` | eventually-v0-5-0/src/test/store.rs:57-66 | every event the read returns is a stored event that the selection keeps; every stored event it keeps is returned; nothing is added; `All` returns the stored sequence unchanged |
| `Store.FilteredConcat` | eventually-v0-5-0/src/test/store.rs:62-66 | the filter keeps order: filtering `a + b` gives the filtered `a` followed by the filtered `b` |
| `Store.FilteredKeepsAll` | eventually-v0-5-0/src/test/store.rs:63-66 | a selection that keeps every stored event returns the stored sequence itself |
| `Store.FilteredFromVersions` | eventually-v0-5-0/src/test/store.rs:63-66 | on events numbered `base + 1, base + 2, ...`, reading `From(v)` returns exactly the suffix that starts at version `v` |
| `Store.FilteredFromContiguous` | eventually-v0-5-0/src/test/store.rs:63-66 | on a stream numbered 1..N, `From(v)` returns the suffix from index `v - 1`, and it is empty once `v` is past the last version |
| `Store.Selects` | eventually-v0-5-0/src/test/store.rs:63-66 | `All` keeps every event; `From(v)` keeps an event exactly when its version is at least `v` |
| `Store.LastVersion` | eventually-v0-5-0/src/test/store.rs:84-89 | the version of a stream's last event, read the same way for the stream before the append and for the stamped batch (lines 111-114): 0 for no events, and N for a stream numbered 1..N |
| `Store.Conflicts` | eventually-v0-5-0/src/test/store.rs:91-92 | `Any` never conflicts; `Exact(v)` conflicts exactly when `v` differs from the current version |
| `Store.Stamp` | eventually-v0-5-0/src/test/store.rs:100-109 | stamping keeps the number of events and their order; the k-th stamped event carries `id`, version `last + k + 1` and `events[k]`; the batch's last version is `last + |events|`, or 0 when there are no events |
| `Store.StampedLayout` | eventually-v0-5-0/src/test/store.rs:100-120 | after stamping and appending, the old events are an unchanged prefix, and the k-th new event is `Persisted(id, last + k + 1, events[k])` |
| `Store.StampedKeepsContiguous` | eventually-v0-5-0/src/test/store.rs:84-120 | appending events stamped after a stream's current version turns a stream numbered 1..N into one numbered 1..N+|events| |
| `Store.AppendKeepsWellFormed` | eventually-v0-5-0/src/test/store.rs:82-120 | in a well-formed map, updating the entry of `key(id)` with its old events followed by the stamped ones keeps every stream numbered 1..N and holding only events whose id renders to its key; for a non-empty batch, the batch's last version equals the new stream's length and its current version |
| `Store.InMemoryEventStore.constructor` | eventually-v0-5-0/src/test/store.rs:22-28 | a new store has no streams and satisfies the invariant |
| `Store.InMemoryEventStore.Stream` | eventually-v0-5-0/src/test/store.rs:47-69 | reading an id that has no stream gives an empty sequence; `All` gives the stored events of `key(id)`; every returned event is a stored event of `key(id)` that the selection keeps, and every stored event that the selection keeps is returned (on a valid store, `StreamFrom` gives the exact suffix in order); reading cannot fail and does not change the store |
| `Store.InMemoryEventStore.StreamFrom` | eventually-v0-5-0/src/test/store.rs:63-66 | on a valid store, `From(v)` returns the stored suffix from version `v`, `From(current + 1)` returns nothing, and the current version equals the stream's length |
| `Store.InMemoryEventStore.Append` | eventually-v0-5-0/src/test/store.rs:71-123 | an `Exact(v)` check that differs from the current version returns `Err(ConflictError(v, current))` and leaves the map unchanged; any other check succeeds. Success replaces only the entry of `key(id)`, with the old events followed by the events stamped `current + 1 ...`, and returns `current + |events|`, or 0 for no events. All other streams are unchanged (the map update touches only `key(id)`); the invariant is preserved; a non-empty append on a valid store returns the stream's new length, which is its new current version. With `FilteredConcat`, a read after a successful append returns the earlier read followed by the new events that the selection keeps |
| `Aggregate.Fold` | eventually/src/aggregate/mod.rs:17-50 | replaying no events returns the starting state unchanged, and a replay can fail only on a non-empty history; with `FoldConcat`, `FoldErrorWitness` and `FoldStopsAtFailure` below it applies the events one by one in order and stops at the first `apply` error |
| `Aggregate.FoldDeterminedByApply` | eventually/src/aggregate/mod.rs:48-50 | a replay depends only on what `apply` returns for each (state, event) pair, so the same history from the same state always gives the same result |
| `Aggregate.FoldConcat` | eventually/src/aggregate/mod.rs:17-22 | replaying `xs + ys` equals replaying `ys` from the result of replaying `xs`; an error in `xs` is the error of the whole |
| `Aggregate.FoldBatchesIsFold` | eventually/src/aggregate/mod.rs:17-22 | however a history is split into batches, replaying the batches in turn gives the same result as replaying it in one go |
| `Aggregate.FoldErrorWitness` | eventually/src/aggregate/mod.rs:38-50 | a failed replay has a failing event: the events before it replay to a state, and applying that event to the state returns exactly the replay's error |
| `Aggregate.FoldStopsAtFailure` | eventually/src/aggregate/mod.rs:38-50 | once a prefix replays to a state on which the next event fails, the whole replay returns that error, whatever follows |
| `Aggregate.FoldInfallible` | eventually/src/aggregate/mod.rs:44-46 | when `apply` never fails, every replay succeeds |
| `Replay.ReplayFromSnapshot` | eventually/src/aggregate/mod.rs:17-22 | on a valid store, replaying a stream equals replaying its first `v - 1` events and then the events read `From(v)` |
| `StoreTests.ItWorks` | eventually-v0-5-0/src/test/store.rs:133-173 | three events appended with `Exact(0)` to an empty store return version 3 and read back as versions 1, 2, 3 in append order |
| `StoreTests.VersionConflictChecksWorkAsExpected` | eventually-v0-5-0/src/test/store.rs:175-202 | `Exact(3)` on an empty store fails with `ConflictError(3, 0)` and the stream stays empty |
| `StoreTests.SuccessiveAppends` | eventually-v0-5-0/src/test/store.rs:84-120 | a second append that expects the version the first one returned continues the numbering; a retry with the stale expectation conflicts with the real version; reading `From(3)` returns only the third event |
| `StoreTests.UncheckedAndEmptyAppends` | eventually-v0-5-0/src/test/store.rs:91-122 | `Any` skips the check and returns the new version 2; appending no events returns 0, and reading the stream afterwards gives the same two events with versions 1 and 2; the next append gets version 3 |

## Left out

- The `RwLock` around the backend, and the panics when a lock is poisoned (`store.rs:33, 52-55, 77-80`). Each call is one atomic step on the map.
- The `global_offset` counter (`store.rs:32`). Neither operation reads or updates it.
- `async`, and the returned `futures` stream with its `Ok` wrapping (`store.rs:68`). A read is a plain `seq`. Because the stream error type is `Infallible`, no element can be an error.
- `u64` overflow in `last + i + 1` (`store.rs:106`). Versions are unbounded `nat`.
- How `Display` renders an id. It is the parameter `key`.
- The `Clone`, `Send` and `Sync` trait bounds. They are plain type parameters here.
- The submodules `optional`, `referential`, `util` and `versioned` of `aggregate`, and the `StateOf`/`EventOf`/`ErrorOf` aliases.
  - `util.rs` is not part of this model.
  - The replay `Fold` is defined here directly from `apply`.
- An uninhabited `Error` type. It is stated as the hypothesis that `apply` always returns `Ok`.
