/**
 * Rebuilding aggregate state from the store: the raw events of a read are
 * replayed through `apply`. Reading from a version onward supports replay
 * from a snapshot: the state after the first v - 1 events plus the tail
 * read `From(v)` gives the same result as replaying the whole stream.
 */
module Replay {
  import opened Results
  import opened Event
  import opened Store
  import opened Aggregate

  /** The raw events inside a read, in the read's order. */
  function Inners<Id, Evt>(s: seq<Persisted<Id, Evt>>): seq<Evt>
  {
    seq(|s|, i requires 0 <= i < |s| => s[i].inner)
  }

  /** Unwrapping the raw events distributes over concatenation. */
  lemma InnersConcat<Id, Evt>(a: seq<Persisted<Id, Evt>>, b: seq<Persisted<Id, Evt>>)
    ensures Inners(a + b) == Inners(a) + Inners(b)
  {
  }

  /** Replaying a read equals replaying its first `n` events and then the rest. */
  lemma FoldSplit<Id, Evt, S, Error>(s: seq<Persisted<Id, Evt>>, n: nat, apply: (S, Evt) -> Result<S, Error>, init: S)
    requires n <= |s|
    ensures Fold(apply, init, Inners(s)) == Then(apply, Fold(apply, init, Inners(s[..n])), Inners(s[n..]))
  {
    assert s == s[..n] + s[n..];
    InnersConcat(s[..n], s[n..]);
    FoldConcat(apply, init, Inners(s[..n]), Inners(s[n..]));
  }

  /**
   * On a valid store, folding the whole stream of `id` equals folding its
   * first v - 1 events (the snapshot) and then the events read `From(v)`.
   */
  lemma ReplayFromSnapshot<Id, Evt, S, Error>(store: InMemoryEventStore<Id, Evt>, id: Id, v: Version,
                                               apply: (S, Evt) -> Result<S, Error>, init: S)
    requires store.Valid()
    ensures var all := store.Stream(id, All);
      Fold(apply, init, Inners(all))
      == Then(apply, Fold(apply, init, Inners(all[..Clamp(v - 1, |all|)])), Inners(store.Stream(id, From(v))))
  {
    var all := store.Stream(id, All);
    store.StreamFrom(id, v);
    FoldSplit(all, Clamp(v - 1, |all|), apply, init);
  }
}
