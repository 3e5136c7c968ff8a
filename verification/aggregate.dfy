/**
 * The Aggregate contract: a pure transition `apply(state, event)` that yields
 * the next state or an error meaning the event is invalid for the current
 * state. An aggregate is represented here by its `apply` function value;
 * `Fold` replays a history through it, stopping at the first error.
 */
module Aggregate {
  import opened Results

  /** Applies `events` to `state` in order; the first `Err` ends the replay and is returned. */
  function Fold<S, E, Error>(apply: (S, E) -> Result<S, Error>, state: S, events: seq<E>): (r: Result<S, Error>)
    ensures events == [] ==> r == Ok(state)
    ensures r.Err? ==> events != []
    decreases |events|
  {
    if events == [] then Ok(state)
    else
      match apply(state, events[0])
      case Ok(next) => Fold(apply, next, events[1..])
      case Err(e) => Err(e)
  }

  /** Replays `rest` from `r` when `r` is a state, and passes an error on unchanged. */
  function Then<S, E, Error>(apply: (S, E) -> Result<S, Error>, r: Result<S, Error>, rest: seq<E>): Result<S, Error>
  {
    match r
    case Ok(s) => Fold(apply, s, rest)
    case Err(e) => Err(e)
  }

  /**
   * The fold depends only on what `apply` returns for each (state, event)
   * pair: two transition functions that agree everywhere replay every
   * history to the same result.
   */
  lemma {:induction false} FoldDeterminedByApply<S, E, Error>(f: (S, E) -> Result<S, Error>, g: (S, E) -> Result<S, Error>, state: S, events: seq<E>)
    requires forall s, e :: f(s, e) == g(s, e)
    ensures Fold(f, state, events) == Fold(g, state, events)
  {
    if events != [] {
      match f(state, events[0])
      case Ok(next) => FoldDeterminedByApply(f, g, next, events[1..]);
      case Err(_) =>
    }
  }

  /**
   * Replaying `xs + ys` in one go equals replaying `xs` and then `ys` from
   * its result; an error in `xs` is the error of the whole.
   */
  lemma {:induction false} FoldConcat<S, E, Error>(apply: (S, E) -> Result<S, Error>, state: S, xs: seq<E>, ys: seq<E>)
    ensures Fold(apply, state, xs + ys) == Then(apply, Fold(apply, state, xs), ys)
  {
    if xs == [] {
      assert xs + ys == ys;
    } else {
      assert (xs + ys)[0] == xs[0];
      assert (xs + ys)[1..] == xs[1..] + ys;
      match apply(state, xs[0])
      case Ok(next) => FoldConcat(apply, next, xs[1..], ys);
      case Err(_) =>
    }
  }

  /** All the batches of `batches`, concatenated in order. */
  function Flatten<E>(batches: seq<seq<E>>): seq<E>
  {
    if batches == [] then [] else batches[0] + Flatten(batches[1..])
  }

  /** Replays each batch from the result of the batches before it. */
  function FoldBatches<S, E, Error>(apply: (S, E) -> Result<S, Error>, state: S, batches: seq<seq<E>>): Result<S, Error>
    decreases |batches|
  {
    if batches == [] then Ok(state)
    else
      match Fold(apply, state, batches[0])
      case Ok(next) => FoldBatches(apply, next, batches[1..])
      case Err(e) => Err(e)
  }

  /** However a history is split into batches, replaying it batch by batch gives the same result. */
  lemma {:induction false} FoldBatchesIsFold<S, E, Error>(apply: (S, E) -> Result<S, Error>, state: S, batches: seq<seq<E>>)
    ensures FoldBatches(apply, state, batches) == Fold(apply, state, Flatten(batches))
  {
    if batches != [] {
      FoldConcat(apply, state, batches[0], Flatten(batches[1..]));
      match Fold(apply, state, batches[0])
      case Ok(next) => FoldBatchesIsFold(apply, next, batches[1..]);
      case Err(_) =>
    }
  }

  /**
   * A replay that fails stops at a failing event: there is an index `i` such
   * that the events before it replay to a state `s` and applying event `i`
   * to `s` returns exactly the error of the whole replay.
   */
  lemma {:induction false} FoldErrorWitness<S, E, Error>(apply: (S, E) -> Result<S, Error>, state: S, events: seq<E>)
    returns (i: nat, s: S)
    requires Fold(apply, state, events).Err?
    ensures i < |events|
    ensures Fold(apply, state, events[..i]) == Ok(s)
    ensures apply(s, events[i]) == Err(Fold(apply, state, events).error)
  {
    assert events[..0] == [];
    match apply(state, events[0])
    case Ok(next) =>
      var j, t := FoldErrorWitness(apply, next, events[1..]);
      i, s := j + 1, t;
      assert events[..i] == [events[0]] + events[1..][..j];
      FoldConcat(apply, state, [events[0]], events[1..][..j]);
    case Err(_) =>
      i, s := 0, state;
  }

  /**
   * Conversely, once the events before `i` replay to `s` and event `i` fails
   * on `s`, the whole replay fails with that error, whatever follows.
   */
  lemma FoldStopsAtFailure<S, E, Error>(apply: (S, E) -> Result<S, Error>, state: S, events: seq<E>, i: nat, s: S)
    requires i < |events|
    requires Fold(apply, state, events[..i]) == Ok(s)
    requires apply(s, events[i]).Err?
    ensures Fold(apply, state, events) == Err(apply(s, events[i]).error)
  {
    assert events == events[..i] + events[i..];
    FoldConcat(apply, state, events[..i], events[i..]);
    assert events[i..][0] == events[i];
  }

  /** With a transition that never fails (an uninhabited error type), every replay succeeds. */
  lemma {:induction false} FoldInfallible<S, E, Error>(apply: (S, E) -> Result<S, Error>, state: S, events: seq<E>)
    requires forall s, e :: apply(s, e).Ok?
    ensures Fold(apply, state, events).Ok?
  {
    if events != [] {
      FoldInfallible(apply, apply(state, events[0]).value, events[1..]);
    }
  }
}
