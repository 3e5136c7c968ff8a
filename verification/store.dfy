/**
 * The in-memory reference event store: one map from the textual form of a
 * stream id to that stream's persisted events. Reading filters a snapshot
 * of one stream; appending checks the caller's version expectation, stamps
 * the new events with consecutive versions and adds them at the end.
 */
module Store {
  import opened Results
  import opened Event

  /** The read filter applied to every stored event. */
  predicate Selects<Id, Evt>(select: VersionSelect, e: Persisted<Id, Evt>): (r: bool)
    ensures select == All ==> r
    ensures forall v :: select == From(v) ==> (r <==> e.version >= v)
  {
    match select
    case All => true
    case From(v) => e.version >= v
  }

  /** The events of `events` that `select` keeps, in their original order. */
  function Filtered<Id, Evt>(events: seq<Persisted<Id, Evt>>, select: VersionSelect): (r: seq<Persisted<Id, Evt>>)
    ensures |r| <= |events|
    ensures forall i :: 0 <= i < |r| ==> r[i] in events && Selects(select, r[i])
    ensures forall j :: 0 <= j < |events| && Selects(select, events[j]) ==> events[j] in r
    ensures select == All ==> r == events
  {
    if events == [] then []
    else if Selects(select, events[0]) then [events[0]] + Filtered(events[1..], select)
    else Filtered(events[1..], select)
  }

  /** The version of the last event of `events`, or 0 when there is none. */
  function LastVersion<Id, Evt>(events: seq<Persisted<Id, Evt>>): (r: Version)
    ensures events == [] ==> r == 0
    ensures Contiguous(events) ==> r == |events|
  {
    if events == [] then 0 else events[|events| - 1].version
  }

  /** The raw `events` stamped for stream `id`, numbered on from `last`. */
  function Stamp<Id, Evt>(id: Id, last: Version, events: seq<Evt>): (r: seq<Persisted<Id, Evt>>)
    ensures |r| == |events|
    ensures VersionsFrom(r, last)
    ensures forall k :: 0 <= k < |r| ==> r[k].streamId == id && r[k].inner == events[k]
    ensures LastVersion(r) == if events == [] then 0 else last + |events|
  {
    seq(|events|, k requires 0 <= k < |events| => Persisted(id, last + k + 1, events[k]))
  }

  /** An `Exact` expectation that differs from the current version. */
  predicate Conflicts(check: StreamVersionExpected, current: Version): (r: bool)
    ensures check == Any ==> !r
    ensures forall v :: check == Exact(v) ==> (r <==> v != current)
  {
    check.Exact? && check.expected != current
  }

  /** The events of `s` carry the versions base + 1, base + 2, ... in order. */
  ghost predicate VersionsFrom<Id, Evt>(s: seq<Persisted<Id, Evt>>, base: nat)
  {
    forall i :: 0 <= i < |s| ==> s[i].version == base + i + 1
  }

  /** A well-formed stream: versions 1..N with no gap and no duplicate. */
  ghost predicate Contiguous<Id, Evt>(s: seq<Persisted<Id, Evt>>)
  {
    VersionsFrom(s, 0)
  }

  /** `n` cut to the range 0..len. */
  function Clamp(n: int, len: nat): (r: nat)
    ensures r <= len
    ensures 0 <= n <= len ==> r == n
  {
    if n < 0 then 0 else if n > len then len else n
  }

  /**
   * The old events stay an unchanged prefix and the k-th new event follows
   * them as `Persisted(id, last + k + 1, events[k])`.
   */
  lemma StampedLayout<Id, Evt>(before: seq<Persisted<Id, Evt>>, id: Id, last: Version, events: seq<Evt>)
    ensures |before + Stamp(id, last, events)| == |before| + |events|
    ensures (before + Stamp(id, last, events))[..|before|] == before
    ensures forall k :: 0 <= k < |events| ==>
      (before + Stamp(id, last, events))[|before| + k] == Persisted(id, last + k + 1, events[k])
  {
    var t := before + Stamp(id, last, events);
    assert t[..|before|] == before;
    forall k | 0 <= k < |events|
      ensures t[|before| + k] == Persisted(id, last + k + 1, events[k])
    {
      assert t[|before| + k] == Stamp(id, last, events)[k];
    }
  }

  /** Appending events stamped after a contiguous stream's last version keeps it contiguous. */
  lemma StampedKeepsContiguous<Id, Evt>(s: seq<Persisted<Id, Evt>>, id: Id, events: seq<Evt>)
    requires Contiguous(s)
    ensures Contiguous(s + Stamp(id, LastVersion(s), events))
    ensures |s + Stamp(id, LastVersion(s), events)| == |s| + |events|
  {
    var t := s + Stamp(id, LastVersion(s), events);
    forall i | 0 <= i < |t|
      ensures t[i].version == i + 1
    {
      if i >= |s| {
        assert t[i] == Stamp(id, |s|, events)[i - |s|];
      }
    }
  }

  /** Filtering distributes over concatenation: order is kept and nothing moves across the seam. */
  lemma {:induction false} FilteredConcat<Id, Evt>(a: seq<Persisted<Id, Evt>>, b: seq<Persisted<Id, Evt>>, select: VersionSelect)
    ensures Filtered(a + b, select) == Filtered(a, select) + Filtered(b, select)
  {
    if a == [] {
      assert a + b == b;
    } else {
      assert (a + b)[0] == a[0];
      assert (a + b)[1..] == a[1..] + b;
      FilteredConcat(a[1..], b, select);
    }
  }

  /** A filter that keeps every event of `s` returns `s` itself. */
  lemma {:induction false} FilteredKeepsAll<Id, Evt>(s: seq<Persisted<Id, Evt>>, select: VersionSelect)
    requires forall i :: 0 <= i < |s| ==> Selects(select, s[i])
    ensures Filtered(s, select) == s
  {
    if s != [] {
      assert forall i :: 0 <= i < |s[1..]| ==> s[1..][i] == s[i + 1];
      FilteredKeepsAll(s[1..], select);
      assert [s[0]] + s[1..] == s;
    }
  }

  /**
   * On a stream numbered from `base`, reading from version `v` gives exactly
   * the suffix that starts at version `v`.
   */
  lemma {:induction false} FilteredFromVersions<Id, Evt>(s: seq<Persisted<Id, Evt>>, base: nat, v: Version)
    requires VersionsFrom(s, base)
    ensures Filtered(s, From(v)) == s[Clamp(v - base - 1, |s|)..]
  {
    if s == [] {
    } else if v <= base + 1 {
      FilteredKeepsAll(s, From(v));
    } else {
      var t := s[1..];
      assert VersionsFrom(t, base + 1) by {
        assert forall i :: 0 <= i < |t| ==> t[i] == s[i + 1];
      }
      FilteredFromVersions(t, base + 1, v);
      assert Clamp(v - base - 1, |s|) == Clamp(v - (base + 1) - 1, |t|) + 1;
      assert t[Clamp(v - (base + 1) - 1, |t|)..] == s[Clamp(v - base - 1, |s|)..];
    }
  }

  /** A contiguous stream read from `From(v)` is its suffix from index v - 1; from N + 1 on it is empty. */
  lemma FilteredFromContiguous<Id, Evt>(s: seq<Persisted<Id, Evt>>, v: Version)
    requires Contiguous(s)
    ensures Filtered(s, From(v)) == s[Clamp(v - 1, |s|)..]
    ensures v > LastVersion(s) ==> Filtered(s, From(v)) == []
  {
    FilteredFromVersions(s, 0, v);
  }

  /** The events stored under `k`; an absent key reads as an empty stream. */
  function StoredIn<Id, Evt>(streams: map<string, seq<Persisted<Id, Evt>>>, k: string): seq<Persisted<Id, Evt>>
  {
    if k in streams then streams[k] else []
  }

  /**
   * Every stream of `streams` is numbered 1..N and holds only events whose
   * id `key` renders to the stream's key.
   */
  ghost predicate WellFormed<Id, Evt>(key: Id -> string, streams: map<string, seq<Persisted<Id, Evt>>>)
  {
    forall k :: k in streams ==>
      && Contiguous(streams[k])
      && forall i :: 0 <= i < |streams[k]| ==> key(streams[k][i].streamId) == k
  }

  /**
   * Replacing the stream of `id` with its old events followed by the stamped
   * new ones keeps the map well formed, and the last new version is then the
   * stream's length.
   */
  lemma AppendKeepsWellFormed<Id, Evt>(key: Id -> string, streams: map<string, seq<Persisted<Id, Evt>>>, id: Id, events: seq<Evt>,
                                       updated: map<string, seq<Persisted<Id, Evt>>>)
    requires WellFormed(key, streams)
    requires updated == streams[key(id) := StoredIn(streams, key(id)) + Stamp(id, LastVersion(StoredIn(streams, key(id))), events)]
    ensures WellFormed(key, updated)
    ensures events != [] ==>
      && LastVersion(Stamp(id, LastVersion(StoredIn(streams, key(id))), events)) == |StoredIn(updated, key(id))|
      && LastVersion(StoredIn(updated, key(id))) == |StoredIn(updated, key(id))|
  {
    var k := key(id);
    var before := StoredIn(streams, k);
    assert Contiguous(before) by {
      if k in streams {
        assert before == streams[k];
      }
    }
    var after := before + Stamp(id, LastVersion(before), events);
    StampedKeepsContiguous(before, id, events);
    forall i | 0 <= i < |after|
      ensures key(after[i].streamId) == k
    {
      if i < |before| {
        assert after[i] == before[i];
      } else {
        assert after[i] == Stamp(id, LastVersion(before), events)[i - |before|];
      }
    }
  }

  /**
   * The store. `key` renders a stream id to the string the map is keyed by;
   * it need not be injective, so two ids with the same rendering share one
   * stream.
   */
  class InMemoryEventStore<Id, Evt> {
    const key: Id -> string
    var streams: map<string, seq<Persisted<Id, Evt>>>

    /** The store's invariant: every stream is well formed. */
    ghost predicate Valid()
      reads this
    {
      WellFormed(key, streams)
    }

    /** An empty store. */
    constructor (key: Id -> string)
      ensures this.key == key
      ensures streams == map[]
      ensures Valid()
    {
      this.key := key;
      streams := map[];
    }

    /** The events currently stored under `k`. */
    function Stored(k: string): seq<Persisted<Id, Evt>>
      reads this
    {
      StoredIn(streams, k)
    }

    /** The version of the last event stored under `k`, or 0 if there is none. */
    function CurrentVersion(k: string): Version
      reads this
    {
      LastVersion(StoredIn(streams, k))
    }

    /**
     * A snapshot of the stream of `id`, restricted by `select`. Reading never
     * fails and does not change the store.
     */
    function Stream(id: Id, select: VersionSelect): (r: seq<Persisted<Id, Evt>>)
      reads this
      ensures key(id) !in streams ==> r == []
      ensures select == All ==> r == Stored(key(id))
      ensures forall i :: 0 <= i < |r| ==> r[i] in Stored(key(id)) && Selects(select, r[i])
      ensures forall j :: 0 <= j < |Stored(key(id))| && Selects(select, Stored(key(id))[j]) ==> Stored(key(id))[j] in r
    {
      Filtered(StoredIn(streams, key(id)), select)
    }

    /**
     * On a valid store, reading from version `v` returns the stored suffix
     * from version `v` on; from the current version + 1 on it is empty.
     */
    lemma StreamFrom(id: Id, v: Version)
      requires Valid()
      ensures Stream(id, From(v)) == Stored(key(id))[Clamp(v - 1, |Stored(key(id))|)..]
      ensures v > CurrentVersion(key(id)) ==> Stream(id, From(v)) == []
      ensures CurrentVersion(key(id)) == |Stored(key(id))|
    {
      FilteredFromContiguous(Stored(key(id)), v);
    }

    /**
     * Appends `events` to the stream of `id` after checking `check` against
     * the stream's current version; on a conflict nothing changes.
     */
    method Append(id: Id, check: StreamVersionExpected, events: seq<Evt>) returns (r: Result<Version, ConflictError>)
      modifies this
      // the version check
      ensures Conflicts(check, LastVersion(StoredIn(old(streams), key(id)))) ==>
        && r == Err(ConflictError(check.expected, LastVersion(StoredIn(old(streams), key(id)))))
        && streams == old(streams)
      // on success the stream of key(id) gets the stamped events after its old ones, and nothing else changes
      ensures !Conflicts(check, LastVersion(StoredIn(old(streams), key(id)))) ==>
        && streams == old(streams)[key(id) := StoredIn(old(streams), key(id)) + Stamp(id, LastVersion(StoredIn(old(streams), key(id))), events)]
        && r == Ok(if events == [] then 0 else LastVersion(StoredIn(old(streams), key(id))) + |events|)
      ensures WellFormed(key, old(streams)) ==> Valid()
      ensures WellFormed(key, old(streams)) && r.Ok? && events != [] ==> r.value == |Stored(key(id))| == CurrentVersion(key(id))
    {
      var k := key(id);
      var last := LastVersion(if k in streams then streams[k] else []);
      ghost var before := StoredIn(streams, k);
      if check.Exact? && last != check.expected {
        return Err(ConflictError(check.expected, last));
      }
      var persisted := Stamp(id, last, events);
      var newLast := LastVersion(persisted);
      if k in streams {
        streams := streams[k := streams[k] + persisted];
      } else {
        streams := streams[k := persisted];
        assert before + persisted == persisted;
      }
      r := Ok(newLast);
      assert streams == old(streams)[k := before + persisted];
      if WellFormed(key, old(streams)) {
        AppendKeepsWellFormed(key, old(streams), id, events, streams);
      }
    }
  }
}
