/** The versioned key-value namespace of the reference specification (bdd/python/reference.py):
    lazy expiry, versions that restart over a dead key, compare-and-swap. */
module Kv {
  import opened Octets
  import opened Wrappers

  type Key = string
  type Time = int

  datatype Stored = Stored(value: Bytes, version: nat, expiresAt: Option<Time>)

  type Store = map<Key, Stored>

  datatype Expect = Absent | Version(version: nat)

  datatype Write = Set | Cas(expected: Expect)

  datatype Call = Call(write: Write, key: Key, value: Bytes, expiresAt: Option<Time>, now: Time)

  datatype Outcome = Committed(version: nat) | Conflict(current: Option<nat>)

  predicate Expired(stored: Stored, now: Time) {
    stored.expiresAt.Some? && now >= stored.expiresAt.value
  }

  function LiveVersion(entries: Store, key: Key, now: Time): Option<nat> {
    if key !in entries || Expired(entries[key], now) then None else Some(entries[key].version)
  }

  predicate Committable(expected: Expect, live: Option<nat>) {
    match expected
    case Absent => live.None?
    case Version(n) => live == Some(n)
  }

  /** What a call sees and does, given the version it finds alive. */
  function Decide(live: Option<nat>, write: Write): Outcome {
    if write.Cas? && !Committable(write.expected, live) then Conflict(live)
    else Committed((if live.Some? then live.value else 0) + 1)
  }

  function Apply(entries: Store, call: Call, outcome: Outcome): Store {
    match outcome
    case Committed(version) => entries[call.key := Stored(call.value, version, call.expiresAt)]
    case Conflict(_) => entries
  }

  function OutcomeOf(entries: Store, call: Call): Outcome {
    Decide(LiveVersion(entries, call.key, call.now), call.write)
  }

  function Step(entries: Store, call: Call): Store {
    Apply(entries, call, OutcomeOf(entries, call))
  }

  class KvEngine {
    var entries: Store

    constructor ()
      ensures entries == map[]
    {
      entries := map[];
    }

    method Put(key: Key, value: Bytes, expiresAt: Option<Time>, now: Time) returns (version: nat)
      modifies this
      ensures Committed(version) == OutcomeOf(old(entries), Call(Set, key, value, expiresAt, now))
      ensures entries == Step(old(entries), Call(Set, key, value, expiresAt, now))
    {
      var live := LiveVersion(entries, key, now);
      version := (if live.Some? then live.value else 0) + 1;
      entries := entries[key := Stored(value, version, expiresAt)];
    }

    method CompareAndSwap(key: Key, value: Bytes, expected: Expect, expiresAt: Option<Time>, now: Time)
      returns (outcome: Outcome)
      modifies this
      ensures outcome == OutcomeOf(old(entries), Call(Cas(expected), key, value, expiresAt, now))
      ensures entries == Step(old(entries), Call(Cas(expected), key, value, expiresAt, now))
    {
      var live := LiveVersion(entries, key, now);
      if !Committable(expected, live) {
        return Conflict(live);
      }
      var version := Put(key, value, expiresAt, now);
      outcome := Committed(version);
    }
  }

  // ----- Runs -----

  ghost function After(calls: seq<Call>): Store {
    if calls == [] then map[]
    else Step(After(calls[..|calls| - 1]), calls[|calls| - 1])
  }

  ghost function OutcomeAt(calls: seq<Call>, i: nat): Outcome
    requires i < |calls|
  {
    OutcomeOf(After(calls[..i]), calls[i])
  }

  // ----- Lazy expiry is expiry -----

  /** Deletes what has expired. */
  function Purge(entries: Store, now: Time): Store {
    map key | key in entries && !Expired(entries[key], now) :: entries[key]
  }

  /** A store that deletes at expiry and then only looks at presence. */
  function EagerOutcome(entries: Store, call: Call): Outcome {
    var current := Purge(entries, call.now);
    Decide(if call.key in current then Some(current[call.key].version) else None, call.write)
  }

  function EagerStep(entries: Store, call: Call): Store {
    Apply(Purge(entries, call.now), call, EagerOutcome(entries, call))
  }

  ghost function EagerAfter(calls: seq<Call>): Store {
    if calls == [] then map[]
    else EagerStep(EagerAfter(calls[..|calls| - 1]), calls[|calls| - 1])
  }

  ghost predicate TimeMovesForward(calls: seq<Call>) {
    forall i, j :: 0 <= i < j < |calls| ==> calls[i].now <= calls[j].now
  }

  ghost predicate CommitsOn(calls: seq<Call>, i: nat, key: Key) {
    i < |calls| && calls[i].key == key && OutcomeAt(calls, i).Committed?
  }

  /** Call `w` is the last before `n` that wrote the key. */
  ghost predicate LastWrite(calls: seq<Call>, w: nat, n: nat, key: Key) {
    w < n && CommitsOn(calls, w, key) && forall k :: w < k < n ==> !CommitsOn(calls, k, key)
  }

  /** Call `i` comes too early: what its key holds was dead for some call `m` since it was written, and
      for call `i` is not. */
  ghost predicate Revives(calls: seq<Call>, w: nat, m: nat, i: nat) {
    && w < m < i < |calls| && LastWrite(calls, w, i, calls[i].key)
    && calls[w].expiresAt.Some? && calls[i].now < calls[w].expiresAt.value <= calls[m].now
  }

  ghost predicate Revived(calls: seq<Call>, i: nat) {
    exists w: nat, m: nat :: Revives(calls, w, m, i)
  }

  /** The entry of the key was dead for some call since it was written. */
  ghost predicate Gone(calls: seq<Call>, n: nat, key: Key)
    requires n <= |calls|
  {
    && n > 0 && !CommitsOn(calls, n - 1, key)
    && (Gone(calls, n - 1, key) || DeadFor(After(calls[..n - 1]), key, calls[n - 1].now))
  }

  predicate DeadFor(entries: Store, key: Key, now: Time) {
    key in entries && Expired(entries[key], now)
  }

  lemma AfterOneMore(calls: seq<Call>, n: nat)
    requires n < |calls|
    ensures After(calls[..n + 1]) == Step(After(calls[..n]), calls[n])
    ensures EagerAfter(calls[..n + 1]) == EagerStep(EagerAfter(calls[..n]), calls[n])
  {
    assert calls[..n + 1][..n] == calls[..n] && calls[..n + 1][n] == calls[n];
  }

  lemma {:induction false} EntryWasWritten(calls: seq<Call>, n: nat, key: Key) returns (w: nat)
    requires n <= |calls| && key in After(calls[..n])
    ensures LastWrite(calls, w, n, key) && After(calls[..n])[key].version >= 1
  {
    AfterOneMore(calls, n - 1);
    if CommitsOn(calls, n - 1, key) {
      w := n - 1;
    } else {
      w := EntryWasWritten(calls, n - 1, key);
    }
  }

  /** An entry is what the last write on its key left. */
  lemma {:induction false} LastWriteStays(calls: seq<Call>, w: nat, n: nat, key: Key)
    requires n <= |calls| && LastWrite(calls, w, n, key)
    ensures key in After(calls[..n]) && After(calls[..n])[key].expiresAt == calls[w].expiresAt
    decreases n
  {
    AfterOneMore(calls, n - 1);
    if w < n - 1 {
      LastWriteStays(calls, w, n - 1, key);
      assert !CommitsOn(calls, n - 1, key);
    }
  }

  lemma {:induction false} GoneMeans(calls: seq<Call>, w: nat, n: nat, key: Key)
    requires n <= |calls| && LastWrite(calls, w, n, key)
    ensures Gone(calls, n, key) <==>
      exists m: nat :: w < m < n && calls[w].expiresAt.Some? && calls[w].expiresAt.value <= calls[m].now
    decreases n
  {
    if w < n - 1 {
      GoneMeans(calls, w, n - 1, key);
      LastWriteStays(calls, w, n - 1, key);
      assert !CommitsOn(calls, n - 1, key);
    }
  }

  lemma RevivedMeans(calls: seq<Call>, i: nat)
    requires i < |calls|
    ensures Revived(calls, i) <==>
      Gone(calls, i, calls[i].key) && LiveVersion(After(calls[..i]), calls[i].key, calls[i].now).Some?
  {
    var key := calls[i].key;
    if Revived(calls, i) {
      var w: nat, m: nat :| Revives(calls, w, m, i);
      GoneMeans(calls, w, i, key);
      LastWriteStays(calls, w, i, key);
    } else if key in After(calls[..i]) && Gone(calls, i, key) {
      var w := EntryWasWritten(calls, i, key);
      GoneMeans(calls, w, i, key);
      LastWriteStays(calls, w, i, key);
      var m: nat :| w < m < i && calls[w].expiresAt.Some? && calls[w].expiresAt.value <= calls[m].now;
      assert !Revives(calls, w, m, i);
    }
  }

  /** Deletion has removed exactly the entries that were dead for some call. */
  ghost predicate DeletesTheGone(calls: seq<Call>, n: nat, key: Key)
    requires n <= |calls|
  {
    var lazy, eager := After(calls[..n]), EagerAfter(calls[..n]);
    && (key in eager <==> key in lazy && !Gone(calls, n, key))
    && (key in eager ==> eager[key] == lazy[key])
  }

  ghost predicate Alike(calls: seq<Call>, i: nat)
    requires i < |calls|
  {
    OutcomeAt(calls, i) == EagerOutcome(EagerAfter(calls[..i]), calls[i])
  }

  lemma AlikeIffNotRevived(calls: seq<Call>, i: nat)
    requires i < |calls| && DeletesTheGone(calls, i, calls[i].key)
    ensures Alike(calls, i) <==> !Revived(calls, i)
  {
    RevivedMeans(calls, i);
    if calls[i].key in After(calls[..i]) {
      var _ := EntryWasWritten(calls, i, calls[i].key);
    }
  }

  lemma {:induction false} AlikeDeletes(calls: seq<Call>, n: nat, key: Key)
    requires n <= |calls| && forall i: nat :: i < n ==> Alike(calls, i)
    ensures DeletesTheGone(calls, n, key)
  {
    if n == 0 {
      assert calls[..0] == [];
    } else {
      AfterOneMore(calls, n - 1);
      AlikeDeletes(calls, n - 1, key);
      assert Alike(calls, n - 1);
      var now, eager := calls[n - 1].now, EagerAfter(calls[..n - 1]);
      assert key in Purge(eager, now) <==> key in eager && !Expired(eager[key], now);
    }
  }

  /** Leaving dead entries in place cannot be told from deleting them exactly when no call comes too
      early: none has a time before the death of an entry that an earlier call found dead. */
  lemma {:induction false} LazyIsEagerIff(calls: seq<Call>, n: nat)
    requires n <= |calls|
    ensures (forall i :: 0 <= i < n ==> Alike(calls, i)) <==> (forall i :: 0 <= i < n ==> !Revived(calls, i))
  {
    if n > 0 {
      LazyIsEagerIff(calls, n - 1);
      if forall i :: 0 <= i < n - 1 ==> Alike(calls, i) {
        AlikeDeletes(calls, n - 1, calls[n - 1].key);
        AlikeIffNotRevived(calls, n - 1);
      }
    }
  }

  /** In particular while time does not move back. */
  lemma LazyIsEager(calls: seq<Call>, i: nat)
    requires TimeMovesForward(calls) && i < |calls|
    ensures OutcomeAt(calls, i) == EagerOutcome(EagerAfter(calls[..i]), calls[i])
  {
    LazyIsEagerIff(calls, |calls|);
    assert Alike(calls, i);
  }

  /** If time moves back, a dead entry comes alive again, which a deleted one cannot. */
  lemma LazyDiffersWhenTimeMovesBack() returns (calls: seq<Call>)
    ensures |calls| == 3 && !TimeMovesForward(calls)
    ensures OutcomeAt(calls, 2) != EagerOutcome(EagerAfter(calls[..2]), calls[2])
  {
    var put := Call(Set, "k", [], Some(5), 0);
    var probe := Call(Cas(Version(7)), "k", [], None, 9);
    var back := Call(Set, "k", [], None, 1);
    calls := [put, probe, back];
    assert calls[..2][..1][..0] == [] && calls[..2][..1] == [put] && calls[..2] == [put, probe];
    var first := After([put]);
    var none: seq<Call> := [];
    var entries: Store := map["k" := Stored([], 1, Some(5))];
    assert [put][..0] == none && After(none) == map[] && EagerAfter(none) == map[];
    assert Purge(map[], 0) == map[];
    assert first == entries;
    assert EagerAfter([put]) == entries;
    assert After([put, probe]) == first by {
      assert [put, probe][..1] == [put];
    }
    assert EagerAfter([put, probe]) == map[] by {
      assert [put, probe][..1] == [put];
      assert Purge(first, 9) == map[];
    }
    assert OutcomeAt(calls, 2) == Committed(2);
    assert Purge(map[], 1) == map[];
  }

  // ----- Lifetimes -----

  /** Call `m` starts a new lifetime of a key whose last entry had expired. */
  ghost predicate Rebirth(calls: seq<Call>, m: nat, key: Key) {
    && CommitsOn(calls, m, key)
    && var before := After(calls[..m]);
       key in before && Expired(before[key], calls[m].now)
  }

  ghost function CommitsIn(calls: seq<Call>, from: nat, until: nat, key: Key): nat
    requires from <= until
    decreases until
  {
    if from == until then 0
    else CommitsIn(calls, from, until - 1, key) + (if CommitsOn(calls, until - 1, key) then 1 else 0)
  }

  /** Within one lifetime the versions count up one by one: `n` commits after one that returned `v`
      the key holds version `v + n`. */
  lemma {:induction false} VersionsCountUp(calls: seq<Call>, i: nat, until: nat, key: Key)
    requires CommitsOn(calls, i, key) && i < until <= |calls|
    requires forall m :: i < m < until ==> !Rebirth(calls, m, key)
    ensures key in After(calls[..until])
    ensures After(calls[..until])[key].version == OutcomeAt(calls, i).version + CommitsIn(calls, i + 1, until, key)
    decreases until
  {
    var n := until - 1;
    assert calls[..until][..n] == calls[..n] && calls[..until][n] == calls[n];
    if i < n {
      VersionsCountUp(calls, i, n, key);
      assert !Rebirth(calls, n, key);
    }
  }

  lemma CommitVersion(calls: seq<Call>, i: nat, j: nat, key: Key)
    requires CommitsOn(calls, i, key) && CommitsOn(calls, j, key) && i < j
    requires forall m :: i < m <= j ==> !Rebirth(calls, m, key)
    ensures OutcomeAt(calls, j).version == OutcomeAt(calls, i).version + CommitsIn(calls, i + 1, j + 1, key)
  {
    VersionsCountUp(calls, i, j, key);
    assert !Rebirth(calls, j, key);
  }

  lemma {:induction false} NoCommitNoEntry(calls: seq<Call>, until: nat, key: Key)
    requires until <= |calls| && forall i :: 0 <= i < until ==> !CommitsOn(calls, i, key)
    ensures key !in After(calls[..until])
  {
    if until > 0 {
      var n := until - 1;
      assert calls[..until][..n] == calls[..n] && calls[..until][n] == calls[n];
      NoCommitNoEntry(calls, n, key);
      assert !CommitsOn(calls, n, key);
    }
  }

  /** A lifetime starts with the first commit on a key, or with one over an entry that had expired. */
  ghost predicate StartsLifetime(calls: seq<Call>, m: nat, key: Key) {
    CommitsOn(calls, m, key) && (Rebirth(calls, m, key) || forall i :: 0 <= i < m ==> !CommitsOn(calls, i, key))
  }

  /** The versions of a lifetime are 1, 2, 3 and so on. */
  lemma LifetimeCountsFromOne(calls: seq<Call>, m: nat, j: nat, key: Key)
    requires StartsLifetime(calls, m, key) && CommitsOn(calls, j, key) && m <= j
    requires forall k :: m < k <= j ==> !Rebirth(calls, k, key)
    ensures OutcomeAt(calls, j).version == 1 + CommitsIn(calls, m + 1, j + 1, key)
  {
    if !Rebirth(calls, m, key) {
      NoCommitNoEntry(calls, m, key);
    }
    assert OutcomeAt(calls, m).version == 1;
    if m < j {
      CommitVersion(calls, m, j, key);
    }
  }

  /** Two commits on a key that return the same version are separated by an expiry. */
  lemma RepeatedVersionNeedsExpiry(calls: seq<Call>, i: nat, j: nat, key: Key)
    requires CommitsOn(calls, i, key) && CommitsOn(calls, j, key) && i < j
    requires OutcomeAt(calls, j).version <= OutcomeAt(calls, i).version
    ensures exists m :: i < m <= j && Rebirth(calls, m, key)
  {
    if !exists m :: i < m <= j && Rebirth(calls, m, key) {
      CommitVersion(calls, i, j, key);
    }
  }

  /** In one lifetime of a key at most one compare-and-swap wins per expectation. */
  lemma OneWinnerPerExpectation(calls: seq<Call>, i: nat, j: nat, key: Key)
    requires CommitsOn(calls, i, key) && CommitsOn(calls, j, key) && i < j
    requires calls[i].write.Cas? && calls[i].write == calls[j].write
    ensures exists m :: i < m <= j && Rebirth(calls, m, key)
  {
    RepeatedVersionNeedsExpiry(calls, i, j, key);
  }
}
