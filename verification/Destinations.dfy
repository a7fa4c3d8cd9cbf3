/** The revision-guarded destination model of the reference specification (bdd/python/reference.py). */
module Destinations {
  import opened Wrappers

  datatype State = Disabled | Running | Blocked

  datatype Destination = Destination(
    definitionRevision: nat, checkpointRevision: nat, state: State, nextOffset: int, retainedOffset: int)

  datatype Failure = Conflict(observedRevision: nat) | NotFound | Invalid | UnknownName | Cancelled

  datatype Call =
    | Register(name: string, expectedGlobal: nat)
    | Enable(name: string, expectedGlobal: nat, expectedDefinition: nat)
    | RecordGap(name: string, requiredOffset: int, retainedOffset: int)
    | AcceptGap(name: string, nextOffset: int, expectedCheckpoint: nat)

  type Table = map<string, Destination>

  /** The part of the model a mutation reads and writes. */
  datatype Catalog = Catalog(revision: nat, destinations: Table)

  // ----- One mutation -----

  /** Why a mutation is refused, in the order the checks run. A gap call on an unknown name raises. */
  function Refusal(catalog: Catalog, call: Call): Option<Failure> {
    var known := call.name in catalog.destinations;
    match call
    case Register(_, expected) =>
      if catalog.revision != expected then Some(Conflict(catalog.revision)) else None
    case Enable(name, expected, definition) =>
      if catalog.revision != expected then Some(Conflict(catalog.revision))
      else if !known then Some(NotFound)
      else if catalog.destinations[name].definitionRevision != definition then Some(Conflict(catalog.revision))
      else None
    case RecordGap(_, required, retained) =>
      if !known then Some(UnknownName) else if retained <= required then Some(Invalid) else None
    case AcceptGap(name, next, checkpoint) =>
      if !known then Some(UnknownName)
      else if catalog.destinations[name].checkpointRevision != checkpoint then Some(Conflict(catalog.revision))
      else if next < catalog.destinations[name].retainedOffset then Some(Invalid)
      else None
  }

  predicate Accepted(catalog: Catalog, call: Call) {
    Refusal(catalog, call).None?
  }

  function Mutated(catalog: Catalog, call: Call): Destination
    requires Accepted(catalog, call)
  {
    match call
    case Register(_, _) => Destination(1, 0, Disabled, 0, 0)
    case Enable(name, _, _) =>
      var d := catalog.destinations[name];
      d.(definitionRevision := d.definitionRevision + 1, checkpointRevision := d.checkpointRevision + 1,
         state := Running)
    case RecordGap(name, _, retained) =>
      var d := catalog.destinations[name];
      d.(checkpointRevision := d.checkpointRevision + 1, retainedOffset := retained, state := Blocked)
    case AcceptGap(name, next, _) =>
      var d := catalog.destinations[name];
      d.(checkpointRevision := d.checkpointRevision + 1, nextOffset := next, state := Running)
  }

  function Step(catalog: Catalog, call: Call): Catalog {
    if Accepted(catalog, call)
    then Catalog(catalog.revision + 1, catalog.destinations[call.name := Mutated(catalog, call)])
    else catalog
  }

  predicate Guarded(call: Call) {
    call.Register? || call.Enable?
  }

  // ----- Runs -----

  ghost function After(calls: seq<Call>): Catalog {
    if calls == [] then Catalog(0, map[])
    else Step(After(calls[..|calls| - 1]), calls[|calls| - 1])
  }

  ghost predicate AcceptedAt(calls: seq<Call>, i: nat) {
    i < |calls| && Accepted(After(calls[..i]), calls[i])
  }

  ghost function AcceptedCount(calls: seq<Call>): nat {
    if calls == [] then 0
    else AcceptedCount(calls[..|calls| - 1]) + (if AcceptedAt(calls, |calls| - 1) then 1 else 0)
  }

  /** The global revision counts the accepted mutations. */
  lemma {:induction false} RevisionCountsAccepted(calls: seq<Call>)
    ensures After(calls).revision == AcceptedCount(calls)
  {
    if calls != [] {
      RevisionCountsAccepted(calls[..|calls| - 1]);
    }
  }

  lemma {:induction false} RevisionGrows(calls: seq<Call>, i: nat, j: nat)
    requires i <= j <= |calls|
    ensures After(calls[..i]).revision <= After(calls[..j]).revision
    ensures AcceptedAt(calls, i) && i < j ==> After(calls[..i]).revision < After(calls[..j]).revision
    decreases j
  {
    if i < j {
      assert calls[..j][..j - 1] == calls[..j - 1] && calls[..j][j - 1] == calls[j - 1];
      RevisionGrows(calls, i, j - 1);
    }
  }

  /** A given expected global revision admits at most one register or enable in a whole run. */
  lemma OneWinnerPerRevision(calls: seq<Call>, i: nat, j: nat)
    requires AcceptedAt(calls, i) && AcceptedAt(calls, j) && i < j
    requires Guarded(calls[i]) && Guarded(calls[j])
    ensures calls[i].expectedGlobal < calls[j].expectedGlobal
  {
    RevisionGrows(calls, i, j);
  }

  // ----- Conservation of revisions -----

  ghost function Weight(table: Table): nat {
    if table == map[] then 0
    else
      var name :| name in table;
      1 + table[name].checkpointRevision + Weight(table - {name})
  }

  lemma {:induction false} WeightRemove(table: Table, name: string)
    requires name in table
    ensures Weight(table) == 1 + table[name].checkpointRevision + Weight(table - {name})
    decreases |table|
  {
    assert table != map[];
    var first :| first in table && Weight(table) == 1 + table[first].checkpointRevision + Weight(table - {first});
    if first != name {
      var rest := table - {first};
      WeightRemove(rest, name);
      assert name in table - {first} && first in table - {name};
      WeightRemove(table - {name}, first);
      assert rest - {name} == (table - {name}) - {first};
    }
  }

  lemma WeightUpdate(table: Table, name: string, destination: Destination)
    ensures Weight(table[name := destination]) + (if name in table then 1 + table[name].checkpointRevision else 0)
         == Weight(table) + 1 + destination.checkpointRevision
  {
    var updated := table[name := destination];
    WeightRemove(updated, name);
    if name in table {
      WeightRemove(table, name);
      assert updated - {name} == table - {name};
    } else {
      assert updated - {name} == table;
    }
  }

  ghost predicate ReRegisters(calls: seq<Call>, i: nat) {
    AcceptedAt(calls, i) && calls[i].Register? && calls[i].name in After(calls[..i]).destinations
  }

  /** The revisions a re-registration throws away, over a run. */
  ghost function Lost(calls: seq<Call>): nat {
    if calls == [] then 0
    else
      var n := |calls| - 1;
      Lost(calls[..n]) + (if ReRegisters(calls, n)
                          then 1 + After(calls[..n]).destinations[calls[n].name].checkpointRevision else 0)
  }

  lemma {:induction false} RevisionIsWeightPlusLost(calls: seq<Call>)
    ensures After(calls).revision == Weight(After(calls).destinations) + Lost(calls)
  {
    if calls != [] {
      var n := |calls| - 1;
      RevisionIsWeightPlusLost(calls[..n]);
      var before := After(calls[..n]);
      if AcceptedAt(calls, n) {
        WeightUpdate(before.destinations, calls[n].name, Mutated(before, calls[n]));
      }
    }
  }

  lemma {:induction false} LostIffReRegistered(calls: seq<Call>)
    ensures Lost(calls) == 0 <==> forall i :: 0 <= i < |calls| ==> !ReRegisters(calls, i)
  {
    if calls != [] {
      var n := |calls| - 1;
      LostIffReRegistered(calls[..n]);
      forall i | 0 <= i < n ensures ReRegisters(calls, i) == ReRegisters(calls[..n], i) {
        assert calls[..n][..i] == calls[..i];
      }
    }
  }

  /** The live destinations account for at most the global revision, and for all of it exactly when
      no name was registered twice. */
  lemma RevisionsAreConserved(calls: seq<Call>)
    ensures Weight(After(calls).destinations) <= After(calls).revision
    ensures Weight(After(calls).destinations) == After(calls).revision
        <==> forall i :: 0 <= i < |calls| ==> !ReRegisters(calls, i)
  {
    RevisionIsWeightPlusLost(calls);
    LostIffReRegistered(calls);
  }

  // ----- The model object -----

  datatype QueryPage<T> = QueryPage(rows: seq<T>, cursor: Option<nat>)

  class DataStackModel<T> {
    var revision: nat
    var destinations: Table
    var operation: Option<nat>
    var error: Option<Failure>
    var queryRows: seq<T>
    var queryCursor: nat
    var queryCancelled: bool

    ghost predicate Valid()
      reads this
    {
      queryCursor <= |queryRows|
    }

    ghost function Current(): Catalog
      reads this
    {
      Catalog(revision, destinations)
    }

    constructor ()
      ensures Valid() && Current() == After([]) && error == None && operation == None
    {
      revision, destinations, operation, error := 0, map[], None, None;
      queryRows, queryCursor, queryCancelled := [], 0, false;
    }

    method RegisterName(name: string, expectedGlobal: nat)
      modifies this`revision, this`destinations, this`operation, this`error
      ensures Current() == Step(old(Current()), Register(name, expectedGlobal))
      ensures error == Refusal(old(Current()), Register(name, expectedGlobal))
      ensures operation == if error.None? then Some(revision) else old(operation)
    {
      if revision != expectedGlobal {
        error := Some(Conflict(revision));
        return;
      }
      error := None;
      revision := revision + 1;
      destinations := destinations[name := Destination(1, 0, Disabled, 0, 0)];
      operation := Some(revision);
    }

    method EnableName(name: string, expectedGlobal: nat, expectedDefinition: nat)
      modifies this`revision, this`destinations, this`operation, this`error
      ensures Current() == Step(old(Current()), Enable(name, expectedGlobal, expectedDefinition))
      ensures error == Refusal(old(Current()), Enable(name, expectedGlobal, expectedDefinition))
      ensures operation == if error.None? then Some(revision) else old(operation)
    {
      if revision != expectedGlobal {
        error := Some(Conflict(revision));
        return;
      }
      error := None;
      if name !in destinations {
        error := Some(NotFound);
        return;
      }
      var d := destinations[name];
      if d.definitionRevision != expectedDefinition {
        error := Some(Conflict(revision));
        return;
      }
      revision := revision + 1;
      destinations := destinations[name := d.(definitionRevision := d.definitionRevision + 1,
                                              checkpointRevision := d.checkpointRevision + 1, state := Running)];
      operation := Some(revision);
    }

    /** Gap calls leave an earlier error standing when they succeed. */
    method RecordGapAt(name: string, requiredOffset: int, retainedOffset: int) returns (raised: bool)
      modifies this`revision, this`destinations, this`error
      ensures Current() == Step(old(Current()), RecordGap(name, requiredOffset, retainedOffset))
      ensures raised <==> Refusal(old(Current()), RecordGap(name, requiredOffset, retainedOffset)) == Some(UnknownName)
      ensures error == var refusal := Refusal(old(Current()), RecordGap(name, requiredOffset, retainedOffset));
                       if raised || refusal.None? then old(error) else refusal
    {
      if name !in destinations {
        return true;
      }
      raised := false;
      if retainedOffset <= requiredOffset {
        error := Some(Invalid);
        return;
      }
      var d := destinations[name];
      revision := revision + 1;
      destinations := destinations[name := d.(retainedOffset := retainedOffset,
                                              checkpointRevision := d.checkpointRevision + 1, state := Blocked)];
    }

    method AcceptGapAt(name: string, nextOffset: int, expectedCheckpoint: nat) returns (raised: bool)
      modifies this`revision, this`destinations, this`error
      ensures Current() == Step(old(Current()), AcceptGap(name, nextOffset, expectedCheckpoint))
      ensures raised <==> Refusal(old(Current()), AcceptGap(name, nextOffset, expectedCheckpoint)) == Some(UnknownName)
      ensures error == var refusal := Refusal(old(Current()), AcceptGap(name, nextOffset, expectedCheckpoint));
                       if raised || refusal.None? then old(error) else refusal
    {
      if name !in destinations {
        return true;
      }
      raised := false;
      var d := destinations[name];
      if d.checkpointRevision != expectedCheckpoint {
        error := Some(Conflict(revision));
        return;
      }
      if nextOffset < d.retainedOffset {
        error := Some(Invalid);
        return;
      }
      revision := revision + 1;
      destinations := destinations[name := d.(checkpointRevision := d.checkpointRevision + 1,
                                              state := Running, nextOffset := nextOffset)];
    }

    method SeedQuery(rows: seq<T>)
      modifies this`queryRows, this`queryCursor, this`queryCancelled
      ensures Valid() && queryRows == rows && queryCursor == 0 && !queryCancelled
    {
      queryRows, queryCursor, queryCancelled := rows, 0, false;
    }

    /** Consecutive pages tile the rows: each starts where the last ended, and the cursor is gone at the end. */
    method ReadPage(limit: nat) returns (page: Option<QueryPage<T>>)
      requires Valid()
      modifies this`queryCursor, this`error
      ensures Valid() && old(queryCursor) <= queryCursor
      ensures queryCancelled ==> page.None? && error == Some(Cancelled) && queryCursor == old(queryCursor)
      ensures !queryCancelled ==>
        && error == old(error) && page.Some?
        && queryRows[..queryCursor] == queryRows[..old(queryCursor)] + page.value.rows
        && (|page.value.rows| == limit || queryCursor == |queryRows|) && |page.value.rows| <= limit
        && page.value.cursor == if queryCursor < |queryRows| then Some(queryCursor) else None
    {
      if queryCancelled {
        error := Some(Cancelled);
        return None;
      }
      var start := queryCursor;
      var end := if start + limit <= |queryRows| then start + limit else |queryRows|;
      queryCursor := end;
      page := Some(QueryPage(queryRows[start..end], if end < |queryRows| then Some(end) else None));
    }
  }
}
