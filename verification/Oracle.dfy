/** The correctness oracle (bench/src/correctness.rs): an online checker whose verdict is a statement
    about the whole history of observed records. */
module Oracle {
  import opened Octets
  import opened Ordering
  import opened Wrappers

  datatype ObservedRecord = ObservedRecord(id: nat, partition: nat, partitionSequence: nat, payload: Bytes,
                                           checksum: Bytes)

  /** Identifiers that must appear, identifiers that may, and the digest of a payload. */
  datatype Contract = Contract(expected: set<nat>, explained: set<nat>, digest: Bytes -> Bytes)

  datatype Summary = Summary(
    observed: nat, missing: set<nat>, unexpected: seq<nat>, duplicates: seq<nat>,
    checksumFailures: seq<nat>, orderingViolations: seq<nat>, lateArrivals: seq<nat>)

  predicate SummaryValid(summary: Summary, allowDuplicates: bool) {
    && summary.missing == {}
    && summary.unexpected == []
    && (allowDuplicates || summary.duplicates == [])
    && summary.checksumFailures == []
    && summary.orderingViolations == []
  }

  // ----- Observing -----

  datatype State = State(seen: set<nat>, last: map<nat, nat>, summary: Summary)

  const START := State({}, map[], Summary(0, {}, [], [], [], [], []))

  predicate Intact(contract: Contract, record: ObservedRecord) {
    contract.digest(record.payload) == record.checksum
  }

  function AppendIf(ids: seq<nat>, condition: bool, id: nat): seq<nat> {
    if condition then ids + [id] else ids
  }

  function Observed(contract: Contract, state: State, record: ObservedRecord): State {
    var s, id := state.summary, record.id;
    if id in contract.explained then
      state.(summary := s.(observed := s.observed + 1,
                           lateArrivals := s.lateArrivals + [id],
                           checksumFailures := AppendIf(s.checksumFailures, !Intact(contract, record), id)))
    else
      var late := record.partition in state.last && record.partitionSequence <= state.last[record.partition];
      State(state.seen + {id},
            state.last[record.partition := record.partitionSequence],
            s.(observed := s.observed + 1,
               duplicates := AppendIf(s.duplicates, id in state.seen, id),
               unexpected := AppendIf(s.unexpected, id !in contract.expected, id),
               checksumFailures := AppendIf(s.checksumFailures, !Intact(contract, record), id),
               orderingViolations := AppendIf(s.orderingViolations, late, id)))
  }

  class CorrectnessOracle {
    const contract: Contract
    const allowDuplicates: bool
    var seen: set<nat>
    var last: map<nat, nat>
    var summary: Summary
    ghost var history: seq<ObservedRecord>

    ghost predicate Valid()
      reads this
    {
      State(seen, last, summary) == After(contract, history)
    }

    constructor (contract: Contract, allowDuplicates: bool)
      ensures Valid() && history == [] && this.contract == contract && this.allowDuplicates == allowDuplicates
    {
      this.contract, this.allowDuplicates := contract, allowDuplicates;
      seen, last, summary := {}, map[], Summary(0, {}, [], [], [], [], []);
      history := [];
    }

    method Observe(record: ObservedRecord)
      requires Valid()
      modifies this
      ensures Valid() && history == old(history) + [record]
    {
      history := history + [record];
      assert history[..|history| - 1] == old(history);
      var next := summary.(observed := summary.observed + 1);
      if !Intact(contract, record) {
        next := next.(checksumFailures := next.checksumFailures + [record.id]);
      }
      if record.id in contract.explained {
        summary := next.(lateArrivals := next.lateArrivals + [record.id]);
        return;
      }
      if record.id in seen {
        next := next.(duplicates := next.duplicates + [record.id]);
      }
      if record.id !in contract.expected {
        next := next.(unexpected := next.unexpected + [record.id]);
      }
      if record.partition in last && record.partitionSequence <= last[record.partition] {
        next := next.(orderingViolations := next.orderingViolations + [record.id]);
      }
      summary, seen, last := next, seen + {record.id}, last[record.partition := record.partitionSequence];
    }

    /** The verdict on the finished summary is the declarative one on the history. */
    method Finish() returns (result: Summary)
      requires Valid()
      ensures result == Verdict(contract, history)
      ensures SummaryValid(result, allowDuplicates) <==> Conforms(contract, history, allowDuplicates)
    {
      VerdictIffConforms(contract, history, allowDuplicates);
      result := summary.(missing := contract.expected - seen);
    }
  }

  // ----- Histories -----

  ghost function After(contract: Contract, records: seq<ObservedRecord>): State {
    if records == [] then START
    else Observed(contract, After(contract, records[..|records| - 1]), records[|records| - 1])
  }

  ghost function Verdict(contract: Contract, records: seq<ObservedRecord>): Summary {
    var state := After(contract, records);
    state.summary.(missing := contract.expected - state.seen)
  }

  /** The records that count: all but the explained ones. */
  ghost function Counted(contract: Contract, records: seq<ObservedRecord>): seq<ObservedRecord> {
    if records == [] then []
    else
      var record := records[|records| - 1];
      Counted(contract, records[..|records| - 1]) + (if record.id in contract.explained then [] else [record])
  }

  ghost function InPartition(records: seq<ObservedRecord>, partition: nat): seq<ObservedRecord> {
    if records == [] then []
    else
      var record := records[|records| - 1];
      InPartition(records[..|records| - 1], partition) + (if record.partition == partition then [record] else [])
  }

  ghost predicate Increasing(records: seq<ObservedRecord>) {
    forall i, j :: 0 <= i < j < |records| ==> records[i].partitionSequence < records[j].partitionSequence
  }

  ghost function Occurrences(records: seq<ObservedRecord>, id: nat): nat {
    if records == [] then 0
    else Occurrences(records[..|records| - 1], id) + (if records[|records| - 1].id == id then 1 else 0)
  }

  /** What a history must satisfy: the counted records carry every expected identifier, once unless
      duplicates are allowed, and no other; every payload is intact; and each partition ascends. */
  ghost predicate Conforms(contract: Contract, records: seq<ObservedRecord>, allowDuplicates: bool) {
    var counted := Counted(contract, records);
    && (forall id :: id in contract.expected <==> Occurrences(counted, id) > 0)
    && (allowDuplicates || forall id :: Occurrences(counted, id) <= 1)
    && (forall i :: 0 <= i < |records| ==> Intact(contract, records[i]))
    && Ordered(counted)
  }

  // ----- The verdict is the declarative one -----

  /** What the running state says about the counted records so far. */
  ghost predicate Describes(state: State, contract: Contract, counted: seq<ObservedRecord>) {
    var s := state.summary;
    && (forall id :: id in state.seen <==> Occurrences(counted, id) > 0)
    && (s.unexpected == [] <==> forall id :: Occurrences(counted, id) > 0 ==> id in contract.expected)
    && (s.duplicates == [] <==> forall id :: Occurrences(counted, id) <= 1)
  }

  lemma OccurrencesAppend(counted: seq<ObservedRecord>, record: ObservedRecord)
    ensures forall id ::
      Occurrences(counted + [record], id) == Occurrences(counted, id) + (if record.id == id then 1 else 0)
  {
    assert (counted + [record])[..|counted|] == counted;
  }

  lemma DescribeStep(contract: Contract, state: State, counted: seq<ObservedRecord>, record: ObservedRecord)
    requires Describes(state, contract, counted) && record.id !in contract.explained
    ensures Describes(Observed(contract, state, record), contract, counted + [record])
  {
    OccurrencesAppend(counted, record);
  }

  lemma {:induction false} StateDescribes(contract: Contract, records: seq<ObservedRecord>)
    ensures Describes(After(contract, records), contract, Counted(contract, records))
  {
    if records != [] {
      var n := |records| - 1;
      var before := Counted(contract, records[..n]);
      StateDescribes(contract, records[..n]);
      if records[n].id in contract.explained {
        assert Counted(contract, records) == before;
      } else {
        DescribeStep(contract, After(contract, records[..n]), before, records[n]);
      }
    }
  }

  lemma {:induction false} ChecksumsDescribe(contract: Contract, records: seq<ObservedRecord>)
    ensures After(contract, records).summary.checksumFailures == []
        <==> forall i :: 0 <= i < |records| ==> Intact(contract, records[i])
  {
    if records != [] {
      ChecksumsDescribe(contract, records[..|records| - 1]);
    }
  }

  ghost function Newest(records: seq<ObservedRecord>, p: nat): Option<nat> {
    var inner := InPartition(records, p);
    if inner == [] then None else Some(inner[|inner| - 1].partitionSequence)
  }

  ghost predicate Ordered(records: seq<ObservedRecord>) {
    forall partition :: Increasing(InPartition(records, partition))
  }

  function Lookup(last: map<nat, nat>, p: nat): Option<nat> {
    if p in last then Some(last[p]) else None
  }

  /** `last` holds the newest counted sequence number of each partition, and an ordering violation is
      recorded exactly when some partition fails to ascend. */
  ghost predicate DescribesOrder(state: State, counted: seq<ObservedRecord>) {
    && (forall p :: Lookup(state.last, p) == Newest(counted, p))
    && (state.summary.orderingViolations == [] <==> Ordered(counted))
  }

  lemma IncreasingAppend(records: seq<ObservedRecord>, record: ObservedRecord)
    ensures Increasing(records + [record]) <==>
      Increasing(records) && (records != [] ==> records[|records| - 1].partitionSequence < record.partitionSequence)
  {
    var all := records + [record];
    if Increasing(all) {
      forall i, j | 0 <= i < j < |records| ensures records[i].partitionSequence < records[j].partitionSequence {
        assert all[i].partitionSequence < all[j].partitionSequence;
      }
      assert records != [] ==> all[|records| - 1].partitionSequence < all[|records|].partitionSequence;
    }
  }

  lemma InPartitionAppend(records: seq<ObservedRecord>, record: ObservedRecord, p: nat)
    ensures InPartition(records + [record], p)
         == if record.partition == p then InPartition(records, p) + [record] else InPartition(records, p)
  {
  }

  lemma OrderedAppend(records: seq<ObservedRecord>, record: ObservedRecord)
    ensures Ordered(records + [record]) <==>
      && Ordered(records)
      && (Newest(records, record.partition).Some? ==>
            Newest(records, record.partition).value < record.partitionSequence)
  {
    var p, all := record.partition, records + [record];
    InPartitionAppend(records, record, p);
    IncreasingAppend(InPartition(records, p), record);
    if Ordered(all) {
      forall q ensures Increasing(InPartition(records, q)) {
        InPartitionAppend(records, record, q);
        assert Increasing(InPartition(all, q));
      }
      assert Increasing(InPartition(all, p));
    }
    if Ordered(records) && Increasing(InPartition(all, p)) {
      forall q ensures Increasing(InPartition(all, q)) {
        InPartitionAppend(records, record, q);
        assert Increasing(InPartition(records, q));
      }
    }
  }

  lemma OrderStep(contract: Contract, state: State, counted: seq<ObservedRecord>, record: ObservedRecord)
    requires DescribesOrder(state, counted) && record.id !in contract.explained
    ensures DescribesOrder(Observed(contract, state, record), counted + [record])
  {
    var p, after := record.partition, Observed(contract, state, record);
    forall q ensures Lookup(after.last, q) == Newest(counted + [record], q) {
      InPartitionAppend(counted, record, q);
      assert Lookup(state.last, q) == Newest(counted, q);
    }
    OrderedAppend(counted, record);
    assert Lookup(state.last, p) == Newest(counted, p);
  }

  lemma {:induction false} OrderDescribes(contract: Contract, records: seq<ObservedRecord>)
    ensures DescribesOrder(After(contract, records), Counted(contract, records))
  {
    if records != [] {
      var n := |records| - 1;
      var before := Counted(contract, records[..n]);
      OrderDescribes(contract, records[..n]);
      if records[n].id in contract.explained {
        assert Counted(contract, records) == before;
      } else {
        OrderStep(contract, After(contract, records[..n]), before, records[n]);
      }
    }
  }

  lemma VerdictIffConforms(contract: Contract, records: seq<ObservedRecord>, allowDuplicates: bool)
    ensures SummaryValid(Verdict(contract, records), allowDuplicates) <==> Conforms(contract, records, allowDuplicates)
  {
    StateDescribes(contract, records);
    ChecksumsDescribe(contract, records);
    OrderDescribes(contract, records);
    NothingMissing(contract.expected, After(contract, records).seen);
  }

  lemma NothingMissing(expected: set<nat>, seen: set<nat>)
    ensures expected - seen == {} <==> forall id :: id in expected ==> id in seen
  {
    if expected - seen == {} {
      forall id | id in expected ensures id in seen {
        assert id !in expected - seen;
      }
    }
  }

  // ----- Interleavings -----

  ghost predicate SamePartitions(xs: seq<ObservedRecord>, ys: seq<ObservedRecord>) {
    forall p :: InPartition(xs, p) == InPartition(ys, p)
  }

  lemma {:induction false} PartitionHolds(records: seq<ObservedRecord>, x: ObservedRecord)
    ensures multiset(records)[x] == multiset(InPartition(records, x.partition))[x]
  {
    if records != [] {
      var n := |records| - 1;
      PartitionHolds(records[..n], x);
      assert records == records[..n] + [records[n]];
    }
  }

  lemma InterleavingsPermute(xs: seq<ObservedRecord>, ys: seq<ObservedRecord>)
    requires SamePartitions(xs, ys)
    ensures multiset(xs) == multiset(ys)
  {
    forall x ensures multiset(xs)[x] == multiset(ys)[x] {
      PartitionHolds(xs, x);
      PartitionHolds(ys, x);
      assert InPartition(xs, x.partition) == InPartition(ys, x.partition);
    }
  }

  lemma {:induction false} CountedPartition(contract: Contract, records: seq<ObservedRecord>, p: nat)
    ensures InPartition(Counted(contract, records), p) == Counted(contract, InPartition(records, p))
  {
    if records != [] {
      var n := |records| - 1;
      CountedPartition(contract, records[..n], p);
      var before, inner := Counted(contract, records[..n]), InPartition(records[..n], p);
      if records[n].id !in contract.explained {
        assert (before + [records[n]])[..|before|] == before;
      } else {
        assert before + [] == before;
      }
      if records[n].partition == p {
        assert (inner + [records[n]])[..|inner|] == inner;
      } else {
        assert inner + [] == inner;
      }
    }
  }

  lemma {:induction false} OccurrencesRemove(xs: seq<ObservedRecord>, k: nat, id: nat)
    requires k < |xs|
    ensures Occurrences(xs, id) == Occurrences(xs[..k] + xs[k + 1..], id) + if xs[k].id == id then 1 else 0
    decreases |xs|
  {
    var n := |xs| - 1;
    if k == n {
      assert xs[..k] + xs[k + 1..] == xs[..n];
    } else {
      OccurrencesRemove(xs[..n], k, id);
      RemoveThenLast(xs, k);
    }
  }

  lemma {:induction false} OccurrencesPermute(xs: seq<ObservedRecord>, ys: seq<ObservedRecord>, id: nat)
    requires multiset(xs) == multiset(ys)
    ensures Occurrences(xs, id) == Occurrences(ys, id)
    decreases |xs|
  {
    if xs == [] {
      assert |multiset(ys)| == 0;
    } else {
      var k := PartnerOfLast(xs, ys);
      OccurrencesRemove(ys, k, id);
      OccurrencesPermute(xs[..|xs| - 1], ys[..k] + ys[k + 1..], id);
    }
  }

  lemma InterleavedConforms(contract: Contract, xs: seq<ObservedRecord>, ys: seq<ObservedRecord>, allowDuplicates: bool)
    requires SamePartitions(xs, ys) && Conforms(contract, xs, allowDuplicates)
    ensures Conforms(contract, ys, allowDuplicates)
  {
    var cx, cy := Counted(contract, xs), Counted(contract, ys);
    forall p ensures InPartition(cx, p) == InPartition(cy, p) {
      CountedPartition(contract, xs, p);
      CountedPartition(contract, ys, p);
    }
    InterleavingsPermute(cx, cy);
    forall id ensures Occurrences(cx, id) == Occurrences(cy, id) {
      OccurrencesPermute(cx, cy, id);
    }
    InterleavingsPermute(xs, ys);
    forall i | 0 <= i < |ys| ensures Intact(contract, ys[i]) {
      assert ys[i] in multiset(xs);
    }
  }

  /** Histories that agree partition by partition get the same verdict, however they interleave. */
  lemma InterleavingsAgree(contract: Contract, xs: seq<ObservedRecord>, ys: seq<ObservedRecord>, allowDuplicates: bool)
    requires SamePartitions(xs, ys)
    ensures SummaryValid(Verdict(contract, xs), allowDuplicates) <==>
      SummaryValid(Verdict(contract, ys), allowDuplicates)
  {
    VerdictIffConforms(contract, xs, allowDuplicates);
    VerdictIffConforms(contract, ys, allowDuplicates);
    if Conforms(contract, xs, allowDuplicates) {
      InterleavedConforms(contract, xs, ys, allowDuplicates);
    }
    if Conforms(contract, ys, allowDuplicates) {
      InterleavedConforms(contract, ys, xs, allowDuplicates);
    }
  }
}
