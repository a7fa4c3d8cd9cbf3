/** What a run of the load engine (bench/src/engine.rs) must report, given its decisions and how each
    task ended. Tasks are numbered by the arrival they serve, and may be joined in any order. */
module LoadEngine {
  import opened Wrappers
  import opened Ordering
  import opened LoadAccounting

  /** How each task ends, by sequence number: a reading, or `None` for a task that fails to join. */
  datatype Behaviour = Behaviour(end: nat -> Option<Reading>) {
    function At(i: nat): Option<Reading> {
      end(i)
    }
  }

  datatype Failure = Invalid | TaskFailed | HistogramOverflow | SequenceOverflow

  // ----- The result a run must have -----

  predicate IsDispatched(arrived: seq<Arrival>, i: nat) {
    i < |arrived| && arrived[i].dispatched
  }

  /** The samples of the dispatched arrivals, in schedule order. */
  ghost function Expected(arrived: seq<Arrival>, ends: Behaviour): seq<OperationSample> {
    if arrived == [] then []
    else
      var n := |arrived| - 1;
      Expected(arrived[..n], ends)
      + (if arrived[n].dispatched && ends.At(n).Some? then [OperationSample(n, ends.At(n).value)] else [])
  }

  /** Everything a result reports is a function of the decisions and of how each task ended; the
      order in which tasks completed leaves no trace. */
  ghost predicate Accounts(result: LoadResult, arrived: seq<Arrival>, ends: Behaviour) {
    var expected := Expected(arrived, ends);
    && (forall i: nat :: IsDispatched(arrived, i) ==> ends.At(i).Some?)
    && result.successfulSequences == Successes(expected)
    && result.samples == Failures(expected)
    && CountsAre(result.outcomes, arrived, expected)
    && SeriesIs(result.timeSeries, arrived, expected)
    && result.schedulerLateness == |expected|
    && result.scheduledResponse == result.service == |result.successfulSequences|
    && result.failedService == |result.samples|
  }

  lemma {:induction false} ExpectedMembers(arrived: seq<Arrival>, ends: Behaviour)
    ensures
      var expected := Expected(arrived, ends);
      && (forall x :: x in expected <==> IsDispatched(arrived, x.sequence) && ends.At(x.sequence) == Some(x.reading))
      && (forall k, l :: 0 <= k < l < |expected| ==> expected[k].sequence < expected[l].sequence)
  {
    if arrived != [] {
      var n := |arrived| - 1;
      var before := Expected(arrived[..n], ends);
      ExpectedMembers(arrived[..n], ends);
      assert forall k :: 0 <= k < |before| ==> before[k] in before;
    }
  }

  // ----- Joined in any order -----

  /** The task was dispatched and is not among those held. */
  predicate Finished(arrived: seq<Arrival>, held: set<nat>, i: nat) {
    IsDispatched(arrived, i) && i !in held
  }

  /** The joined samples are those of the finished tasks, each once. */
  ghost predicate JoinedFrom(joined: seq<OperationSample>, arrived: seq<Arrival>, held: set<nat>, ends: Behaviour) {
    && (forall k, l :: 0 <= k < l < |joined| ==> joined[k].sequence != joined[l].sequence)
    && (forall x {:trigger x in joined} ::
          x in joined <==> Finished(arrived, held, x.sequence) && ends.At(x.sequence) == Some(x.reading))
    && (forall i: nat {:trigger Finished(arrived, held, i)} :: Finished(arrived, held, i) ==> ends.At(i).Some?)
  }

  lemma JoinOneMore(joined: seq<OperationSample>, arrived: seq<Arrival>, held: set<nat>, ends: Behaviour, i: nat)
    requires JoinedFrom(joined, arrived, held, ends) && IsDispatched(arrived, i) && i in held && ends.At(i).Some?
    ensures JoinedFrom(joined + [OperationSample(i, ends.At(i).value)], arrived, held - {i}, ends)
  {
    var all := joined + [OperationSample(i, ends.At(i).value)];
    assert forall k: nat :: Finished(arrived, held - {i}, k) <==> Finished(arrived, held, k) || k == i;
    assert forall x :: x in all <==> x in joined || x == OperationSample(i, ends.At(i).value);
    forall k | 0 <= k < |joined| ensures joined[k].sequence != i {
      assert joined[k] in joined;
    }
  }

  /** A decision leaves the finished tasks as they are: a task it dispatches is held. */
  lemma DecideOneMore(arrived: seq<Arrival>, last: Arrival, held: set<nat>, i: nat)
    ensures Finished(arrived + [last], held + (if last.dispatched then {|arrived|} else {}), i) <==>
      Finished(arrived, held, i)
  {
  }

  lemma JoinedIsExpected(joined: seq<OperationSample>, arrived: seq<Arrival>, ends: Behaviour)
    requires JoinedFrom(joined, arrived, {}, ends)
    ensures multiset(joined) == multiset(Expected(arrived, ends))
  {
    var expected := Expected(arrived, ends);
    ExpectedMembers(arrived, ends);
    assert Distinct(joined);
    assert Distinct(expected);
    SameMembersPermute(joined, expected);
  }

  // ----- Sums and lists do not depend on the order -----

  lemma {:induction false} TallyRemove(xs: seq<OperationSample>, k: nat, second: Option<nat>, field: Field)
    requires k < |xs|
    ensures TallySamples(xs, second, field) == TallySamples(xs[..k] + xs[k + 1..], second, field)
      + if Within(xs[k].reading.completedElapsedNs, second) then SampleAdds(xs[k], field) else 0
    decreases |xs|
  {
    var n := |xs| - 1;
    if k == n {
      assert xs[..k] + xs[k + 1..] == xs[..n];
    } else {
      TallyRemove(xs[..n], k, second, field);
      RemoveThenLast(xs, k);
    }
  }

  lemma {:induction false} TallyPermutes(xs: seq<OperationSample>, ys: seq<OperationSample>, second: Option<nat>,
                                         field: Field)
    requires multiset(xs) == multiset(ys)
    ensures TallySamples(xs, second, field) == TallySamples(ys, second, field)
    decreases |xs|
  {
    if xs == [] {
      assert |multiset(ys)| == 0;
    } else {
      var k := PartnerOfLast(xs, ys);
      TallyRemove(ys, k, second, field);
      TallyPermutes(xs[..|xs| - 1], ys[..k] + ys[k + 1..], second, field);
    }
  }

  lemma {:induction false} SuccessesMembers(xs: seq<OperationSample>)
    requires forall k, l :: 0 <= k < l < |xs| ==> xs[k].sequence != xs[l].sequence
    ensures Distinct(Successes(xs))
    ensures forall i :: i in Successes(xs) <==> exists x :: x in xs && x.sequence == i && x.reading.outcome.Successful?
  {
    if xs != [] {
      var n := |xs| - 1;
      SuccessesMembers(xs[..n]);
      assert forall x :: x in xs <==> x in xs[..n] || x == xs[n];
      forall k | 0 <= k < |Successes(xs[..n])| ensures Successes(xs[..n])[k] != xs[n].sequence {
        assert Successes(xs[..n])[k] in Successes(xs[..n]);
      }
    }
  }

  lemma {:induction false} FailuresMembers(xs: seq<OperationSample>)
    requires forall k, l :: 0 <= k < l < |xs| ==> xs[k].sequence != xs[l].sequence
    ensures Distinct(Failures(xs))
    ensures forall x :: x in Failures(xs) <==> x in xs && !x.reading.outcome.Successful?
  {
    if xs != [] {
      var n := |xs| - 1;
      FailuresMembers(xs[..n]);
      assert forall x :: x in xs <==> x in xs[..n] || x == xs[n];
      forall k | 0 <= k < |Failures(xs[..n])| ensures Failures(xs[..n])[k] != xs[n] {
        assert Failures(xs[..n])[k] in Failures(xs[..n]);
      }
    }
  }

  lemma {:induction false} ListsAscend(xs: seq<OperationSample>)
    requires forall k, l :: 0 <= k < l < |xs| ==> xs[k].sequence < xs[l].sequence
    ensures forall k, l :: 0 <= k < l < |Successes(xs)| ==> Successes(xs)[k] < Successes(xs)[l]
    ensures forall k, l :: 0 <= k < l < |Failures(xs)| ==> Failures(xs)[k].sequence < Failures(xs)[l].sequence
    ensures forall k :: 0 <= k < |Successes(xs)| ==> xs != [] && Successes(xs)[k] <= xs[|xs| - 1].sequence
    ensures forall k :: 0 <= k < |Failures(xs)| ==> xs != [] && Failures(xs)[k].sequence <= xs[|xs| - 1].sequence
  {
    if xs == [] {
      assert Successes(xs) == [] && Failures(xs) == [];
    } else {
      var n := |xs| - 1;
      var init := xs[..n];
      ListsAscend(init);
      assert init != [] ==> init[|init| - 1] == xs[n - 1] && xs[n - 1].sequence < xs[n].sequence;
    }
  }

  lemma ListsPermute(joined: seq<OperationSample>, arrived: seq<Arrival>, ends: Behaviour)
    requires JoinedFrom(joined, arrived, {}, ends)
    ensures multiset(Successes(joined)) == multiset(Successes(Expected(arrived, ends)))
    ensures multiset(Failures(joined)) == multiset(Failures(Expected(arrived, ends)))
  {
    var expected := Expected(arrived, ends);
    ExpectedMembers(arrived, ends);
    assert forall x :: x in joined <==> x in expected;
    SuccessesMembers(joined);
    SuccessesMembers(expected);
    SameMembersPermute(Successes(joined), Successes(expected));
    FailuresMembers(joined);
    FailuresMembers(expected);
    SameMembersPermute(Failures(joined), Failures(expected));
  }

  /** Whatever the order of joining, the ascending list of successes is the one in schedule order. */
  lemma SuccessesSorted(sorted: seq<nat>, joined: seq<OperationSample>, arrived: seq<Arrival>, ends: Behaviour)
    requires JoinedFrom(joined, arrived, {}, ends)
    requires SortedBy(sorted, NatLeq) && multiset(sorted) == multiset(Successes(joined))
    ensures sorted == Successes(Expected(arrived, ends))
  {
    ListsPermute(joined, arrived, ends);
    ExpectedMembers(arrived, ends);
    ListsAscend(Expected(arrived, ends));
    SortedPermutationUnique(sorted, Successes(Expected(arrived, ends)), NatLeq);
  }

  lemma FailuresSorted(sorted: seq<OperationSample>, joined: seq<OperationSample>, arrived: seq<Arrival>,
                       ends: Behaviour)
    requires JoinedFrom(joined, arrived, {}, ends)
    requires SortedBy(sorted, SequenceLeq) && multiset(sorted) == multiset(Failures(joined))
    ensures sorted == Failures(Expected(arrived, ends))
  {
    var failures := Failures(Expected(arrived, ends));
    ListsPermute(joined, arrived, ends);
    ExpectedMembers(arrived, ends);
    ListsAscend(Expected(arrived, ends));
    AscendingSeparates(failures);
    SortedPermutationUnique(failures, sorted, SequenceLeq);
  }

  lemma AscendingSeparates(xs: seq<OperationSample>)
    requires forall k, l :: 0 <= k < l < |xs| ==> xs[k].sequence < xs[l].sequence
    ensures forall a, b :: a in xs && b in xs && SequenceLeq(a, b) && SequenceLeq(b, a) ==> a == b
    ensures SortedBy(xs, SequenceLeq)
  {
  }

  lemma LengthsAgree(joined: seq<OperationSample>, arrived: seq<Arrival>, ends: Behaviour)
    requires JoinedFrom(joined, arrived, {}, ends)
    ensures |joined| == |Expected(arrived, ends)|
  {
    JoinedIsExpected(joined, arrived, ends);
    assert |multiset(joined)| == |multiset(Expected(arrived, ends))|;
  }

  lemma CountsPermute(counts: Counts, series: Series, arrived: seq<Arrival>, joined: seq<OperationSample>,
                      other: seq<OperationSample>)
    requires multiset(joined) == multiset(other)
    requires CountsAre(counts, arrived, joined) && SeriesIs(series, arrived, joined)
    ensures CountsAre(counts, arrived, other) && SeriesIs(series, arrived, other)
  {
    forall f ensures Get(counts, f) == Total(series, f) == Tally(arrived, other, None, f) {
      TallyPermutes(joined, other, None, f);
    }
    forall s, f ensures CountAt(series, s, f) == Tally(arrived, other, Some(s), f) {
      TallyPermutes(joined, other, Some(s), f);
      assert CountAt(series, s, f) == Tally(arrived, joined, Some(s), f);
    }
  }

  /** Once every dispatched task is joined, in whatever order, a report of the history accounts for the run. */
  lemma FinishedAccounts(result: LoadResult, joined: seq<OperationSample>, arrived: seq<Arrival>, ends: Behaviour)
    requires JoinedFrom(joined, arrived, {}, ends) && Summarizes(result, arrived, joined)
    ensures Accounts(result, arrived, ends)
  {
    SuccessesSorted(result.successfulSequences, joined, arrived, ends);
    FailuresSorted(result.samples, joined, arrived, ends);
    LengthsAgree(joined, arrived, ends);
    JoinedIsExpected(joined, arrived, ends);
    CountsPermute(result.outcomes, result.timeSeries, arrived, joined, Expected(arrived, ends));
    forall i: nat | IsDispatched(arrived, i) ensures ends.At(i).Some? {
      assert Finished(arrived, {}, i);
    }
  }

  // ----- What the accounts add up to -----

  lemma {:induction false} ArrivalSums(arrived: seq<Arrival>)
    ensures TallyArrivals(arrived, None, Offered) == |arrived|
    ensures TallyArrivals(arrived, None, Dispatched) + TallyArrivals(arrived, None, Missed) == |arrived|
    ensures TallyArrivals(arrived, None, Completed) == TallyArrivals(arrived, None, SuccessfulField) == 0
    ensures TallyArrivals(arrived, None, FailedField) == TallyArrivals(arrived, None, TimedOutField) == 0
  {
    if arrived != [] {
      ArrivalSums(arrived[..|arrived| - 1]);
    }
  }

  lemma {:induction false} SampleSums(xs: seq<OperationSample>)
    ensures TallySamples(xs, None, Completed) == |xs|
    ensures TallySamples(xs, None, SuccessfulField) == |Successes(xs)|
    ensures TallySamples(xs, None, FailedField) + TallySamples(xs, None, TimedOutField) == |Failures(xs)|
    ensures |Successes(xs)| + |Failures(xs)| == |xs|
    ensures TallySamples(xs, None, Offered) == 0
    ensures TallySamples(xs, None, Dispatched) == TallySamples(xs, None, Missed) == 0
  {
    if xs != [] {
      SampleSums(xs[..|xs| - 1]);
    }
  }

  lemma {:induction false} DispatchedSum(arrived: seq<Arrival>, ends: Behaviour)
    requires forall i: nat :: IsDispatched(arrived, i) ==> ends.At(i).Some?
    ensures TallyArrivals(arrived, None, Dispatched) == |Expected(arrived, ends)|
  {
    if arrived != [] {
      DispatchedSum(arrived[..|arrived| - 1], ends);
    }
  }

  /** Nothing is lost or counted twice: every offered arrival is dispatched or missed, every dispatched
      one completes in exactly one way, and the two lists split the dispatched sequence numbers. */
  lemma {:induction false} AccountsBalance(result: LoadResult, arrived: seq<Arrival>, ends: Behaviour)
    requires Accounts(result, arrived, ends)
    ensures
      var o := result.outcomes;
      && o.offered == |arrived| == o.dispatched + o.missed
      && o.dispatched == o.completed == o.successful + o.failed + o.timedOut
      && |result.successfulSequences| == o.successful && |result.samples| == o.failed + o.timedOut
      && result.schedulerLateness == o.completed && result.service == o.successful
      && result.failedService == o.failed + o.timedOut
    ensures forall f :: Total(result.timeSeries, f) == Get(result.outcomes, f)
  {
    var expected, o := Expected(arrived, ends), result.outcomes;
    ArrivalSums(arrived);
    SampleSums(expected);
    DispatchedSum(arrived, ends);
    forall f ensures Get(o, f) == Tally(arrived, expected, None, f) {
    }
    assert o.offered == Get(o, Offered) && o.dispatched == Get(o, Dispatched) && o.missed == Get(o, Missed);
    assert o.completed == Get(o, Completed) && o.successful == Get(o, SuccessfulField);
    assert o.failed == Get(o, FailedField) && o.timedOut == Get(o, TimedOutField);
  }

  /** Both lists ascend, and together they name exactly the dispatched arrivals, each on one side. */
  lemma AccountsPartition(result: LoadResult, arrived: seq<Arrival>, ends: Behaviour)
    requires Accounts(result, arrived, ends)
    ensures forall k, l :: 0 <= k < l < |result.successfulSequences| ==>
      result.successfulSequences[k] < result.successfulSequences[l]
    ensures forall k, l :: 0 <= k < l < |result.samples| ==> result.samples[k].sequence < result.samples[l].sequence
    ensures forall i: nat :: i in result.successfulSequences <==>
      IsDispatched(arrived, i) && ends.At(i).Some? && ends.At(i).value.outcome.Successful?
    ensures forall x :: x in result.samples <==>
      IsDispatched(arrived, x.sequence) && ends.At(x.sequence) == Some(x.reading) && !x.reading.outcome.Successful?
  {
    var expected := Expected(arrived, ends);
    ExpectedMembers(arrived, ends);
    ListsAscend(expected);
    SuccessesMembers(expected);
    FailuresMembers(expected);
    forall i: nat | IsDispatched(arrived, i) && ends.At(i).Some? && ends.At(i).value.outcome.Successful?
      ensures i in Successes(expected)
    {
      assert OperationSample(i, ends.At(i).value) in expected;
    }
  }
}
