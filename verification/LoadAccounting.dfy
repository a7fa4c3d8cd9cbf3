/** The accumulator of the load engine (bench/src/engine.rs, `LoadAccumulator`): counters, lists, a
    per-second series and histogram sizes, each kept equal to a count over what was recorded. */
module LoadAccounting {
  import opened Wrappers
  import opened Ordering

  datatype OperationOutcome = Successful | Failed | TimedOut

  /** What a finished task reports besides its sequence number. */
  datatype Reading = Reading(
    completedElapsedNs: nat, scheduledResponseNs: nat, serviceNs: nat, latenessNs: nat,
    outcome: OperationOutcome, error: Option<string>)

  datatype OperationSample = OperationSample(sequence: nat, reading: Reading)

  datatype Counts = Counts(
    offered: nat, dispatched: nat, completed: nat, successful: nat, failed: nat, timedOut: nat, missed: nat)

  datatype Field = Offered | Dispatched | Completed | SuccessfulField | FailedField | TimedOutField | Missed

  function Get(counts: Counts, field: Field): nat {
    match field
    case Offered => counts.offered
    case Dispatched => counts.dispatched
    case Completed => counts.completed
    case SuccessfulField => counts.successful
    case FailedField => counts.failed
    case TimedOutField => counts.timedOut
    case Missed => counts.missed
  }

  datatype Point = Point(counts: Counts, maxInFlight: nat)

  type Series = map<nat, Point>

  /** A decided arrival: when it was scheduled, whether it was dispatched, and the tasks then held. */
  datatype Arrival = Arrival(at: nat, dispatched: bool, inFlight: nat)

  // ----- What is counted -----

  function SecondOf(ns: nat): nat {
    ns / 1_000_000_000
  }

  predicate Within(at: nat, second: Option<nat>) {
    second.None? || second.value == SecondOf(at)
  }

  /** What one arrival adds to a counter. */
  function ArrivalAdds(arrival: Arrival, field: Field): nat {
    match field
    case Offered => 1
    case Dispatched => if arrival.dispatched then 1 else 0
    case Missed => if arrival.dispatched then 0 else 1
    case _ => 0
  }

  /** What one joined task adds to a counter. */
  function SampleAdds(sample: OperationSample, field: Field): nat {
    match field
    case Completed => 1
    case SuccessfulField => if sample.reading.outcome.Successful? then 1 else 0
    case FailedField => if sample.reading.outcome.Failed? then 1 else 0
    case TimedOutField => if sample.reading.outcome.TimedOut? then 1 else 0
    case _ => 0
  }

  /** The arrivals counted over one second, or over the whole run. */
  ghost function TallyArrivals(arrived: seq<Arrival>, second: Option<nat>, field: Field): nat {
    if arrived == [] then 0
    else
      var last := arrived[|arrived| - 1];
      TallyArrivals(arrived[..|arrived| - 1], second, field)
      + (if Within(last.at, second) then ArrivalAdds(last, field) else 0)
  }

  ghost function TallySamples(joined: seq<OperationSample>, second: Option<nat>, field: Field): nat {
    if joined == [] then 0
    else
      var last := joined[|joined| - 1];
      TallySamples(joined[..|joined| - 1], second, field)
      + (if Within(last.reading.completedElapsedNs, second) then SampleAdds(last, field) else 0)
  }

  ghost function Tally(arrived: seq<Arrival>, joined: seq<OperationSample>, second: Option<nat>, field: Field): nat {
    TallyArrivals(arrived, second, field) + TallySamples(joined, second, field)
  }

  /** The most tasks held at an arrival scheduled in the second. */
  ghost function Peak(arrived: seq<Arrival>, second: nat): nat {
    if arrived == [] then 0
    else
      var last, before := arrived[|arrived| - 1], Peak(arrived[..|arrived| - 1], second);
      if Within(last.at, Some(second)) && last.inFlight > before then last.inFlight else before
  }

  ghost function Successes(joined: seq<OperationSample>): seq<nat> {
    if joined == [] then []
    else
      var last := joined[|joined| - 1];
      Successes(joined[..|joined| - 1]) + (if last.reading.outcome.Successful? then [last.sequence] else [])
  }

  ghost function Failures(joined: seq<OperationSample>): seq<OperationSample> {
    if joined == [] then []
    else
      var last := joined[|joined| - 1];
      Failures(joined[..|joined| - 1]) + (if last.reading.outcome.Successful? then [] else [last])
  }

  // ----- The series -----

  function PointAt(series: Series, second: nat): Point {
    if second in series then series[second] else Point(Counts(0, 0, 0, 0, 0, 0, 0), 0)
  }

  function CountAt(series: Series, second: nat, field: Field): nat {
    Get(PointAt(series, second).counts, field)
  }

  function PeakAt(series: Series, second: nat): nat {
    PointAt(series, second).maxInFlight
  }

  ghost function Total(series: Series, field: Field): nat {
    if series == map[] then 0
    else
      var second :| second in series;
      Get(series[second].counts, field) + Total(series - {second}, field)
  }

  lemma {:induction false} TotalRemove(series: Series, second: nat, field: Field)
    requires second in series
    ensures Total(series, field) == Get(series[second].counts, field) + Total(series - {second}, field)
    decreases |series|
  {
    var first :| first in series &&
      Total(series, field) == Get(series[first].counts, field) + Total(series - {first}, field);
    if first != second {
      TotalRemove(series - {first}, second, field);
      TotalRemove(series - {second}, first, field);
      assert (series - {first}) - {second} == (series - {second}) - {first};
    }
  }

  lemma TotalUpdate(series: Series, second: nat, point: Point, field: Field)
    ensures Total(series[second := point], field) + CountAt(series, second, field)
         == Total(series, field) + Get(point.counts, field)
  {
    var updated := series[second := point];
    TotalRemove(updated, second, field);
    if second in series {
      TotalRemove(series, second, field);
      assert updated - {second} == series - {second};
    } else {
      assert updated - {second} == series;
    }
  }

  lemma TallyArrival(arrived: seq<Arrival>, joined: seq<OperationSample>, arrival: Arrival, second: Option<nat>,
                     field: Field)
    ensures Tally(arrived + [arrival], joined, second, field)
         == Tally(arrived, joined, second, field)
             + if Within(arrival.at, second) then ArrivalAdds(arrival, field) else 0
  {
  }

  lemma TallySample(arrived: seq<Arrival>, joined: seq<OperationSample>, sample: OperationSample, second: Option<nat>,
                    field: Field)
    ensures Tally(arrived, joined + [sample], second, field)
         == Tally(arrived, joined, second, field)
            + if Within(sample.reading.completedElapsedNs, second) then SampleAdds(sample, field) else 0
  {
  }

  lemma PeakArrival(arrived: seq<Arrival>, arrival: Arrival, second: nat)
    ensures Peak(arrived + [arrival], second)
         == if Within(arrival.at, Some(second)) && arrival.inFlight > Peak(arrived, second) then arrival.inFlight
            else Peak(arrived, second)
  {
  }

  lemma AppendSample(joined: seq<OperationSample>, sample: OperationSample)
    ensures Successes(joined + [sample])
        == Successes(joined) + if sample.reading.outcome.Successful? then [sample.sequence] else []
    ensures Failures(joined + [sample])
        == Failures(joined) + if sample.reading.outcome.Successful? then [] else [sample]
  {
  }

  /** The counters of the whole run. */
  ghost predicate CountsAre(counts: Counts, arrived: seq<Arrival>, joined: seq<OperationSample>) {
    forall f :: Get(counts, f) == Tally(arrived, joined, None, f)
  }

  /** The series holds, second by second, what happened in that second, and adds up to the run. */
  ghost predicate SeriesIs(series: Series, arrived: seq<Arrival>, joined: seq<OperationSample>) {
    && (forall s, f :: CountAt(series, s, f) == Tally(arrived, joined, Some(s), f))
    && (forall s :: PeakAt(series, s) == Peak(arrived, s))
    && (forall f :: Total(series, f) == Tally(arrived, joined, None, f))
  }

  lemma AddsArrival(counts: Counts, arrival: Arrival, field: Field)
    ensures Get(AddArrival(counts, arrival.dispatched), field) == Get(counts, field) + ArrivalAdds(arrival, field)
  {
  }

  lemma AddsSample(counts: Counts, sample: OperationSample, field: Field)
    ensures Get(AddSample(counts, sample.reading.outcome), field) == Get(counts, field) + SampleAdds(sample, field)
  {
  }

  lemma CountsRecordArrival(counts: Counts, arrived: seq<Arrival>, joined: seq<OperationSample>, arrival: Arrival,
                            updated: Counts)
    requires CountsAre(counts, arrived, joined)
    requires updated == AddArrival(counts, arrival.dispatched)
    ensures CountsAre(updated, arrived + [arrival], joined)
  {
    forall f ensures Get(updated, f) == Tally(arrived + [arrival], joined, None, f) {
      TallyArrival(arrived, joined, arrival, None, f);
      AddsArrival(counts, arrival, f);
    }
  }

  lemma CountsRecordSample(counts: Counts, arrived: seq<Arrival>, joined: seq<OperationSample>, sample: OperationSample,
                           updated: Counts)
    requires CountsAre(counts, arrived, joined)
    requires updated == AddSample(counts, sample.reading.outcome)
    ensures CountsAre(updated, arrived, joined + [sample])
  {
    forall f ensures Get(updated, f) == Tally(arrived, joined + [sample], None, f) {
      TallySample(arrived, joined, sample, None, f);
      AddsSample(counts, sample, f);
    }
  }

  lemma SeriesRecordsArrival(series: Series, arrived: seq<Arrival>, joined: seq<OperationSample>, arrival: Arrival,
                             point: Point)
    requires SeriesIs(series, arrived, joined)
    requires var before := PointAt(series, SecondOf(arrival.at));
             point == Point(AddArrival(before.counts, arrival.dispatched),
                            if before.maxInFlight >= arrival.inFlight then before.maxInFlight else arrival.inFlight)
    ensures SeriesIs(series[SecondOf(arrival.at) := point], arrived + [arrival], joined)
  {
    var before, updated := PointAt(series, SecondOf(arrival.at)), series[SecondOf(arrival.at) := point];
    forall s, f ensures CountAt(updated, s, f) == Tally(arrived + [arrival], joined, Some(s), f) {
      TallyArrival(arrived, joined, arrival, Some(s), f);
      AddsArrival(before.counts, arrival, f);
      assert CountAt(series, s, f) == Tally(arrived, joined, Some(s), f);
    }
    forall s ensures PeakAt(updated, s) == Peak(arrived + [arrival], s) {
      assert PeakAt(series, s) == Peak(arrived, s);
      PeakArrival(arrived, arrival, s);
    }
    forall f ensures Total(updated, f) == Tally(arrived + [arrival], joined, None, f) {
      TotalUpdate(series, SecondOf(arrival.at), point, f);
      AddsArrival(before.counts, arrival, f);
      TallyArrival(arrived, joined, arrival, None, f);
    }
  }

  lemma SeriesRecordsSample(series: Series, arrived: seq<Arrival>, joined: seq<OperationSample>,
                            sample: OperationSample, point: Point)
    requires SeriesIs(series, arrived, joined)
    requires var before := PointAt(series, SecondOf(sample.reading.completedElapsedNs));
             point == Point(AddSample(before.counts, sample.reading.outcome), before.maxInFlight)
    ensures SeriesIs(series[SecondOf(sample.reading.completedElapsedNs) := point], arrived, joined + [sample])
  {
    var second := SecondOf(sample.reading.completedElapsedNs);
    var before, updated := PointAt(series, second), series[second := point];
    forall s, f ensures CountAt(updated, s, f) == Tally(arrived, joined + [sample], Some(s), f) {
      TallySample(arrived, joined, sample, Some(s), f);
      AddsSample(before.counts, sample, f);
      assert CountAt(series, s, f) == Tally(arrived, joined, Some(s), f);
    }
    forall s ensures PeakAt(updated, s) == Peak(arrived, s) {
      assert PeakAt(series, s) == Peak(arrived, s);
    }
    forall f ensures Total(updated, f) == Tally(arrived, joined + [sample], None, f) {
      TotalUpdate(series, second, point, f);
      AddsSample(before.counts, sample, f);
      TallySample(arrived, joined, sample, None, f);
    }
  }

  // ----- The accumulator -----

  datatype LoadResult = LoadResult(
    outcomes: Counts, successfulSequences: seq<nat>, samples: seq<OperationSample>, timeSeries: Series,
    scheduledResponse: nat, service: nat, schedulerLateness: nat, failedService: nat)

  predicate SequenceLeq(a: OperationSample, b: OperationSample) {
    a.sequence <= b.sequence
  }

  predicate NatLeq(a: nat, b: nat) {
    a <= b
  }

  /** A report of a history: the joined samples split by outcome, each list ascending by sequence
      number; the counters and the series of the history; and histograms of matching sizes. */
  ghost predicate Summarizes(result: LoadResult, arrived: seq<Arrival>, joined: seq<OperationSample>) {
    && SortedBy(result.successfulSequences, NatLeq)
    && multiset(result.successfulSequences) == multiset(Successes(joined))
    && SortedBy(result.samples, SequenceLeq)
    && multiset(result.samples) == multiset(Failures(joined))
    && CountsAre(result.outcomes, arrived, joined)
    && SeriesIs(result.timeSeries, arrived, joined)
    && result.schedulerLateness == |joined|
    && result.scheduledResponse == result.service == |result.successfulSequences|
    && result.failedService == |result.samples|
  }

  class LoadAccumulator {
    var outcomes: Counts
    var successfulSequences: seq<nat>
    var samples: seq<OperationSample>
    var timeSeries: Series
    // Histograms are kept as the number of values they recorded.
    var scheduledResponse: nat
    var service: nat
    var schedulerLateness: nat
    var failedService: nat

    ghost var arrived: seq<Arrival>
    ghost var joined: seq<OperationSample>

    ghost predicate Valid()
      reads this
    {
      && CountsAre(outcomes, arrived, joined)
      && SeriesIs(timeSeries, arrived, joined)
      && successfulSequences == Successes(joined) && samples == Failures(joined)
      && schedulerLateness == |joined|
      && scheduledResponse == service == |successfulSequences| && failedService == |samples|
    }

    constructor ()
      ensures Valid() && arrived == [] && joined == []
    {
      outcomes, timeSeries := Counts(0, 0, 0, 0, 0, 0, 0), map[];
      successfulSequences, samples := [], [];
      scheduledResponse, service, schedulerLateness, failedService := 0, 0, 0, 0;
      arrived, joined := [], [];
    }

    method RecordArrival(elapsed: nat, dispatched: bool, inFlight: nat)
      requires Valid()
      modifies this
      ensures Valid() && joined == old(joined) && arrived == old(arrived) + [Arrival(elapsed, dispatched, inFlight)]
    {
      ghost var arrival := Arrival(elapsed, dispatched, inFlight);
      var second := SecondOf(elapsed);
      var before := PointAt(timeSeries, second);
      var point := Point(AddArrival(before.counts, dispatched),
                         if before.maxInFlight >= inFlight then before.maxInFlight else inFlight);
      CountsRecordArrival(outcomes, arrived, joined, arrival, AddArrival(outcomes, dispatched));
      SeriesRecordsArrival(timeSeries, arrived, joined, arrival, point);
      outcomes := AddArrival(outcomes, dispatched);
      timeSeries := timeSeries[second := point];
      arrived := arrived + [arrival];
    }

    /** Counts the sample, in the totals and in the point of its second. */
    method CountSample(sample: OperationSample)
      requires Valid()
      modifies this`outcomes, this`successfulSequences, this`timeSeries
      ensures CountsAre(outcomes, arrived, joined + [sample]) && SeriesIs(timeSeries, arrived, joined + [sample])
      ensures successfulSequences == Successes(joined + [sample])
    {
      AppendSample(joined, sample);
      var outcome := sample.reading.outcome;
      var second := SecondOf(sample.reading.completedElapsedNs);
      var before := PointAt(timeSeries, second);
      var point := Point(AddSample(before.counts, outcome), before.maxInFlight);
      CountsRecordSample(outcomes, arrived, joined, sample, AddSample(outcomes, outcome));
      SeriesRecordsSample(timeSeries, arrived, joined, sample, point);
      outcomes := AddSample(outcomes, outcome);
      if outcome.Successful? {
        successfulSequences := successfulSequences + [sample.sequence];
      }
      timeSeries := timeSeries[second := point];
    }

    /** Records the sample's latencies, each value at least 1, until a histogram cannot hold one (`fits`). */
    method RecordLatencies(sample: OperationSample, fits: nat -> bool) returns (ok: bool)
      modifies this`schedulerLateness, this`scheduledResponse, this`service, this`failedService, this`samples
      ensures ok <==> Recordable(sample.reading, fits)
      ensures
        var successes := if sample.reading.outcome.Successful? then 1 else 0;
        ok ==>
          && schedulerLateness == old(schedulerLateness) + 1
          && scheduledResponse == old(scheduledResponse) + successes && service == old(service) + successes
          && failedService == old(failedService) + 1 - successes
          && samples == old(samples) + if successes == 1 then [] else [sample]
    {
      if !fits(AtLeastOne(sample.reading.latenessNs)) {
        return false;
      }
      schedulerLateness := schedulerLateness + 1;
      if sample.reading.outcome.Successful? {
        if !fits(AtLeastOne(sample.reading.scheduledResponseNs)) {
          return false;
        }
        scheduledResponse := scheduledResponse + 1;
        if !fits(AtLeastOne(sample.reading.serviceNs)) {
          return false;
        }
        service := service + 1;
      } else {
        if !fits(AtLeastOne(sample.reading.serviceNs)) {
          return false;
        }
        failedService := failedService + 1;
        samples := samples + [sample];
      }
      ok := true;
    }

    /** One joined task; it fails exactly when a histogram cannot hold a value. */
    method RecordJoin(sample: OperationSample, fits: nat -> bool) returns (ok: bool)
      requires Valid()
      modifies this
      ensures ok <==> Recordable(sample.reading, fits)
      ensures ok ==> Valid() && arrived == old(arrived) && joined == old(joined) + [sample]
    {
      AppendSample(joined, sample);
      CountSample(sample);
      ok := RecordLatencies(sample, fits);
      joined := joined + [sample];
    }

    method Finish() returns (result: LoadResult)
      requires Valid()
      ensures Summarizes(result, arrived, joined)
    {
      SortContents(successfulSequences, NatLeq);
      SortSorts(successfulSequences, NatLeq);
      SortContents(samples, SequenceLeq);
      SortSorts(samples, SequenceLeq);
      SortLength(successfulSequences, NatLeq);
      SortLength(samples, SequenceLeq);
      result := LoadResult(outcomes, Sort(successfulSequences, NatLeq), Sort(samples, SequenceLeq), timeSeries,
                           scheduledResponse, service, schedulerLateness, failedService);
    }
  }

  function AddArrival(counts: Counts, dispatched: bool): Counts {
    if dispatched then counts.(offered := counts.offered + 1, dispatched := counts.dispatched + 1)
    else counts.(offered := counts.offered + 1, missed := counts.missed + 1)
  }

  function AddSample(counts: Counts, outcome: OperationOutcome): Counts {
    match outcome
    case Successful => counts.(completed := counts.completed + 1, successful := counts.successful + 1)
    case Failed => counts.(completed := counts.completed + 1, failed := counts.failed + 1)
    case TimedOut => counts.(completed := counts.completed + 1, timedOut := counts.timedOut + 1)
  }

  function AtLeastOne(ns: nat): nat {
    if ns == 0 then 1 else ns
  }

  predicate Recordable(reading: Reading, fits: nat -> bool) {
    && fits(AtLeastOne(reading.latenessNs)) && fits(AtLeastOne(reading.serviceNs))
    && (reading.outcome.Successful? ==> fits(AtLeastOne(reading.scheduledResponseNs)))
  }
}
