/** The bootstrap interval over pair medians (bench/src/analysis.rs), with exact numbers for floats. */
module Bootstrap {
  import opened Ordering

  const USIZE_MAX: nat := 0xFFFF_FFFF_FFFF_FFFF

  // ----- Random indices -----

  function ScrambleLeft13(x: bv64): bv64 { x ^ (x << 13) }

  function ScrambleRight7(x: bv64): bv64 { x ^ (x >> 7) }

  function ScrambleLeft17(x: bv64): bv64 { x ^ (x << 17) }

  /** No stage maps a nonzero state to zero, so the generator never gets stuck. */
  lemma ScrambleStaysNonzero(x: bv64)
    requires x != 0
    ensures ScrambleLeft17(ScrambleRight7(ScrambleLeft13(x))) != 0
  {
  }

  function Scramble(x: bv64): bv64 {
    ScrambleLeft17(ScrambleRight7(ScrambleLeft13(x)))
  }

  function ValueOf(state: bv64): nat {
    state as nat
  }

  function Remainder(n: nat, length: nat): (r: nat)
    requires length > 0
    ensures r < length
  {
    n % length
  }

  function IndexOf(state: bv64, length: nat): nat
    requires length > 0
  {
    Remainder(ValueOf(state), length)
  }

  class XorShift64 {
    var state: bv64

    constructor (seed: bv64)
      ensures state == StartState(seed) && state != 0
    {
      state := if seed == 0 then 1 else seed;
    }

    method Index(length: nat) returns (index: nat)
      requires length > 0 && state != 0
      modifies this
      ensures state == Scramble(old(state)) && state != 0
      ensures index == IndexOf(state, length)
    {
      ScrambleStaysNonzero(state);
      state := ScrambleLeft17(ScrambleRight7(ScrambleLeft13(state)));
      index := Remainder(ValueOf(state), length);
    }
  }

  /** The seed, raised to at least 1. */
  function StartState(seed: bv64): bv64 {
    if seed == 0 then 1 else seed
  }

  ghost function StateAfter(state: bv64, draws: nat): bv64 {
    if draws == 0 then state else Scramble(StateAfter(state, draws - 1))
  }

  // ----- Medians -----

  predicate RealLeq(a: real, b: real) {
    a <= b
  }

  function Sorted(values: seq<real>): seq<real> {
    Sort(values, RealLeq)
  }

  lemma SortedIs(values: seq<real>)
    ensures |Sorted(values)| == |values| && SortedBy(Sorted(values), RealLeq)
    ensures forall v :: v in Sorted(values) <==> v in values
  {
    SortLength(values, RealLeq);
    SortSorts(values, RealLeq);
    SortContents(values, RealLeq);
    forall v ensures v in Sorted(values) <==> v in values {
      assert v in Sorted(values) <==> v in multiset(Sorted(values));
      assert v in values <==> v in multiset(values);
    }
  }

  /** The middle value, or the midpoint of the two in the middle. */
  function Median(values: seq<real>): real
    requires values != []
  {
    SortedIs(values);
    var sorted, middle := Sorted(values), |values| / 2;
    if |values| % 2 == 0 then (sorted[middle - 1] + sorted[middle]) / 2.0 else sorted[middle]
  }

  ghost predicate Within(values: seq<real>, low: real, high: real) {
    forall v :: v in values ==> low <= v <= high
  }

  /** A median lies between the two middle ranks, hence within any bounds on the values. */
  lemma MedianIsCentral(values: seq<real>, low: real, high: real)
    requires values != [] && Within(values, low, high)
    ensures |Sorted(values)| == |values|
    ensures Sorted(values)[(|values| - 1) / 2] <= Median(values) <= Sorted(values)[|values| / 2]
    ensures low <= Median(values) <= high
  {
    SortedIs(values);
    var sorted, n := Sorted(values), |values|;
    var a, b := (n - 1) / 2, n / 2;
    assert sorted[a] in sorted && sorted[b] in sorted;
    if n % 2 == 0 {
      assert a == b - 1;
      assert RealLeq(sorted[a], sorted[b]);
    }
  }

  // ----- Percentile ranks -----

  function SaturatingMul(a: nat, b: nat): nat {
    if a * b <= USIZE_MAX then a * b else USIZE_MAX
  }

  function PercentileIndex(length: nat, perMille: nat): (index: nat)
    requires length > 0
    ensures index < length
  {
    var rank := (SaturatingMul(length, perMille) + 999) / 1000;
    var index := if rank == 0 then 0 else rank - 1;
    if index < length then index else length - 1
  }

  /** The two ranks are ordered, and strictly more than 95% of the positions lie at or between them. */
  lemma RanksCover95(samples: nat)
    requires samples > 0
    ensures PercentileIndex(samples, 25) <= PercentileIndex(samples, 975)
    ensures samples * 975 <= USIZE_MAX ==>
      (PercentileIndex(samples, 975) - PercentileIndex(samples, 25) + 1) * 100 > samples * 95
  {
  }

  /** The positions of a distribution whose values lie in an interval. */
  ghost function Covered(distribution: seq<real>, low: real, high: real): set<nat> {
    set k: nat | k < |distribution| && low <= distribution[k] <= high
  }

  ghost function Between(from: nat, until: nat): (positions: set<nat>)
    requires from <= until
    ensures |positions| == until - from && forall k :: k in positions <==> from <= k < until
    decreases until
  {
    if from == until then {} else Between(from, until - 1) + {until - 1}
  }

  lemma RanksAreCovered(distribution: seq<real>, lower: nat, upper: nat)
    requires SortedBy(distribution, RealLeq) && lower <= upper < |distribution|
    ensures |Covered(distribution, distribution[lower], distribution[upper])| >= upper - lower + 1
  {
    var ranks, covered := Between(lower, upper + 1), Covered(distribution, distribution[lower], distribution[upper]);
    forall k | k in ranks ensures k in covered {
      assert lower < k ==> RealLeq(distribution[lower], distribution[k]);
      assert k < upper ==> RealLeq(distribution[k], distribution[upper]);
    }
    assert |ranks| <= |covered| by {
      assert ranks <= covered;
      SubsetSize(ranks, covered);
    }
  }

  lemma SubsetSize(a: set<nat>, b: set<nat>)
    requires a <= b
    ensures |a| <= |b|
  {
    assert b == a + (b - a);
  }

  // ----- The interval -----

  datatype ConfidenceInterval = ConfidenceInterval(estimate: real, lower95: real, upper95: real)

  /** A sample drawn with replacement from the values. */
  ghost predicate DrawnFrom(sample: seq<real>, values: seq<real>) {
    |sample| == |values| && forall i :: 0 <= i < |sample| ==> sample[i] in values
  }

  ghost predicate IsResampleMedian(median: real, values: seq<real>) {
    exists sample :: values != [] && DrawnFrom(sample, values) && median == Median(sample)
  }

  /** The sample drawn from a state: one draw with replacement for each value. */
  ghost function SampleFrom(values: seq<real>, state: bv64): (sample: seq<real>)
    requires values != []
    ensures DrawnFrom(sample, values)
  {
    seq(|values|, i requires 0 <= i < |values| => values[IndexOf(StateAfter(state, i + 1), |values|)])
  }

  /** The state before a resample. */
  ghost function SampleState(state: bv64, draws: nat, k: nat): bv64 {
    if k == 0 then state else StateAfter(SampleState(state, draws, k - 1), draws)
  }

  /** The medians of the resamples, in the order drawn. */
  ghost function Medians(values: seq<real>, state: bv64, samples: nat): seq<real>
    requires values != []
  {
    seq(samples, k requires 0 <= k < samples => MedianAt(values, state, k))
  }

  ghost function MedianAt(values: seq<real>, state: bv64, k: nat): real
    requires values != []
  {
    Median(SampleFrom(values, SampleState(state, |values|, k)))
  }

  lemma MediansOneMore(values: seq<real>, state: bv64, n: nat)
    requires values != []
    ensures Medians(values, state, n + 1) == Medians(values, state, n) + [MedianAt(values, state, n)]
  {
  }

  method DrawMedian(values: seq<real>, random: XorShift64) returns (median: real)
    requires values != [] && random.state != 0
    modifies random
    ensures random.state != 0 && random.state == StateAfter(old(random.state), |values|)
    ensures median == Median(SampleFrom(values, old(random.state)))
  {
    var sample: seq<real> := [];
    ghost var start := random.state;
    while |sample| < |values|
      invariant |sample| <= |values| && random.state != 0 && random.state == StateAfter(start, |sample|)
      invariant forall i :: 0 <= i < |sample| ==> sample[i] == values[IndexOf(StateAfter(start, i + 1), |values|)]
    {
      var index := random.Index(|values|);
      sample := sample + [values[index]];
    }
    assert sample == SampleFrom(values, start);
    median := Median(sample);
  }

  method DrawNext(values: seq<real>, random: XorShift64, ghost start: bv64, ghost k: nat) returns (median: real)
    requires values != [] && random.state != 0 && random.state == SampleState(start, |values|, k)
    modifies random
    ensures random.state != 0 && random.state == SampleState(start, |values|, k + 1)
    ensures median == MedianAt(values, start, k)
  {
    median := DrawMedian(values, random);
  }

  method DrawMedians(values: seq<real>, seed: bv64, samples: nat) returns (medians: seq<real>)
    requires values != []
    ensures medians == Medians(values, StartState(seed), samples)
  {
    var random := new XorShift64(seed);
    ghost var start := random.state;
    medians := [];
    for k := 0 to samples
      invariant random.state != 0 && fresh(random) && random.state == SampleState(start, |values|, k)
      invariant medians == Medians(values, start, k)
    {
      MediansOneMore(values, start, k);
      var median := DrawNext(values, random, start, k);
      medians := medians + [median];
    }
  }

  /** The distribution the seed determines: sorted medians of resamples. */
  ghost function Distribution(values: seq<real>, seed: bv64, samples: nat): seq<real>
    requires values != []
  {
    Sorted(Medians(values, StartState(seed), samples))
  }

  lemma DistributionIs(values: seq<real>, seed: bv64, samples: nat)
    requires values != []
    ensures
      var distribution := Distribution(values, seed, samples);
      && |distribution| == samples && SortedBy(distribution, RealLeq)
      && forall d :: d in distribution ==> IsResampleMedian(d, values)
  {
    var medians := Medians(values, StartState(seed), samples);
    SortedIs(medians);
    forall d | d in medians ensures IsResampleMedian(d, values) {
      var k :| 0 <= k < samples && medians[k] == d;
      assert DrawnFrom(SampleFrom(values, SampleState(StartState(seed), |values|, k)), values);
    }
  }

  /** The ends are those at the 2.5% and 97.5% ranks of the distribution the seed determines; they are
      ordered, more than 95% of the distribution lies at or between them, and with the estimate they lie
      within any bounds on the input. */
  method BootstrapMedian(values: seq<real>, samples: nat, seed: bv64) returns (interval: ConfidenceInterval)
    requires values != [] && samples > 0
    ensures |Distribution(values, seed, samples)| == samples
    ensures
      var distribution := Distribution(values, seed, samples);
      interval == ConfidenceInterval(
        Median(values), distribution[PercentileIndex(samples, 25)], distribution[PercentileIndex(samples, 975)])
    ensures interval.lower95 <= interval.upper95
    ensures samples * 975 <= USIZE_MAX ==>
      |Covered(Distribution(values, seed, samples), interval.lower95, interval.upper95)| * 100 > samples * 95
    ensures forall low, high :: Within(values, low, high) ==>
      low <= interval.lower95 <= high && low <= interval.upper95 <= high && low <= interval.estimate <= high
  {
    var medians := DrawMedians(values, seed, samples);
    DistributionIs(values, seed, samples);
    var sorted := Sorted(medians);
    var lower, upper := PercentileIndex(samples, 25), PercentileIndex(samples, 975);
    RanksCover95(samples);
    interval := ConfidenceInterval(Median(values), sorted[lower], sorted[upper]);
    assert lower < upper ==> RealLeq(sorted[lower], sorted[upper]);
    RanksAreCovered(sorted, lower, upper);
    forall low, high | Within(values, low, high)
      ensures low <= interval.lower95 <= high && low <= interval.upper95 <= high && low <= interval.estimate <= high
    {
      MedianIsCentral(values, low, high);
      ResampleMedianWithin(sorted[lower], values, low, high);
      ResampleMedianWithin(sorted[upper], values, low, high);
    }
  }

  lemma ResampleMedianWithin(median: real, values: seq<real>, low: real, high: real)
    requires IsResampleMedian(median, values) && Within(values, low, high)
    ensures low <= median <= high
  {
    var sample :| values != [] && DrawnFrom(sample, values) && median == Median(sample);
    MedianIsCentral(sample, low, high);
  }
}
