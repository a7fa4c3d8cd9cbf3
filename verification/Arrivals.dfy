/** Fixed-rate arrival arithmetic, computed one way by the load engine (bench/src/engine.rs) and
    another by the shared trace (bench/src/trace.rs). Times are nanoseconds. */
module Arrivals {
  import opened Wrappers

  const NANOS_PER_SECOND: nat := 1_000_000_000
  const U64_MAX: nat := 0xFFFF_FFFF_FFFF_FFFF
  const U32_MAX: nat := 0xFFFF_FFFF

  datatype Failure = Invalid | Overflow

  function CheckedMul(a: nat, b: nat): Result<nat, Failure> {
    if a * b <= U64_MAX then Ok(a * b) else Err(Overflow)
  }

  function Quotient(a: nat, b: nat): nat
    requires b > 0
  {
    a / b
  }

  /** The engine: whole seconds first, then the remainder scaled. */
  function FixedArrival(sequence: nat, rate: nat): Result<nat, Failure>
    requires rate > 0
  {
    var nanos := CheckedMul(sequence % rate, NANOS_PER_SECOND);
    if nanos.Err? then nanos
    else Ok(Quotient(sequence, rate) * NANOS_PER_SECOND + Quotient(nanos.value, rate))
  }

  /** The trace: one product, one division. */
  function FixedArrivalNs(sequence: nat, rate: nat): Result<nat, Failure>
    requires rate > 0
  {
    var nanos := CheckedMul(sequence, NANOS_PER_SECOND);
    if nanos.Err? then nanos else Ok(nanos.value / rate)
  }

  /** The exact arrival: floor(sequence * 10^9 / rate). */
  function ExactArrival(sequence: nat, rate: nat): nat
    requires rate > 0
  {
    sequence * NANOS_PER_SECOND / rate
  }

  lemma DivideSum(q: nat, x: nat, d: nat)
    requires d > 0
    ensures (q * d + x) / d == q + x / d
  {
    assert q * d + x == (q + x / d) * d + x % d;
    DivideUnique(q * d + x, d, q + x / d, x % d);
  }

  lemma AtLeastOne(k: int, d: nat)
    requires k >= 1
    ensures k * d >= d
  {
  }

  lemma DivideUnique(n: nat, d: nat, q: nat, r: nat)
    requires d > 0 && n == q * d + r && r < d
    ensures n / d == q
  {
    var q', r' := n / d, n % d;
    assert (q' - q) * d == r - r';
    if q' > q {
      AtLeastOne(q' - q, d);
    } else if q' < q {
      assert (q - q') * d == r' - r;
      AtLeastOne(q - q', d);
    }
  }

  /** For every rate that fits 32 bits the engine's checked product cannot overflow, and it computes
      the exact arrival. */
  lemma FixedArrivalIsExact(sequence: nat, rate: nat)
    requires 0 < rate <= U32_MAX
    ensures FixedArrival(sequence, rate) == Ok(ExactArrival(sequence, rate))
  {
    var q, r := sequence / rate, sequence % rate;
    assert sequence == q * rate + r;
    assert sequence * NANOS_PER_SECOND == q * NANOS_PER_SECOND * rate + r * NANOS_PER_SECOND;
    DivideSum(q * NANOS_PER_SECOND, r * NANOS_PER_SECOND, rate);
  }

  /** Where the trace succeeds it agrees with the engine, at any rate the engine takes. */
  lemma TraceAgreesWithEngine(sequence: nat, rate: nat)
    requires 0 < rate <= U32_MAX && FixedArrivalNs(sequence, rate).Ok?
    ensures FixedArrivalNs(sequence, rate) == FixedArrival(sequence, rate)
  {
    FixedArrivalIsExact(sequence, rate);
  }

  function CeilDiv(n: nat, d: nat): nat
    requires d > 0
  {
    (n + d - 1) / d
  }

  lemma BelowQuotient(n: nat, d: nat, limit: nat)
    requires d > 0
    ensures n / d < limit <==> n < limit * d
  {
    assert n == n / d * d + n % d;
    if n / d < limit {
      assert (n / d + 1) * d <= limit * d;
      assert (n / d + 1) * d == n / d * d + d;
    } else {
      assert n / d * d >= limit * d;
    }
  }

  /** Arrivals before the deadline are exactly the first ceil(duration * rate / 10^9). */
  lemma ArrivalBeforeDeadline(sequence: nat, rate: nat, duration: nat)
    requires rate > 0
    ensures ExactArrival(sequence, rate) < duration <==> sequence < CeilDiv(duration * rate, NANOS_PER_SECOND)
  {
    BelowQuotient(sequence * NANOS_PER_SECOND, rate, duration);
    var work := duration * rate;
    assert sequence * NANOS_PER_SECOND < work <==> sequence < (work + NANOS_PER_SECOND - 1) / NANOS_PER_SECOND;
  }

  lemma ArrivalsMonotone(i: nat, j: nat, rate: nat)
    requires rate > 0 && i <= j
    ensures ExactArrival(i, rate) <= ExactArrival(j, rate)
  {
    var a, b := i * NANOS_PER_SECOND, j * NANOS_PER_SECOND;
    BelowQuotient(a, rate, b / rate + 1);
    assert b == b / rate * rate + b % rate;
    assert (b / rate + 1) * rate == b / rate * rate + rate;
  }

  // ----- The shared trace -----

  datatype TraceEntry = TraceEntry(sequence: nat, arrivalNs: nat)

  /** Exactly when a trace can be written: nonzero dimensions, an entry count that fits 64 bits, and a
      last arrival whose product with 10^9 still fits. */
  predicate TraceFits(durationSeconds: nat, rate: nat, payloadLength: nat) {
    && durationSeconds != 0 && rate != 0 && payloadLength != 0
    && durationSeconds * rate <= U64_MAX
    && (durationSeconds * rate - 1) * NANOS_PER_SECOND <= U64_MAX
  }

  method WriteSharedTrace(durationSeconds: nat, rate: nat, payloadLength: nat)
    returns (trace: Result<seq<TraceEntry>, Failure>)
    ensures trace.Ok? <==> TraceFits(durationSeconds, rate, payloadLength)
    ensures trace.Ok? ==>
      && |trace.value| == durationSeconds * rate
      && forall i :: 0 <= i < |trace.value| ==> trace.value[i] == TraceEntry(i, ExactArrival(i, rate))
  {
    if durationSeconds == 0 || rate == 0 || payloadLength == 0 {
      return Err(Invalid);
    }
    var count := CheckedMul(durationSeconds, rate);
    if count.Err? {
      return Err(count.error);
    }
    var entries: seq<TraceEntry> := [];
    var sequence := 0;
    assert count.value >= 1;
    while sequence < count.value
      invariant 0 <= sequence <= count.value && |entries| == sequence
      invariant sequence > 0 ==> (sequence - 1) * NANOS_PER_SECOND <= U64_MAX
      invariant forall i :: 0 <= i < sequence ==> entries[i] == TraceEntry(i, ExactArrival(i, rate))
    {
      var arrival := FixedArrivalNs(sequence, rate);
      if arrival.Err? {
        assert (count.value - 1) * NANOS_PER_SECOND >= sequence * NANOS_PER_SECOND;
        return Err(arrival.error);
      }
      entries := entries + [TraceEntry(sequence, arrival.value)];
      sequence := sequence + 1;
    }
    trace := Ok(entries);
  }

  lemma WholeSeconds(durationSeconds: nat, rate: nat)
    requires rate > 0
    ensures CeilDiv(durationSeconds * NANOS_PER_SECOND * rate, NANOS_PER_SECOND) == durationSeconds * rate
  {
  }
}
