/** The open-loop scheduler (bench/src/schedule.rs): due arrivals are decided in order and never
    moved; a due arrival is missed when every slot is busy. */
module Schedule {
  import opened Wrappers

  type Time = nat

  datatype DispatchDecision =
    | Dispatched(scheduledAt: Time, dispatchedAt: Time)
    | Missed(scheduledAt: Time, observedAt: Time)
    | Pending
    | Complete

  datatype Failure = Invalid

  predicate Monotonic(arrivals: seq<Time>) {
    forall i, j :: 0 <= i < j < |arrivals| ==> arrivals[i] <= arrivals[j]
  }

  /** The `windows(2)` check of neighbours establishes the order of all pairs. */
  method IsMonotonic(arrivals: seq<Time>) returns (monotonic: bool)
    ensures monotonic <==> Monotonic(arrivals)
  {
    if |arrivals| == 0 {
      return true;
    }
    var i := 1;
    while i < |arrivals|
      invariant 1 <= i <= |arrivals| && Monotonic(arrivals[..i])
    {
      if arrivals[i - 1] > arrivals[i] {
        return false;
      }
      assert arrivals[..i][i - 1] == arrivals[i - 1];
      i := i + 1;
    }
    assert arrivals[..i] == arrivals;
    monotonic := true;
  }

  // ----- Steps as values -----

  datatype Slots = Slots(next: nat, inFlight: nat)

  /** What a poll decides. */
  function Decide(arrivals: seq<Time>, max: nat, slots: Slots, now: Time): DispatchDecision {
    if slots.next >= |arrivals| then Complete
    else if arrivals[slots.next] > now then Pending
    else if slots.inFlight == max then Missed(arrivals[slots.next], now)
    else Dispatched(arrivals[slots.next], now)
  }

  function Polled(arrivals: seq<Time>, max: nat, slots: Slots, now: Time): Slots {
    match Decide(arrivals, max, slots, now)
    case Dispatched(_, _) => Slots(slots.next + 1, slots.inFlight + 1)
    case Missed(_, _) => Slots(slots.next + 1, slots.inFlight)
    case _ => slots
  }

  datatype Action = Poll(now: Time) | CompleteOne

  /** The slots after a history of polls and completions; a completion with nothing in flight fails
      and changes nothing. */
  ghost function After(arrivals: seq<Time>, max: nat, actions: seq<Action>): Slots {
    if actions == [] then Slots(0, 0)
    else
      var n := |actions| - 1;
      var before := After(arrivals, max, actions[..n]);
      match actions[n]
      case Poll(now) => Polled(arrivals, max, before, now)
      case CompleteOne => if before.inFlight == 0 then before else before.(inFlight := before.inFlight - 1)
  }

  predicate Decides(decision: DispatchDecision) {
    decision.Dispatched? || decision.Missed?
  }

  /** The decisions a history made about arrivals, in order. */
  ghost function Log(arrivals: seq<Time>, max: nat, actions: seq<Action>): seq<DispatchDecision> {
    if actions == [] then []
    else
      var n := |actions| - 1;
      var log := Log(arrivals, max, actions[..n]);
      if actions[n].CompleteOne? then log
      else
        var decision := Decide(arrivals, max, After(arrivals, max, actions[..n]), actions[n].now);
        if Decides(decision) then log + [decision] else log
  }

  ghost function DispatchedIn(log: seq<DispatchDecision>): nat {
    if log == [] then 0
    else DispatchedIn(log[..|log| - 1]) + (if log[|log| - 1].Dispatched? then 1 else 0)
  }

  ghost function Completions(arrivals: seq<Time>, max: nat, actions: seq<Action>): nat {
    if actions == [] then 0
    else
      var n := |actions| - 1;
      Completions(arrivals, max, actions[..n])
      + (if actions[n].CompleteOne? && After(arrivals, max, actions[..n]).inFlight > 0 then 1 else 0)
  }

  lemma DispatchedOneMore(log: seq<DispatchDecision>, decision: DispatchDecision)
    ensures DispatchedIn(log + [decision]) == DispatchedIn(log) + if decision.Dispatched? then 1 else 0
  {
  }

  /** The slots are bounded and are dispatches minus completions, and the decided arrivals are exactly
      a prefix of the schedule, at their scheduled times. */
  ghost predicate Balanced(arrivals: seq<Time>, max: nat, slots: Slots, log: seq<DispatchDecision>, completions: nat) {
    && slots.inFlight <= max && slots.inFlight + completions == DispatchedIn(log)
    && |log| == slots.next <= |arrivals|
    && forall k :: 0 <= k < |log| ==> Decides(log[k]) && log[k].scheduledAt == arrivals[k]
  }

  lemma PollBalances(arrivals: seq<Time>, max: nat, slots: Slots, log: seq<DispatchDecision>, completions: nat,
                     now: Time)
    requires Balanced(arrivals, max, slots, log, completions)
    ensures
      var decision := Decide(arrivals, max, slots, now);
      var log' := if Decides(decision) then log + [decision] else log;
      Balanced(arrivals, max, Polled(arrivals, max, slots, now), log', completions)
  {
    DispatchedOneMore(log, Decide(arrivals, max, slots, now));
  }

  /** In every history. */
  lemma {:induction false} RunsAreSafe(arrivals: seq<Time>, max: nat, actions: seq<Action>)
    ensures Balanced(arrivals, max, After(arrivals, max, actions), Log(arrivals, max, actions),
                     Completions(arrivals, max, actions))
  {
    if actions != [] {
      var n := |actions| - 1;
      var before := actions[..n];
      RunsAreSafe(arrivals, max, before);
      if actions[n].Poll? {
        PollBalances(arrivals, max, After(arrivals, max, before), Log(arrivals, max, before),
                     Completions(arrivals, max, before), actions[n].now);
      }
    }
  }

  ghost function PollTimes(actions: seq<Action>): seq<Time> {
    if actions == [] then []
    else
      var n := |actions| - 1;
      PollTimes(actions[..n]) + (if actions[n].Poll? then [actions[n].now] else [])
  }

  /** How far polls at the given times get through the schedule. */
  ghost function Reached(arrivals: seq<Time>, times: seq<Time>): nat {
    if times == [] then 0
    else
      var n := |times| - 1;
      var before := Reached(arrivals, times[..n]);
      if before < |arrivals| && arrivals[before] <= times[n] then before + 1 else before
  }

  /** Which arrivals are decided depends on the poll times alone: neither completions nor the slot
      bound ever shift the schedule. */
  lemma {:induction false} CompletionsNeverShiftArrivals(arrivals: seq<Time>, max: nat, actions: seq<Action>)
    ensures After(arrivals, max, actions).next == Reached(arrivals, PollTimes(actions))
  {
    if actions != [] {
      var n := |actions| - 1;
      CompletionsNeverShiftArrivals(arrivals, max, actions[..n]);
      var times := PollTimes(actions[..n]);
      if actions[n].Poll? {
        assert (times + [actions[n].now])[..|times|] == times;
      } else {
        assert times + [] == times;
      }
    }
  }

  /** What polling at one instant decides until nothing is due. */
  ghost function Drained(arrivals: seq<Time>, max: nat, slots: Slots, now: Time): seq<DispatchDecision>
    decreases |arrivals| - slots.next
  {
    var decision := Decide(arrivals, max, slots, now);
    if Decides(decision) then [decision] + Drained(arrivals, max, Polled(arrivals, max, slots, now), now) else []
  }

  /** Polling until nothing is due decides every arrival due by `now` and no later one: the free slots
      take the first of them, and the rest are missed. */
  lemma {:induction false} DrainedIsDue(arrivals: seq<Time>, max: nat, slots: Slots, now: Time)
    requires Monotonic(arrivals) && slots.next <= |arrivals| && slots.inFlight <= max
    ensures
      var decisions := Drained(arrivals, max, slots, now);
      var end := slots.next + |decisions|;
      && end <= |arrivals|
      && (forall k :: slots.next <= k < end ==> arrivals[k] <= now)
      && (forall k :: end <= k < |arrivals| ==> arrivals[k] > now)
      && (forall k :: 0 <= k < |decisions| ==>
        decisions[k] == if k < max - slots.inFlight then Dispatched(arrivals[slots.next + k], now)
                        else Missed(arrivals[slots.next + k], now))
    decreases |arrivals| - slots.next
  {
    if Decides(Decide(arrivals, max, slots, now)) {
      DrainedIsDue(arrivals, max, Polled(arrivals, max, slots, now), now);
    }
  }

  ghost function Releases(k: nat): seq<Action> {
    seq(k, _ => CompleteOne)
  }

  /** A history extended by completions and one poll at or after the next arrival: the poll decides that
      arrival by the slots the completions left free. */
  lemma {:induction false} ReleasesFreeSlots(arrivals: seq<Time>, max: nat, actions: seq<Action>, k: nat)
    requires k <= After(arrivals, max, actions).inFlight
    ensures
      var slots := After(arrivals, max, actions);
      && After(arrivals, max, actions + Releases(k)) == slots.(inFlight := slots.inFlight - k)
      && Log(arrivals, max, actions + Releases(k)) == Log(arrivals, max, actions)
    decreases k
  {
    if k == 0 {
      assert actions + Releases(0) == actions;
    } else {
      ReleasesFreeSlots(arrivals, max, actions, k - 1);
      var all := actions + Releases(k);
      assert all[..|all| - 1] == actions + Releases(k - 1);
    }
  }

  lemma {:induction false} PollDecidesNext(arrivals: seq<Time>, max: nat, actions: seq<Action>, now: Time)
    requires After(arrivals, max, actions).next < |arrivals| && arrivals[After(arrivals, max, actions).next] <= now
    ensures
      var slots, all := After(arrivals, max, actions), actions + [Poll(now)];
      var decision := Decide(arrivals, max, slots, now);
      && Log(arrivals, max, all) == Log(arrivals, max, actions) + [decision]
      && (decision.Dispatched? <==> slots.inFlight != max) && Decides(decision)
      && After(arrivals, max, all) == Slots(slots.next + 1, slots.inFlight + if slots.inFlight != max then 1 else 0)
  {
  }

  /** Completions, then one poll at or after the next arrival: the arrival takes a slot they left free,
      or is missed when they left none. */
  lemma {:induction false} PollAfterReleases(arrivals: seq<Time>, max: nat, actions: seq<Action>, all: seq<Action>,
                                             n: nat, inFlight: nat, k: nat, now: Time)
    requires After(arrivals, max, actions) == Slots(n, inFlight) && k <= inFlight <= max
    requires n < |arrivals| && arrivals[n] <= now && all == actions + Releases(k) + [Poll(now)]
    ensures After(arrivals, max, all) == Slots(n + 1, inFlight - k + if inFlight - k < max then 1 else 0)
    ensures Log(arrivals, max, all) == Log(arrivals, max, actions) +
      [if inFlight - k < max then Dispatched(arrivals[n], now) else Missed(arrivals[n], now)]
  {
    ReleasesFreeSlots(arrivals, max, actions, k);
    PollDecidesNext(arrivals, max, actions + Releases(k), now);
  }

  // ----- The scheduler object -----

  class OpenLoopScheduler {
    const arrivals: seq<Time>
    const maxInFlight: nat
    var next: nat
    var inFlight: nat
    ghost var history: seq<Action>

    /** The fields are the slots of the history so far. */
    ghost predicate Valid()
      reads this
    {
      maxInFlight > 0 && Monotonic(arrivals) && Slots(next, inFlight) == After(arrivals, maxInFlight, history)
    }

    constructor (arrivals: seq<Time>, maxInFlight: nat)
      requires maxInFlight > 0 && Monotonic(arrivals)
      ensures Valid() && this.arrivals == arrivals && this.maxInFlight == maxInFlight && history == []
    {
      this.arrivals, this.maxInFlight := arrivals, maxInFlight;
      next, inFlight, history := 0, 0, [];
    }

    static method New(arrivals: seq<Time>, maxInFlight: nat) returns (result: Result<OpenLoopScheduler, Failure>)
      ensures result.Ok? <==> maxInFlight > 0 && Monotonic(arrivals)
      ensures result.Ok? ==>
        && fresh(result.value) && result.value.Valid() && result.value.history == []
        && result.value.arrivals == arrivals && result.value.maxInFlight == maxInFlight
    {
      var monotonic := IsMonotonic(arrivals);
      if maxInFlight == 0 || !monotonic {
        return Err(Invalid);
      }
      var scheduler := new OpenLoopScheduler(arrivals, maxInFlight);
      result := Ok(scheduler);
    }

    method PollAt(now: Time) returns (decision: DispatchDecision)
      requires Valid()
      modifies this
      ensures Valid() && history == old(history) + [Poll(now)]
      ensures decision == Decide(arrivals, maxInFlight, Slots(old(next), old(inFlight)), now)
      ensures Slots(next, inFlight) == Polled(arrivals, maxInFlight, Slots(old(next), old(inFlight)), now)
    {
      RunsAreSafe(arrivals, maxInFlight, history);
      history := history + [Poll(now)];
      assert history[..|history| - 1] == old(history);
      if next == |arrivals| {
        return Complete;
      }
      var scheduledAt := arrivals[next];
      if scheduledAt > now {
        return Pending;
      }
      next := next + 1;
      if inFlight == maxInFlight {
        return Missed(scheduledAt, now);
      }
      inFlight := inFlight + 1;
      decision := Dispatched(scheduledAt, now);
    }

    method Release() returns (ok: bool)
      requires Valid()
      modifies this
      ensures Valid() && history == old(history) + [CompleteOne]
      ensures ok <==> old(inFlight) > 0
    {
      history := history + [CompleteOne];
      assert history[..|history| - 1] == old(history);
      if inFlight == 0 {
        return false;
      }
      inFlight := inFlight - 1;
      ok := true;
    }
  }
}
