/** The run loops of the load engine (bench/src/engine.rs), proved against the plans they must follow. */
module LoadRuns {
  import opened Wrappers
  import opened LoadAccounting
  import opened LoadEngine
  import opened LoadPlans
  import Arrivals
  import Schedule

  // ----- Tasks and the accumulator -----

  /** How each task ends, and which values the histograms can hold. */
  datatype Fates = Fates(ends: Behaviour, fits: nat -> bool)

  /** The task can be joined and its reading recorded. */
  predicate Joinable(fates: Fates, i: nat) {
    fates.ends.At(i).Some? && Recordable(fates.ends.At(i).value, fates.fits)
  }

  /** The accumulator has the decisions `arrived`, and has joined every dispatched task but those held. */
  ghost predicate Tracks(acc: LoadAccumulator, arrived: seq<Arrival>, held: set<nat>, fates: Fates)
    reads acc
  {
    && acc.Valid() && acc.arrived == arrived && JoinedFrom(acc.joined, arrived, held, fates.ends)
    && Recorded(arrived, held, fates)
  }

  /** Tasks held were dispatched, and those not held any more could be joined. */
  ghost predicate Recorded(arrived: seq<Arrival>, held: set<nat>, fates: Fates) {
    && (forall i {:trigger IsDispatched(arrived, i)} :: i in held ==> IsDispatched(arrived, i))
    && (forall i: nat {:trigger Finished(arrived, held, i)} :: Finished(arrived, held, i) ==> Joinable(fates, i))
  }

  /** The failure is that of some dispatched task. */
  ghost predicate Blames(failure: Failure, decisions: seq<Arrival>, fates: Fates) {
    exists i: nat :: IsDispatched(decisions, i) && FailsWith(failure, fates, i)
  }

  predicate FailsWith(failure: Failure, fates: Fates, i: nat) {
    match failure
    case TaskFailed => fates.ends.At(i).None?
    case HistogramOverflow => fates.ends.At(i).Some? && !Joinable(fates, i)
    case _ => false
  }

  /** A run that made the decisions succeeds exactly when every dispatched task can be joined and
      recorded, and then accounts for all of them; otherwise it names the failure of one. */
  ghost predicate Reports(result: Result<LoadResult, Failure>, decisions: seq<Arrival>, fates: Fates) {
    match result
    case Ok(value) =>
      Accounts(value, decisions, fates.ends) && forall i: nat :: IsDispatched(decisions, i) ==> Joinable(fates, i)
    case Err(failure) => Blames(failure, decisions, fates)
  }

  /** A run that numbers its tasks with 64 bits: only more of them than that make it overflow. */
  ghost predicate ReportsUnlessOverflow(result: Result<LoadResult, Failure>, decisions: seq<Arrival>, fates: Fates) {
    if |decisions| <= Arrivals.U64_MAX then Reports(result, decisions, fates)
    else result == Err(SequenceOverflow) || (result.Err? && Reports(result, decisions, fates))
  }

  lemma RecordOneMore(arrived: seq<Arrival>, held: set<nat>, fates: Fates, i: nat)
    requires Recorded(arrived, held, fates) && Joinable(fates, i)
    ensures Recorded(arrived, held - {i}, fates)
  {
    forall k: nat ensures Finished(arrived, held - {i}, k) ==> Joinable(fates, k) {
      assert k != i ==> (Finished(arrived, held - {i}, k) <==> Finished(arrived, held, k));
    }
  }

  /** Joins one task. */
  method JoinOne(acc: LoadAccumulator, held: set<nat>, i: nat, fates: Fates) returns (failure: Option<Failure>)
    requires i in held && Tracks(acc, acc.arrived, held, fates)
    modifies acc
    ensures failure.Some? ==> Blames(failure.value, old(acc.arrived), fates)
    ensures failure.None? ==> Tracks(acc, old(acc.arrived), held - {i}, fates)
  {
    assert IsDispatched(acc.arrived, i);
    var end := fates.ends.At(i);
    if end.None? {
      assert FailsWith(TaskFailed, fates, i);
      return Some(TaskFailed);
    }
    JoinOneMore(acc.joined, acc.arrived, held, fates.ends, i);
    var ok := acc.RecordJoin(OperationSample(i, end.value), fates.fits);
    if !ok {
      assert FailsWith(HistogramOverflow, fates, i);
      return Some(HistogramOverflow);
    }
    RecordOneMore(acc.arrived, held, fates, i);
    failure := None;
  }

  /** Joins the tasks in `ready`, in any order: all finished ones seen by `record_ready`, or every task
      left in `collect`. */
  method JoinAll(acc: LoadAccumulator, held: set<nat>, ready: set<nat>, fates: Fates)
    returns (failure: Option<Failure>)
    requires ready <= held && Tracks(acc, acc.arrived, held, fates)
    modifies acc
    ensures failure.Some? ==> Blames(failure.value, old(acc.arrived), fates)
    ensures failure.None? ==> Tracks(acc, old(acc.arrived), held - ready, fates)
  {
    ghost var arrived := acc.arrived;
    var left, rest := ready, held;
    while left != {}
      invariant left <= rest && rest - left == held - ready && Tracks(acc, arrived, rest, fates)
      decreases left
    {
      var i :| i in left;
      failure := JoinOne(acc, rest, i, fates);
      if failure.Some? {
        return;
      }
      left, rest := left - {i}, rest - {i};
    }
    assert rest == held - ready;
    failure := None;
  }

  lemma RecordDecided(arrived: seq<Arrival>, last: Arrival, held: set<nat>, joined: seq<OperationSample>, fates: Fates)
    requires Recorded(arrived, held, fates) && JoinedFrom(joined, arrived, held, fates.ends)
    ensures
      var held' := held + if last.dispatched then {|arrived|} else {};
      Recorded(arrived + [last], held', fates) && JoinedFrom(joined, arrived + [last], held', fates.ends)
  {
    var all, held' := arrived + [last], held + if last.dispatched then {|arrived|} else {};
    forall i: nat ensures Finished(all, held', i) <==> Finished(arrived, held, i) {
      DecideOneMore(arrived, last, held, i);
    }
    forall i | i in held' ensures IsDispatched(all, i) {
      assert i in held ==> IsDispatched(arrived, i);
    }
  }

  /** Records a decision and, when it is a dispatch, spawns its operation. */
  method RecordDecision(acc: LoadAccumulator, at: nat, dispatched: bool, held: set<nat>, ghost fates: Fates)
    requires Tracks(acc, acc.arrived, held, fates)
    modifies acc
    ensures
      var spawned := if dispatched then {|old(acc.arrived)|} else {};
      var arrival := Arrival(at, dispatched, |held| + if dispatched then 1 else 0);
      Tracks(acc, old(acc.arrived) + [arrival], held + spawned, fates)
  {
    var inFlight := |held| + if dispatched then 1 else 0;
    RecordDecided(acc.arrived, Arrival(at, dispatched, inFlight), held, acc.joined, fates);
    acc.RecordArrival(at, dispatched, inFlight);
  }

  /** The accumulator has made the first `i` of the decisions. */
  ghost predicate TracksFirst(acc: LoadAccumulator, decisions: seq<Arrival>, i: nat, held: set<nat>, fates: Fates)
    requires i <= |decisions|
    reads acc
  {
    Tracks(acc, decisions[..i], held, fates)
  }

  method Begin(ghost decisions: seq<Arrival>, ghost fates: Fates) returns (acc: LoadAccumulator)
    ensures fresh(acc) && TracksFirst(acc, decisions, 0, {}, fates)
  {
    acc := new LoadAccumulator();
  }

  lemma BlamesAll(failure: Failure, decisions: seq<Arrival>, i: nat, fates: Fates)
    requires i <= |decisions| && Blames(failure, decisions[..i], fates)
    ensures Blames(failure, decisions, fates)
  {
    var k: nat :| IsDispatched(decisions[..i], k) && FailsWith(failure, fates, k);
    assert IsDispatched(decisions, k);
  }

  method JoinSome(acc: LoadAccumulator, ghost decisions: seq<Arrival>, ghost i: nat, held: set<nat>, ready: set<nat>,
                  fates: Fates)
    returns (failure: Option<Failure>)
    requires i <= |decisions| && ready <= held && TracksFirst(acc, decisions, i, held, fates)
    modifies acc
    ensures failure.Some? ==> Reports(Err(failure.value), decisions, fates)
    ensures failure.None? ==> TracksFirst(acc, decisions, i, held - ready, fates)
  {
    failure := JoinAll(acc, held, ready, fates);
    if failure.Some? {
      BlamesAll(failure.value, decisions, i, fates);
    }
  }

  method DecideNext(acc: LoadAccumulator, ghost decisions: seq<Arrival>, i: nat, at: nat, dispatched: bool,
                    held: set<nat>, ghost fates: Fates)
    requires i < |decisions| && TracksFirst(acc, decisions, i, held, fates)
    requires decisions[i] == Arrival(at, dispatched, |held| + if dispatched then 1 else 0)
    modifies acc
    ensures TracksFirst(acc, decisions, i + 1, held + (if dispatched then {i} else {}), fates)
  {
    assert decisions[..i + 1] == decisions[..i] + [decisions[i]];
    RecordDecision(acc, at, dispatched, held, fates);
  }

  /** The end of every run: join what is left, then report. */
  method Drain(acc: LoadAccumulator, ghost decisions: seq<Arrival>, held: set<nat>, fates: Fates)
    returns (result: Result<LoadResult, Failure>)
    requires TracksFirst(acc, decisions, |decisions|, held, fates)
    modifies acc
    ensures Reports(result, decisions, fates)
  {
    assert decisions[..|decisions|] == decisions;
    var failure := JoinAll(acc, held, held, fates);
    if failure.Some? {
      return Err(failure.value);
    }
    assert held - held == {};
    var value := acc.Finish();
    FinishedAccounts(value, acc.joined, decisions, fates.ends);
    assert forall i: nat :: IsDispatched(decisions, i) <==> Finished(decisions, {}, i);
    result := Ok(value);
  }

  // ----- Open loop -----

  /** What happens before a decision: tasks give back their permits, and some without one are joined. */
  method SettleTasks(acc: LoadAccumulator, ghost decisions: seq<Arrival>, ghost i: nat, pool: Pool, done: set<nat>,
                     joins: set<nat>, fates: Fates)
    returns (failure: Option<Failure>, ready: Pool)
    requires i <= |decisions| && pool.running !! pool.finished
    requires TracksFirst(acc, decisions, i, Tasks(pool), fates)
    modifies acc
    ensures failure.Some? ==> Reports(Err(failure.value), decisions, fates)
    ensures ready == Settle(pool, done, joins)
    ensures failure.None? ==> TracksFirst(acc, decisions, i, Tasks(ready), fates)
  {
    var waiting := pool.finished + pool.running * done;
    SettleMoves(pool, done, joins);
    failure := JoinSome(acc, decisions, i, Tasks(pool), waiting * joins, fates);
    ready := Pool(pool.running - done, waiting - joins);
  }

  /** One arrival: dispatched when a permit is free, missed otherwise, never moved. */
  method OfferArrival(acc: LoadAccumulator, ghost decisions: seq<Arrival>, i: nat, at: nat, ready: Pool, max: nat,
                      ghost fates: Fates)
    returns (next: Pool)
    requires i < |decisions| && decisions[i] == Decided(at, ready, max)
    requires TracksFirst(acc, decisions, i, Tasks(ready), fates)
    modifies acc
    ensures next == Admit(ready, i, max) && TracksFirst(acc, decisions, i + 1, Tasks(next), fates)
  {
    var dispatched := |ready.running| < max;
    DecideNext(acc, decisions, i, at, dispatched, Tasks(ready), fates);
    next := if dispatched then Pool(ready.running + {i}, ready.finished) else ready;
    AdmitMoves(ready, i, max);
  }

  /** One turn of an open loop. */
  method OpenLoopStep(acc: LoadAccumulator, ghost plan: PermitPlan, i: nat, at: nat, pool: Pool, world: World, max: nat,
                      fates: Fates)
    returns (failure: Option<Failure>, pool': Pool)
    requires PlansPermits(plan, world, max) && i < |plan.times| && at == plan.times[i] && pool == plan.pools[i]
    requires TracksFirst(acc, plan.decisions, i, Tasks(pool), fates)
    modifies acc
    ensures failure.Some? ==> Reports(Err(failure.value), plan.decisions, fates)
    ensures failure.None? ==>
      pool' == plan.pools[i + 1] && TracksFirst(acc, plan.decisions, i + 1, Tasks(pool'), fates)
  {
    assert PermitAt(plan, world, max, i);
    failure, pool' := SettleTasks(acc, plan.decisions, i, pool, world.finishes(i), world.joins(i), fates);
    if failure.None? {
      pool' := OfferArrival(acc, plan.decisions, i, at, pool', max, fates);
    }
  }

  /** The loop over a schedule. */
  method FollowSchedule(arrivals: seq<nat>, max: nat, world: World, ghost plan: PermitPlan, fates: Fates)
    returns (result: Result<LoadResult, Failure>)
    requires arrivals == plan.times && PlansPermits(plan, world, max)
    ensures Reports(result, plan.decisions, fates)
  {
    var acc := Begin(plan.decisions, fates);
    var pool, index: nat := Pool({}, {}), 0;
    assert Tasks(pool) == {};
    while index < |arrivals|
      invariant index <= |arrivals| && fresh(acc) && pool == plan.pools[index]
      invariant TracksFirst(acc, plan.decisions, index, Tasks(pool), fates)
    {
      var failure;
      failure, pool := OpenLoopStep(acc, plan, index, arrivals[index], pool, world, max, fates);
      if failure.Some? {
        return Err(failure.value);
      }
      index := index + 1;
    }
    result := Drain(acc, plan.decisions, Tasks(pool), fates);
  }

  /** Whatever permits come back and whatever is joined when, the run makes exactly the planned decisions
      and accounts for them. */
  method RunOpenLoop(arrivals: seq<nat>, max: nat, world: World, fates: Fates)
    returns (result: Result<LoadResult, Failure>)
    ensures
      if arrivals == [] || max == 0 || !Schedule.Monotonic(arrivals) then result == Err(Invalid)
      else Reports(result, Decisions(arrivals, world, max), fates)
  {
    var monotonic := Schedule.IsMonotonic(arrivals);
    if |arrivals| == 0 || max == 0 || !monotonic {
      return Err(Invalid);
    }
    PermitPlanPlans(arrivals, world, max);
    result := FollowSchedule(arrivals, max, world, PermitPlanOf(arrivals, world, max), fates);
  }

  // ----- Open loop for a duration -----

  /** The rate's arrival `k` is the next of the times and before the deadline, or comes after all of them. */
  ghost predicate OffersAt(duration: nat, rate: nat, times: seq<nat>, k: nat) {
    && rate > 0 && k <= |times|
    && var arrival := Arrivals.FixedArrival(k, rate);
       arrival.Ok? && if k < |times| then arrival.value == times[k] < duration else arrival.value >= duration
  }

  ghost predicate OffersAll(duration: nat, rate: nat, times: seq<nat>) {
    forall k :: 0 <= k <= |times| ==> OffersAt(duration, rate, times, k)
  }

  lemma RateOffersAll(duration: nat, rate: nat)
    requires 0 < rate <= Arrivals.U32_MAX
    ensures OffersAll(duration, rate, ExactTimes(rate, Offers(duration, rate)))
  {
    var times := ExactTimes(rate, Offers(duration, rate));
    forall k | 0 <= k <= |times| ensures OffersAt(duration, rate, times, k) {
      Arrivals.FixedArrivalIsExact(k, rate);
      Arrivals.ArrivalBeforeDeadline(k, rate, duration);
    }
  }

  method NextArrival(duration: nat, rate: nat, sequence: nat, ghost times: seq<nat>) returns (arrival: nat, over: bool)
    requires rate > 0 && OffersAll(duration, rate, times) && sequence <= |times|
    ensures (over <==> sequence == |times|) && (!over ==> arrival == times[sequence])
  {
    assert OffersAt(duration, rate, times, sequence);
    arrival := Arrivals.FixedArrival(sequence, rate).value;
    over := arrival >= duration;
  }

  /** The loop at a fixed rate. */
  method FollowRate(duration: nat, rate: nat, max: nat, world: World, ghost plan: PermitPlan, fates: Fates)
    returns (result: Result<LoadResult, Failure>)
    requires rate > 0 && OffersAll(duration, rate, plan.times) && PlansPermits(plan, world, max)
    ensures ReportsUnlessOverflow(result, plan.decisions, fates)
  {
    var acc := Begin(plan.decisions, fates);
    var pool, sequence: nat := Pool({}, {}), 0;
    assert Tasks(pool) == {};
    while true
      invariant sequence <= |plan.times| && sequence <= Arrivals.U64_MAX && fresh(acc) && pool == plan.pools[sequence]
      invariant TracksFirst(acc, plan.decisions, sequence, Tasks(pool), fates)
      decreases |plan.times| - sequence
    {
      var arrival, over := NextArrival(duration, rate, sequence, plan.times);
      if over {
        break;
      }
      var failure;
      failure, pool := OpenLoopStep(acc, plan, sequence, arrival, pool, world, max, fates);
      if failure.Some? {
        return Err(failure.value);
      }
      if sequence == Arrivals.U64_MAX {
        return Err(SequenceOverflow);
      }
      sequence := sequence + 1;
    }
    result := Drain(acc, plan.decisions, Tasks(pool), fates);
  }

  /** The same at a fixed rate: the decisions are the planned ones for exactly ceil(duration * rate / 10^9)
      arrivals at their exact times. Only more of them than 64 bits can number make the run overflow. */
  method RunOpenLoopFor(duration: nat, rate: nat, max: nat, world: World, fates: Fates)
    returns (result: Result<LoadResult, Failure>)
    ensures duration == 0 || rate == 0 || max == 0 || rate > Arrivals.U32_MAX ==> result == Err(Invalid)
    ensures duration != 0 && 0 < rate <= Arrivals.U32_MAX && max != 0 ==>
      var times := ExactTimes(rate, Offers(duration, rate));
      ReportsUnlessOverflow(result, Decisions(times, world, max), fates)
  {
    if duration == 0 || rate == 0 || max == 0 || rate > Arrivals.U32_MAX {
      return Err(Invalid);
    }
    ghost var times := ExactTimes(rate, Offers(duration, rate));
    PermitPlanPlans(times, world, max);
    RateOffersAll(duration, rate);
    result := FollowRate(duration, rate, max, world, PermitPlanOf(times, world, max), fates);
  }

  // ----- Closed loop -----

  /** The task that completes first, as `join_next` yields it. */
  method FindFirst(tasks: set<nat>, completes: nat -> nat) returns (i: nat)
    requires tasks != {}
    ensures i == First(tasks, completes)
  {
    i :| i in tasks;
    var left := tasks - {i};
    while left != {}
      invariant left <= tasks && IsFirst(tasks - left, completes, i)
      decreases left
    {
      var j :| j in left;
      left := left - {j};
      assert tasks - left == (tasks - (left + {j})) + {j};
      if completes(j) < completes(i) || (completes(j) == completes(i) && j < i) {
        i := j;
      }
    }
    assert tasks - left == tasks;
    FirstIsUnique(tasks, completes, i, First(tasks, completes));
  }

  /** With every slot taken, waits for the task that completes first and joins it. */
  method FreeSlot(acc: LoadAccumulator, ghost starts: seq<Arrival>, ghost i: nat, completes: nat -> nat,
                  ghost concurrency: nat, tasks: set<nat>, ghost held: set<nat>, fates: Fates)
    returns (failure: Option<Failure>, tasks': set<nat>)
    requires concurrency <= i <= |starts| && HasSlot(i, held, tasks, completes, concurrency)
    requires TracksFirst(acc, starts, i, tasks, fates)
    modifies acc
    ensures failure.Some? ==> Reports(Err(failure.value), starts, fates)
    ensures failure.None? ==> tasks' == held && TracksFirst(acc, starts, i, held, fates)
  {
    var first := FindFirst(tasks, completes);
    failure := JoinSome(acc, starts, i, tasks, {first}, fates);
    tasks' := tasks - {first};
  }

  method StartOperation(acc: LoadAccumulator, ghost starts: seq<Arrival>, i: nat, at: nat, held: set<nat>,
                        ghost next: set<nat>, ghost fates: Fates)
    returns (tasks: set<nat>)
    requires i < |starts| && StartsNext(i, starts[i], held, next, at)
    requires TracksFirst(acc, starts, i, held, fates)
    modifies acc
    ensures tasks == next && TracksFirst(acc, starts, i + 1, next, fates)
  {
    DecideNext(acc, starts, i, at, true, held, fates);
    tasks := held + {i};
  }

  /** One turn of a closed loop: with every slot taken first free one, then start the next operation. */
  method ClosedTurn(acc: LoadAccumulator, ghost plan: SlotPlan, i: nat, concurrency: nat, world: ClosedWorld,
                    tasks: set<nat>, fates: Fates)
    returns (failure: Option<Failure>, tasks': set<nat>)
    requires PlansSlots(plan, world, concurrency) && i < |plan.starts| && tasks == plan.spawned[i]
    requires TracksFirst(acc, plan.starts, i, tasks, fates)
    modifies acc
    ensures failure.Some? ==> Reports(Err(failure.value), plan.starts, fates)
    ensures failure.None? ==> tasks' == plan.spawned[i + 1] && TracksFirst(acc, plan.starts, i + 1, tasks', fates)
  {
    assert SlotAt(plan, world, concurrency, i) && StartAt(plan, world, i);
    failure, tasks' := None, tasks;
    if |tasks| == concurrency {
      failure, tasks' := FreeSlot(acc, plan.starts, i, world.completes, concurrency, tasks, plan.held[i], fates);
    }
    if failure.None? {
      tasks' := StartOperation(acc, plan.starts, i, world.elapsed(i), tasks', plan.spawned[i + 1], fates);
    }
  }

  method RunOperations(operations: nat, concurrency: nat, world: ClosedWorld, ghost plan: SlotPlan, fates: Fates)
    returns (result: Result<LoadResult, Failure>)
    requires operations == |plan.starts| && PlansSlots(plan, world, concurrency)
    ensures Reports(result, plan.starts, fates)
  {
    var acc := Begin(plan.starts, fates);
    var tasks: set<nat> := {};
    for sequence := 0 to operations
      invariant fresh(acc) && tasks == plan.spawned[sequence]
      invariant TracksFirst(acc, plan.starts, sequence, tasks, fates)
    {
      var failure;
      failure, tasks := ClosedTurn(acc, plan, sequence, concurrency, world, tasks, fates);
      if failure.Some? {
        return Err(failure.value);
      }
    }
    result := Drain(acc, plan.starts, tasks, fates);
  }

  /** Exactly the requested operations start, each as planned, whatever the order of completion. */
  method RunClosedLoop(operations: nat, concurrency: nat, world: ClosedWorld, fates: Fates)
    returns (result: Result<LoadResult, Failure>)
    ensures
      if operations == 0 || concurrency == 0 then result == Err(Invalid)
      else Reports(result, Starts(world, concurrency, operations), fates)
  {
    if operations == 0 || concurrency == 0 {
      return Err(Invalid);
    }
    SlotPlanPlans(world, concurrency, operations);
    result := RunOperations(operations, concurrency, world, SlotPlanOf(world, concurrency, operations), fates);
  }

  // ----- Closed loop until a deadline -----

  /** Where the loop stands: the next operation, the next reading of the clock, the tasks held. */
  datatype Turn = Turn(sequence: nat, look: nat, tasks: set<nat>)

  /** Slots are being filled: one is free, and the next reading decides whether the next operation
      starts; or all are taken. */
  ghost predicate Filling(plan: SlotPlan, turn: Turn, concurrency: nat) {
    && turn.sequence < |plan.held|
    && if |turn.tasks| < concurrency then turn.tasks == plan.held[turn.sequence] && Deciding(turn, concurrency)
       else IsFull(plan, turn, concurrency)
  }

  ghost predicate Deciding(turn: Turn, concurrency: nat) {
    turn.look == LookOf(turn.sequence, concurrency)
  }

  /** All slots are taken, and the next reading comes before the wait for one. */
  ghost predicate IsFull(plan: SlotPlan, turn: Turn, concurrency: nat) {
    && concurrency <= turn.sequence < |plan.spawned| && turn.tasks == plan.spawned[turn.sequence]
    && turn.look + 1 == LookOf(turn.sequence, concurrency)
  }

  /** The whole plan has started and the deadline is past. */
  ghost predicate IsPast(plan: SlotPlan, turn: Turn, concurrency: nat) {
    turn.sequence == |plan.starts| && turn.look == LookOf(turn.sequence, concurrency) + 1
  }

  ghost predicate FilledUp(plan: SlotPlan, turn: Turn, concurrency: nat) {
    IsFull(plan, turn, concurrency) || IsPast(plan, turn, concurrency)
  }

  lemma FillNext(plan: SlotPlan, world: ClosedWorld, concurrency: nat, turn: Turn)
    requires PlansSlots(plan, world, concurrency) && Filling(plan, turn, concurrency)
    requires turn.sequence < |plan.starts| && |turn.tasks| < concurrency
    ensures
      var i, next := turn.sequence, plan.spawned[turn.sequence + 1];
      && StartsNext(i, plan.starts[i], turn.tasks, next, world.elapsed(i))
      && |next| == |turn.tasks| + 1
      && Filling(plan, Turn(i + 1, turn.look + 1, next), concurrency)
  {
    assert StartAt(plan, world, turn.sequence) && SlotAt(plan, world, concurrency, turn.sequence + 1);
  }

  /** With a slot free, the next operation of the plan starts. */
  method FillOne(acc: LoadAccumulator, ghost plan: SlotPlan, turn: Turn, ghost concurrency: nat, world: ClosedWorld,
                 ghost fates: Fates)
    returns (tasks: set<nat>)
    requires PlansSlots(plan, world, concurrency) && Filling(plan, turn, concurrency)
    requires turn.sequence < |plan.starts| && |turn.tasks| < concurrency
    requires TracksFirst(acc, plan.starts, turn.sequence, turn.tasks, fates)
    modifies acc
    ensures |tasks| == |turn.tasks| + 1 && Filling(plan, Turn(turn.sequence + 1, turn.look + 1, tasks), concurrency)
    ensures TracksFirst(acc, plan.starts, turn.sequence + 1, tasks, fates)
  {
    var i := turn.sequence;
    FillNext(plan, world, concurrency, turn);
    tasks := StartOperation(acc, plan.starts, i, world.elapsed(i), turn.tasks, plan.spawned[i + 1], fates);
  }

  /** Reads the clock. */
  method IsEarly(deadline: Deadline, ghost concurrency: nat, ghost n: nat, turn: Turn) returns (early: bool)
    requires IsCount(deadline, concurrency, n) && Deciding(turn, concurrency)
    ensures early <==> turn.sequence < n
  {
    assert Early(deadline, LookOf(turn.sequence, concurrency)) <==> turn.sequence < n;
    early := deadline.clock(turn.look) < deadline.duration;
  }

  /** Starts operations while a slot is free and the clock is before the deadline. */
  method FillSlots(acc: LoadAccumulator, ghost plan: SlotPlan, turn: Turn, deadline: Deadline, concurrency: nat,
                   world: ClosedWorld, ghost fates: Fates)
    returns (overflow: bool, turn': Turn)
    requires PlansSlots(plan, world, concurrency) && IsCount(deadline, concurrency, |plan.starts|)
    requires Filling(plan, turn, concurrency) && |turn.tasks| < concurrency && turn.sequence <= Arrivals.U64_MAX
    requires TracksFirst(acc, plan.starts, turn.sequence, turn.tasks, fates)
    modifies acc
    ensures overflow ==> |plan.starts| > Arrivals.U64_MAX
    ensures !overflow ==> turn'.sequence <= |plan.starts| && turn'.sequence <= Arrivals.U64_MAX
    ensures !overflow ==> TracksFirst(acc, plan.starts, turn'.sequence, turn'.tasks, fates)
    ensures !overflow ==> turn.look < turn'.look && FilledUp(plan, turn', concurrency)
  {
    turn' := turn;
    while |turn'.tasks| < concurrency
      invariant Filling(plan, turn', concurrency) && turn'.sequence <= Arrivals.U64_MAX
      invariant turn'.look >= turn.look && (|turn'.tasks| >= concurrency ==> turn'.look > turn.look)
      invariant TracksFirst(acc, plan.starts, turn'.sequence, turn'.tasks, fates)
      decreases concurrency - |turn'.tasks|
    {
      var early := IsEarly(deadline, concurrency, |plan.starts|, turn');
      if !early {
        return false, turn'.(look := turn'.look + 1);
      }
      var tasks := FillOne(acc, plan, turn', concurrency, world, fates);
      if turn'.sequence == Arrivals.U64_MAX {
        return true, turn';
      }
      turn' := Turn(turn'.sequence + 1, turn'.look + 1, tasks);
    }
    overflow := false;
  }

  /** The deadline wakes a wait only once it has passed. */
  ghost predicate WakesLate(deadline: Deadline, concurrency: nat) {
    forall i: nat :: deadline.wakes(i) ==> !Early(deadline, LookOf(i, concurrency))
  }

  /** Time moves forward, the deadline wakes no wait early, and `n` operations start. */
  ghost predicate Timed(deadline: Deadline, concurrency: nat, n: nat) {
    Forward(deadline.clock) && WakesLate(deadline, concurrency) && IsCount(deadline, concurrency, n)
  }

  /** When the loop ends, by the clock or by the deadline that wakes a wait, the whole plan has started. */
  lemma EndsPast(plan: SlotPlan, turn: Turn, deadline: Deadline, concurrency: nat)
    requires turn.sequence <= |plan.starts| && FilledUp(plan, turn, concurrency)
    requires Timed(deadline, concurrency, |plan.starts|)
    ensures !Early(deadline, turn.look) || deadline.wakes(turn.sequence) ==> turn.sequence == |plan.starts|
    ensures IsPast(plan, turn, concurrency) ==> !Early(deadline, turn.look)
  {
    var look := LookOf(turn.sequence, concurrency);
    assert Early(deadline, LookOf(turn.sequence, concurrency)) <==> turn.sequence < |plan.starts|;
    if IsFull(plan, turn, concurrency) {
      assert deadline.clock(turn.look) <= deadline.clock(look);
    } else {
      assert deadline.clock(look) <= deadline.clock(turn.look);
    }
  }

  /** Waits for a completion or the deadline, whichever wakes the loop. */
  method AwaitSlot(acc: LoadAccumulator, ghost plan: SlotPlan, turn: Turn, deadline: Deadline, ghost concurrency: nat,
                   world: ClosedWorld, fates: Fates)
    returns (failure: Option<Failure>, over: bool, tasks: set<nat>)
    requires concurrency > 0 && PlansSlots(plan, world, concurrency) && turn.sequence <= |plan.starts|
    requires FilledUp(plan, turn, concurrency) && Timed(deadline, concurrency, |plan.starts|)
    requires TracksFirst(acc, plan.starts, turn.sequence, turn.tasks, fates)
    modifies acc
    ensures failure.Some? ==> Reports(Err(failure.value), plan.starts, fates)
    ensures failure.None? ==> TracksFirst(acc, plan.starts, turn.sequence, tasks, fates)
    ensures failure.None? && over ==> turn.sequence == |plan.starts|
    ensures failure.None? && !over ==>
      && tasks == plan.held[turn.sequence] && Early(deadline, turn.look)
      && turn.look + 1 == LookOf(turn.sequence, concurrency)
  {
    assert SlotAt(plan, world, concurrency, turn.sequence);
    EndsPast(plan, turn, deadline, concurrency);
    failure, over, tasks := None, true, turn.tasks;
    if turn.tasks == {} || deadline.clock(turn.look) >= deadline.duration || deadline.wakes(turn.sequence) {
      return;
    }
    over := false;
    ghost var held := plan.held[turn.sequence];
    failure, tasks := FreeSlot(acc, plan.starts, turn.sequence, world.completes, concurrency, turn.tasks, held, fates);
  }

  lemma ReadyToFill(plan: SlotPlan, world: ClosedWorld, concurrency: nat, turn: Turn)
    requires PlansSlots(plan, world, concurrency) && turn.sequence <= |plan.starts|
    requires turn.tasks == plan.held[turn.sequence] && Deciding(turn, concurrency)
    ensures Filling(plan, turn, concurrency) && |turn.tasks| < concurrency
  {
    assert SlotAt(plan, world, concurrency, turn.sequence);
  }

  lemma StartsReady(plan: SlotPlan, world: ClosedWorld, concurrency: nat)
    requires concurrency > 0 && PlansSlots(plan, world, concurrency)
    ensures plan.held[0] == {}
  {
    assert SlotAt(plan, world, concurrency, 0);
  }

  lemma BeforeLast(deadline: Deadline, look: nat, last: nat)
    requires Forward(deadline.clock) && Early(deadline, look) && !Early(deadline, last)
    ensures look < last
  {
    assert last <= look ==> deadline.clock(last) <= deadline.clock(look);
  }

  method RunUntilDeadline(deadline: Deadline, concurrency: nat, world: ClosedWorld, ghost plan: SlotPlan, fates: Fates,
                          ghost last: nat)
    returns (result: Result<LoadResult, Failure>)
    requires concurrency > 0 && PlansSlots(plan, world, concurrency)
    requires Timed(deadline, concurrency, |plan.starts|) && !Early(deadline, last)
    ensures ReportsUnlessOverflow(result, plan.starts, fates)
  {
    var acc := Begin(plan.starts, fates);
    var turn, over := Turn(0, 0, {}), false;
    StartsReady(plan, world, concurrency);
    while !over
      invariant turn.sequence <= |plan.starts| && turn.sequence <= Arrivals.U64_MAX && fresh(acc)
      invariant TracksFirst(acc, plan.starts, turn.sequence, turn.tasks, fates)
      invariant if over then turn.sequence == |plan.starts|
                else turn.tasks == plan.held[turn.sequence] && Deciding(turn, concurrency)
      decreases !over, if turn.look <= last then last - turn.look else 0
    {
      ReadyToFill(plan, world, concurrency, turn);
      ghost var began := turn.look;
      var overflow, failure, tasks;
      overflow, turn := FillSlots(acc, plan, turn, deadline, concurrency, world, fates);
      if overflow {
        return Err(SequenceOverflow);
      }
      failure, over, tasks := AwaitSlot(acc, plan, turn, deadline, concurrency, world, fates);
      if failure.Some? {
        return Err(failure.value);
      }
      if !over {
        BeforeLast(deadline, turn.look, last);
      }
      turn := Turn(turn.sequence, turn.look + 1, tasks);
    }
    result := Drain(acc, plan.starts, turn.tasks, fates);
  }

  /** Exactly the operations start whose reading of the clock is before the deadline, each as planned:
      whatever the order of completion, and whether completions or the deadline wake the loop. */
  method RunClosedLoopFor(deadline: Deadline, concurrency: nat, world: ClosedWorld, fates: Fates, ghost last: nat)
    returns (result: Result<LoadResult, Failure>)
    requires Forward(deadline.clock) && !Early(deadline, last) && WakesLate(deadline, concurrency)
    ensures deadline.duration == 0 || concurrency == 0 ==> result == Err(Invalid)
    ensures deadline.duration > 0 && concurrency > 0 ==>
      exists n: nat :: IsCount(deadline, concurrency, n)
                    && ReportsUnlessOverflow(result, Starts(world, concurrency, n), fates)
  {
    if deadline.duration == 0 || concurrency == 0 {
      return Err(Invalid);
    }
    assert deadline.clock(last) <= deadline.clock(LookOf(last, concurrency));
    ghost var n := CountExists(deadline, concurrency, last);
    SlotPlanPlans(world, concurrency, n);
    result := RunUntilDeadline(deadline, concurrency, world, SlotPlanOf(world, concurrency, n), fates, last);
  }
}
