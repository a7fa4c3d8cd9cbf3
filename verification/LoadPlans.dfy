/** What the load engine (bench/src/engine.rs) must decide, as a function of what happens to the tasks:
    which permits are back and which tasks are joined before a decision, and in which order tasks
    complete. All of that is arbitrary. */
module LoadPlans {
  import opened LoadAccounting
  import opened LoadEngine
  import Arrivals
  import Schedule

  // ----- Open loop: permits -----

  /** Before decision `i` the tasks `finishes(i)` give their permits back, and those of `joins(i)` that
      have no permit any more are joined. */
  datatype World = World(finishes: nat -> set<nat>, joins: nat -> set<nat>)

  /** The spawned tasks not yet joined: with a permit, and without. */
  datatype Pool = Pool(running: set<nat>, finished: set<nat>)

  function Tasks(pool: Pool): set<nat> {
    pool.running + pool.finished
  }

  function Settle(pool: Pool, done: set<nat>, joined: set<nat>): Pool {
    Pool(pool.running - done, (pool.finished + pool.running * done) - joined)
  }

  function Admit(pool: Pool, i: nat, max: nat): Pool {
    if |pool.running| < max then Pool(pool.running + {i}, pool.finished) else pool
  }

  /** The pool when decision `i` is next. */
  ghost function Before(world: World, max: nat, i: nat): Pool
    decreases i, 0
  {
    if i == 0 then Pool({}, {}) else Admit(Ready(world, max, i - 1), i - 1, max)
  }

  /** The pool decision `i` meets. */
  ghost function Ready(world: World, max: nat, i: nat): Pool
    decreases i, 1
  {
    Settle(Before(world, max, i), world.finishes(i), world.joins(i))
  }

  /** The record of an arrival that meets the pool. */
  function Decided(at: nat, pool: Pool, max: nat): Arrival {
    var dispatched := |pool.running| < max;
    Arrival(at, dispatched, |Tasks(pool)| + if dispatched then 1 else 0)
  }

  ghost function Decision(at: nat, world: World, max: nat, i: nat): Arrival {
    Decided(at, Ready(world, max, i), max)
  }

  /** The decisions of an open loop over the scheduled times. */
  ghost function Decisions(times: seq<nat>, world: World, max: nat): seq<Arrival> {
    seq(|times|, i requires 0 <= i < |times| => Decision(times[i], world, max, i))
  }

  /** No task is on both sides, at most `max` hold permits, and all were decided before `i`. */
  ghost predicate Shaped(pool: Pool, max: nat, i: nat) {
    pool.running !! pool.finished && |pool.running| <= max && forall j :: j in Tasks(pool) ==> j < i
  }

  lemma SettleShape(pool: Pool, done: set<nat>, joined: set<nat>, max: nat, i: nat)
    requires Shaped(pool, max, i)
    ensures Shaped(Settle(pool, done, joined), max, i)
  {
    FewerRun(pool.running, done);
    assert Tasks(Settle(pool, done, joined)) <= Tasks(pool);
  }

  lemma AdmitShape(pool: Pool, max: nat, i: nat)
    requires Shaped(pool, max, i)
    ensures Shaped(Admit(pool, i, max), max, i + 1)
  {
    assert i !in Tasks(pool);
  }

  lemma ShapeNext(pool: Pool, done: set<nat>, joined: set<nat>, max: nat, i: nat)
    requires Shaped(pool, max, i)
    ensures Shaped(Admit(Settle(pool, done, joined), i, max), max, i + 1)
  {
    SettleShape(pool, done, joined, max, i);
    AdmitShape(Settle(pool, done, joined), max, i);
  }

  lemma {:induction false} BeforeShape(world: World, max: nat, i: nat)
    ensures Shaped(Before(world, max, i), max, i)
  {
    if i > 0 {
      BeforeShape(world, max, i - 1);
      ShapeNext(Before(world, max, i - 1), world.finishes(i - 1), world.joins(i - 1), max, i - 1);
    }
  }

  lemma PoolShape(world: World, max: nat, i: nat)
    ensures Shaped(Before(world, max, i), max, i) && Shaped(Ready(world, max, i), max, i)
  {
    BeforeShape(world, max, i);
    SettleShape(Before(world, max, i), world.finishes(i), world.joins(i), max, i);
  }

  /** The decisions over scheduled times, with the pool before each. */
  datatype PermitPlan = PermitPlan(times: seq<nat>, decisions: seq<Arrival>, pools: seq<Pool>)

  ghost predicate PlansPermits(plan: PermitPlan, world: World, max: nat) {
    && |plan.decisions| == |plan.times| && |plan.pools| == |plan.times| + 1 && plan.pools[0] == Pool({}, {})
    && forall i :: 0 <= i < |plan.times| ==> PermitAt(plan, world, max, i)
  }

  ghost predicate PermitAt(plan: PermitPlan, world: World, max: nat, i: nat) {
    && i < |plan.times| && i < |plan.decisions| && i + 1 < |plan.pools|
    && PlansNext(plan.decisions[i], plan.pools[i], plan.pools[i + 1], plan.times[i], world, max, i)
  }

  ghost predicate PlansNext(decision: Arrival, pool: Pool, next: Pool, at: nat, world: World, max: nat, i: nat) {
    var ready := Settle(pool, world.finishes(i), world.joins(i));
    pool.running !! pool.finished && decision == Decided(at, ready, max) && next == Admit(ready, i, max)
  }

  ghost function PermitPlanOf(times: seq<nat>, world: World, max: nat): PermitPlan {
    var pools := seq(|times| + 1, i requires 0 <= i <= |times| => Before(world, max, i));
    PermitPlan(times, Decisions(times, world, max), pools)
  }

  lemma PermitPlanAt(plan: PermitPlan, world: World, max: nat, i: nat)
    requires plan == PermitPlanOf(plan.times, world, max) && i < |plan.times|
    ensures PermitAt(plan, world, max, i)
  {
    BeforePlansNext(plan.times[i], world, max, i);
    assert plan.decisions[i] == Decision(plan.times[i], world, max, i);
    assert plan.pools[i] == Before(world, max, i) && plan.pools[i + 1] == Before(world, max, i + 1);
  }

  lemma PermitPlanPlans(times: seq<nat>, world: World, max: nat)
    ensures PlansPermits(PermitPlanOf(times, world, max), world, max)
  {
    var plan := PermitPlanOf(times, world, max);
    forall i | 0 <= i < |times| ensures PermitAt(plan, world, max, i) {
      PermitPlanAt(plan, world, max, i);
    }
  }

  lemma BeforePlansNext(at: nat, world: World, max: nat, i: nat)
    ensures PlansNext(Decision(at, world, max, i), Before(world, max, i), Before(world, max, i + 1), at, world, max, i)
  {
    PoolShape(world, max, i);
  }

  lemma FewerRun(running: set<nat>, done: set<nat>)
    ensures |running - done| + |running * done| == |running|
  {
    assert running == (running - done) + running * done;
  }

  /** The tasks that hold a permit at decision `i`: dispatched earlier, permit not back since. */
  ghost predicate HoldsPermit(decisions: seq<Arrival>, world: World, i: nat, j: nat) {
    j < i && j < |decisions| && decisions[j].dispatched && forall k :: j < k <= i ==> j !in world.finishes(k)
  }

  ghost function Permits(decisions: seq<Arrival>, world: World, i: nat): set<nat> {
    set j: nat | j < i && HoldsPermit(decisions, world, i, j)
  }

  lemma PermitStep(decisions: seq<Arrival>, world: World, i: nat, j: nat)
    requires i < |decisions|
    ensures HoldsPermit(decisions, world, i + 1, j) <==>
      (HoldsPermit(decisions, world, i, j) || (j == i && decisions[i].dispatched)) && j !in world.finishes(i + 1)
  {
  }

  lemma {:induction false} PermitsAreRunning(times: seq<nat>, world: World, max: nat, i: nat, j: nat)
    requires i <= |times|
    ensures HoldsPermit(Decisions(times, world, max), world, i, j) <==> j in Ready(world, max, i).running
  {
    if i > 0 {
      PermitsAreRunning(times, world, max, i - 1, j);
      PermitStep(Decisions(times, world, max), world, i - 1, j);
    }
  }

  /** The rule of an open loop: an arrival is dispatched exactly when fewer than `max` permits are out,
      and never more than `max` are. */
  lemma PermitRule(times: seq<nat>, world: World, max: nat, i: nat)
    requires i < |times|
    ensures
      var decisions := Decisions(times, world, max);
      var out := Permits(decisions, world, i);
      && decisions[i].at == times[i]
      && (decisions[i].dispatched <==> |out| < max)
      && |out| + (if decisions[i].dispatched then 1 else 0) <= max
  {
    var decisions := Decisions(times, world, max);
    PoolShape(world, max, i);
    assert Permits(decisions, world, i) == Ready(world, max, i).running by {
      forall j: nat ensures j in Permits(decisions, world, i) <==> j in Ready(world, max, i).running {
        PermitsAreRunning(times, world, max, i, j);
      }
    }
  }

  /** The rule leaves nothing open: decisions that follow it are dispatched alike. */
  lemma {:induction false} RuleDecides(times: seq<nat>, world: World, max: nat, decisions: seq<Arrival>, i: nat)
    requires i < |decisions| == |times|
    requires forall k :: 0 <= k < |decisions| ==> (decisions[k].dispatched <==> |Permits(decisions, world, k)| < max)
    ensures decisions[i].dispatched == Decisions(times, world, max)[i].dispatched
  {
    var planned := Decisions(times, world, max);
    forall k | 0 <= k < i ensures decisions[k].dispatched == planned[k].dispatched {
      RuleDecides(times, world, max, decisions, k);
    }
    assert forall j: nat :: HoldsPermit(decisions, world, i, j) <==> HoldsPermit(planned, world, i, j);
    assert Permits(decisions, world, i) == Permits(planned, world, i);
    PermitRule(times, world, max, i);
  }

  /** Every task dispatched before decision `i` holds a permit, waits to be joined, or was joined. */
  ghost function Joined(world: World, max: nat, i: nat): set<nat> {
    if i == 0 then {}
    else
      var pool := Before(world, max, i - 1);
      Joined(world, max, i - 1) + (pool.finished + pool.running * world.finishes(i - 1)) * world.joins(i - 1)
  }

  lemma SettleMoves(pool: Pool, done: set<nat>, joins: set<nat>)
    requires pool.running !! pool.finished
    ensures
      var ready, joined := Tasks(Settle(pool, done, joins)), (pool.finished + pool.running * done) * joins;
      ready + joined == Tasks(pool) && ready !! joined && Tasks(pool) - joined == ready
  {
  }

  lemma AdmitMoves(pool: Pool, i: nat, max: nat)
    ensures Tasks(Admit(pool, i, max)) == Tasks(pool) + if |pool.running| < max then {i} else {}
  {
  }

  lemma SetsMove(ids: set<nat>, tasks: set<nat>, joined: set<nat>, ready: set<nat>, moved: set<nat>, extra: set<nat>)
    requires ids == tasks + joined && tasks !! joined && tasks == ready + moved && ready !! moved && extra !! ids
    ensures ids + extra == (ready + extra) + (joined + moved) && (ready + extra) !! (joined + moved)
  {
  }

  lemma UnjoinedStep(ids: set<nat>, pool: Pool, joined: set<nat>, done: set<nat>, joins: set<nat>, max: nat, n: nat)
    requires ids == Tasks(pool) + joined && Tasks(pool) !! joined && pool.running !! pool.finished && n !in ids
    ensures
      var ready, all := Settle(pool, done, joins), joined + (pool.finished + pool.running * done) * joins;
      var next := Tasks(Admit(ready, n, max));
      ids + (if |ready.running| < max then {n} else {}) == next + all && next !! all
  {
    var ready := Settle(pool, done, joins);
    SettleMoves(pool, done, joins);
    AdmitMoves(ready, n, max);
    SetsMove(ids, Tasks(pool), joined, Tasks(ready), (pool.finished + pool.running * done) * joins,
             if |ready.running| < max then {n} else {});
  }

  ghost predicate Dispatches(world: World, max: nat, i: nat) {
    |Ready(world, max, i).running| < max
  }

  ghost function DispatchedBy(world: World, max: nat, i: nat): set<nat> {
    set j: nat | j < i && Dispatches(world, max, j)
  }

  lemma DispatchedByNext(world: World, max: nat, n: nat)
    ensures DispatchedBy(world, max, n + 1)
        == DispatchedBy(world, max, n) + (if Dispatches(world, max, n) then {n} else {})
  {
    var before, after := DispatchedBy(world, max, n), DispatchedBy(world, max, n + 1);
    forall j: nat ensures j in after <==> j in before || (j == n && Dispatches(world, max, n)) {
      assert j in after <==> j < n + 1 && Dispatches(world, max, j);
      assert j in before <==> j < n && Dispatches(world, max, j);
    }
  }

  lemma DecisionsDispatch(times: seq<nat>, world: World, max: nat, j: nat)
    requires j < |times|
    ensures IsDispatched(Decisions(times, world, max), j) <==> j in DispatchedBy(world, max, |times|)
  {
    assert Decisions(times, world, max)[j] == Decision(times[j], world, max, j);
  }

  /** The tasks are those dispatched and not joined. */
  lemma {:induction false} TasksAreUnjoined(world: World, max: nat, i: nat)
    ensures
      var tasks, joined := Tasks(Before(world, max, i)), Joined(world, max, i);
      DispatchedBy(world, max, i) == tasks + joined && tasks !! joined
  {
    if i > 0 {
      var n := i - 1;
      TasksAreUnjoined(world, max, n);
      assert Before(world, max, n).running !! Before(world, max, n).finished by { PoolShape(world, max, n); }
      DispatchedByNext(world, max, n);
      UnjoinedStep(DispatchedBy(world, max, n), Before(world, max, n), Joined(world, max, n),
                   world.finishes(n), world.joins(n), max, n);
    }
  }

  lemma AdmitCounts(pool: Pool, i: nat, max: nat)
    requires i !in Tasks(pool)
    ensures |Tasks(Admit(pool, i, max))| == |Tasks(pool)| + if |pool.running| < max then 1 else 0
  {
    AdmitMoves(pool, i, max);
  }

  lemma UnjoinedTasks(dispatched: set<nat>, tasks: set<nat>, joined: set<nat>)
    requires dispatched == tasks + joined && tasks !! joined
    ensures dispatched - joined == tasks
  {
  }

  /** The number recorded with an arrival counts the tasks dispatched so far, its own included, that are
      not joined. */
  lemma {:induction false} InFlightIsUnjoined(times: seq<nat>, world: World, max: nat, i: nat)
    requires i < |times|
    ensures
      var decision := Decisions(times, world, max)[i];
      decision.inFlight == |DispatchedBy(world, max, i + 1) - Joined(world, max, i + 1)|
  {
    TasksAreUnjoined(world, max, i + 1);
    UnjoinedTasks(DispatchedBy(world, max, i + 1), Tasks(Before(world, max, i + 1)), Joined(world, max, i + 1));
    InFlightIsTasks(times[i], world, max, i);
  }

  lemma {:induction false} InFlightIsTasks(at: nat, world: World, max: nat, i: nat)
    ensures Decision(at, world, max, i).inFlight == |Tasks(Before(world, max, i + 1))|
  {
    PoolShape(world, max, i);
    assert i !in Tasks(Ready(world, max, i));
    AdmitCounts(Ready(world, max, i), i, max);
  }

  // ----- Open loop: the scheduler -----

  /** The scheduler's history of a run: before each decision the completions of the tasks that gave
      their permits back, then a poll, `lag` after the scheduled time. */
  ghost function History(times: seq<nat>, backs: seq<nat>, lag: nat -> nat, i: nat): seq<Schedule.Action>
    requires i <= |times| == |backs|
  {
    if i == 0 then []
    else
      var earlier := History(times, backs, lag, i - 1);
      earlier + Schedule.Releases(backs[i - 1]) + [Schedule.Poll(times[i - 1] + lag(i - 1))]
  }

  ghost function Logged(at: nat, now: nat, dispatched: bool): Schedule.DispatchDecision {
    if dispatched then Schedule.Dispatched(at, now) else Schedule.Missed(at, now)
  }

  /** The log holds the first decisions, each polled `lag` after its scheduled time. */
  ghost predicate LogHolds(log: seq<Schedule.DispatchDecision>, times: seq<nat>, lag: nat -> nat,
                           decisions: seq<Arrival>)
    requires |times| == |decisions|
  {
    && |log| <= |decisions|
    && forall k :: 0 <= k < |log| ==> log[k] == Logged(times[k], times[k] + lag(k), decisions[k].dispatched)
  }

  /** How many permits are out before each decision, and how many come back. */
  ghost predicate CountsPermits(running: seq<nat>, backs: seq<nat>, decisions: seq<Arrival>, max: nat) {
    && |running| == |backs| + 1 && |backs| == |decisions| && running[0] == 0
    && forall i {:trigger backs[i]} :: 0 <= i < |backs| ==>
         CountsNext(running[i], backs[i], running[i + 1], decisions[i].dispatched, max)
  }

  ghost predicate CountsNext(running: nat, back: nat, next: nat, dispatched: bool, max: nat) {
    && back <= running <= max && (dispatched <==> running - back < max)
    && next == running - back + if dispatched then 1 else 0
  }

  lemma {:induction false} SchedulerFollows(times: seq<nat>, decisions: seq<Arrival>, running: seq<nat>,
                                            backs: seq<nat>, max: nat, lag: nat -> nat, i: nat)
    requires i <= |times| == |decisions| && CountsPermits(running, backs, decisions, max)
    ensures Follows(times, decisions, History(times, backs, lag, i), max, lag, i, running[i])
  {
    if i > 0 {
      var n := i - 1;
      SchedulerFollows(times, decisions, running, backs, max, lag, n);
      assert CountsNext(running[n], backs[n], running[n + 1], decisions[n].dispatched, max);
      FollowsNext(times, decisions, History(times, backs, lag, n), History(times, backs, lag, i), max, lag, n,
                  running[n], backs[n], running[i]);
    }
  }

  /** After the history the scheduler has decided the first arrivals as the run has. */
  ghost predicate Follows(times: seq<nat>, decisions: seq<Arrival>, history: seq<Schedule.Action>, max: nat,
                          lag: nat -> nat, i: nat, running: nat)
    requires |times| == |decisions|
  {
    && Schedule.After(times, max, history) == Schedule.Slots(i, running)
    && |Schedule.Log(times, max, history)| == i
    && LogHolds(Schedule.Log(times, max, history), times, lag, decisions)
  }

  lemma FollowsNext(times: seq<nat>, decisions: seq<Arrival>, history: seq<Schedule.Action>,
                    all: seq<Schedule.Action>, max: nat, lag: nat -> nat, n: nat, running: nat, back: nat, next: nat)
    requires n < |times| == |decisions| && Follows(times, decisions, history, max, lag, n, running)
    requires all == history + Schedule.Releases(back) + [Schedule.Poll(times[n] + lag(n))]
    requires CountsNext(running, back, next, decisions[n].dispatched, max)
    ensures Follows(times, decisions, all, max, lag, n + 1, next)
  {
    Schedule.PollAfterReleases(times, max, history, all, n, running, back, times[n] + lag(n));
    LogExtends(Schedule.Log(times, max, history), times, lag, decisions);
  }

  ghost function RunningAt(world: World, max: nat, i: nat): nat {
    |Before(world, max, i).running|
  }

  /** How many permits come back before a decision. */
  ghost function BackAt(world: World, max: nat, i: nat): nat {
    |Before(world, max, i).running * world.finishes(i)|
  }

  lemma CountStep(world: World, max: nat, i: nat)
    ensures CountsNext(RunningAt(world, max, i), BackAt(world, max, i), RunningAt(world, max, i + 1),
                       Dispatches(world, max, i), max)
  {
    FewerRun(Before(world, max, i).running, world.finishes(i));
    PoolShape(world, max, i);
    assert i !in Tasks(Ready(world, max, i));
    AdmitCount(Ready(world, max, i), i, max);
  }

  ghost function Backs(world: World, max: nat, n: nat): seq<nat> {
    seq(n, i requires 0 <= i < n => BackAt(world, max, i))
  }

  ghost function Runnings(world: World, max: nat, n: nat): seq<nat> {
    seq(n + 1, i requires 0 <= i <= n => RunningAt(world, max, i))
  }

  lemma {:induction false} PermitsCountAt(times: seq<nat>, world: World, max: nat, i: nat)
    requires i < |times|
    ensures CountsNext(Runnings(world, max, |times|)[i], Backs(world, max, |times|)[i],
                       Runnings(world, max, |times|)[i + 1], Decisions(times, world, max)[i].dispatched, max)
  {
    CountStep(world, max, i);
  }

  lemma PermitsCount(times: seq<nat>, world: World, max: nat, running: seq<nat>, backs: seq<nat>,
                     decisions: seq<Arrival>)
    requires running == Runnings(world, max, |times|) && backs == Backs(world, max, |times|)
    requires decisions == Decisions(times, world, max)
    ensures CountsPermits(running, backs, decisions, max)
  {
    assert running[0] == RunningAt(world, max, 0);
    forall i | 0 <= i < |times|
      ensures CountsNext(running[i], backs[i], running[i + 1], decisions[i].dispatched, max)
    {
      PermitsCountAt(times, world, max, i);
    }
  }

  /** A run decides exactly as the scheduler does on the run's own history, whenever the polls come: the
      scheduler's slots are the permits out, and its log holds the decisions. */
  lemma SchedulerDecides(times: seq<nat>, world: World, max: nat, lag: nat -> nat)
    ensures Follows(times, Decisions(times, world, max), History(times, Backs(world, max, |times|), lag, |times|), max,
                    lag, |times|, RunningAt(world, max, |times|))
  {
    var running, backs := Runnings(world, max, |times|), Backs(world, max, |times|);
    var decisions := Decisions(times, world, max);
    PermitsCount(times, world, max, running, backs, decisions);
    SchedulerFollows(times, decisions, running, backs, max, lag, |times|);
  }

  lemma LogExtends(log: seq<Schedule.DispatchDecision>, times: seq<nat>, lag: nat -> nat, decisions: seq<Arrival>)
    requires |times| == |decisions| > |log| && LogHolds(log, times, lag, decisions)
    ensures
      var n := |log|;
      LogHolds(log + [Logged(times[n], times[n] + lag(n), decisions[n].dispatched)], times, lag, decisions)
  {
  }

  lemma AdmitCount(pool: Pool, i: nat, max: nat)
    requires i !in pool.running
    ensures |Admit(pool, i, max).running| == |pool.running| + if |pool.running| < max then 1 else 0
  {
  }

  // ----- Closed loop -----

  /** When each operation starts, and the order in which tasks complete. */
  datatype ClosedWorld = ClosedWorld(elapsed: nat -> nat, completes: nat -> nat)

  /** Of the tasks, the one that completes first. */
  ghost predicate IsFirst(tasks: set<nat>, completes: nat -> nat, i: nat) {
    i in tasks && forall j :: j in tasks ==> completes(i) < completes(j) || (completes(i) == completes(j) && i <= j)
  }

  lemma {:induction false} FirstExists(tasks: set<nat>, completes: nat -> nat)
    requires tasks != {}
    ensures exists i :: IsFirst(tasks, completes, i)
    decreases |tasks|
  {
    var i :| i in tasks;
    if tasks == {i} {
      assert IsFirst(tasks, completes, i);
    } else {
      FirstExists(tasks - {i}, completes);
      var j :| IsFirst(tasks - {i}, completes, j);
      var least := if completes(i) < completes(j) || (completes(i) == completes(j) && i <= j) then i else j;
      assert forall k :: k in tasks ==> k == i || k in tasks - {i};
      assert IsFirst(tasks, completes, least);
    }
  }

  ghost function First(tasks: set<nat>, completes: nat -> nat): (i: nat)
    requires tasks != {}
    ensures IsFirst(tasks, completes, i)
  {
    FirstExists(tasks, completes);
    var i :| IsFirst(tasks, completes, i);
    i
  }

  lemma FirstIsUnique(tasks: set<nat>, completes: nat -> nat, i: nat, j: nat)
    requires IsFirst(tasks, completes, i) && IsFirst(tasks, completes, j)
    ensures i == j
  {
  }

  /** The tasks held once `i` operations have started. */
  ghost function Spawned(completes: nat -> nat, concurrency: nat, i: nat): (tasks: set<nat>)
    requires concurrency > 0
    ensures |tasks| == (if i < concurrency then i else concurrency) && forall j :: j in tasks ==> j < i
    decreases i, 0
  {
    if i == 0 then {} else Held(completes, concurrency, i - 1) + {i - 1}
  }

  /** The tasks held when operation `i` is about to start: with every slot taken, the task that
      completes first has been joined. */
  ghost function Held(completes: nat -> nat, concurrency: nat, i: nat): (tasks: set<nat>)
    requires concurrency > 0
    ensures |tasks| == (if i < concurrency then i else concurrency - 1) && forall j :: j in tasks ==> j < i
    decreases i, 1
  {
    var tasks := Spawned(completes, concurrency, i);
    if i < concurrency then tasks else tasks - {First(tasks, completes)}
  }

  ghost function Start(world: ClosedWorld, concurrency: nat, i: nat): Arrival
    requires concurrency > 0
  {
    Arrival(world.elapsed(i), true, |Held(world.completes, concurrency, i)| + 1)
  }

  /** The records of a closed loop that starts `n` operations. */
  ghost function Starts(world: ClosedWorld, concurrency: nat, n: nat): seq<Arrival>
    requires concurrency > 0
  {
    seq(n, i requires 0 <= i < n => Start(world, concurrency, i))
  }

  /** The starts of a closed loop, with the tasks held before each and those held once it is spawned. */
  datatype SlotPlan = SlotPlan(starts: seq<Arrival>, held: seq<set<nat>>, spawned: seq<set<nat>>)

  ghost predicate PlansSlots(plan: SlotPlan, world: ClosedWorld, concurrency: nat) {
    && |plan.held| == |plan.spawned| == |plan.starts| + 1 && plan.spawned[0] == {}
    && (forall i :: 0 <= i <= |plan.starts| ==> SlotAt(plan, world, concurrency, i))
    && (forall i :: 0 <= i < |plan.starts| ==> StartAt(plan, world, i))
  }

  ghost predicate SlotAt(plan: SlotPlan, world: ClosedWorld, concurrency: nat, i: nat) {
    && i < |plan.held| && i < |plan.spawned|
    && HasSlot(i, plan.held[i], plan.spawned[i], world.completes, concurrency)
  }

  ghost predicate StartAt(plan: SlotPlan, world: ClosedWorld, i: nat) {
    && i < |plan.starts| && i < |plan.held| && i + 1 < |plan.spawned|
    && StartsNext(i, plan.starts[i], plan.held[i], plan.spawned[i + 1], world.elapsed(i))
  }

  /** One slot is free when operation `i` is about to start; for it the first to complete was joined. */
  ghost predicate HasSlot(i: nat, held: set<nat>, spawned: set<nat>, completes: nat -> nat, concurrency: nat) {
    && |held| < concurrency
    && if i < concurrency then held == spawned && |spawned| == i
       else |spawned| == concurrency && spawned != {} && held == spawned - {First(spawned, completes)}
  }

  ghost predicate StartsNext(i: nat, start: Arrival, held: set<nat>, spawned: set<nat>, at: nat) {
    start == Arrival(at, true, |held| + 1) && spawned == held + {i} && |spawned| == |held| + 1
  }

  lemma SlotIsPlanned(completes: nat -> nat, concurrency: nat, i: nat)
    requires concurrency > 0
    ensures HasSlot(i, Held(completes, concurrency, i), Spawned(completes, concurrency, i), completes, concurrency)
  {
  }

  lemma StartIsPlanned(world: ClosedWorld, concurrency: nat, i: nat)
    requires concurrency > 0
    ensures
      var held, next := Held(world.completes, concurrency, i), Spawned(world.completes, concurrency, i + 1);
      StartsNext(i, Start(world, concurrency, i), held, next, world.elapsed(i))
  {
  }

  ghost function SlotPlanOf(world: ClosedWorld, concurrency: nat, n: nat): SlotPlan
    requires concurrency > 0
  {
    SlotPlan(Starts(world, concurrency, n),
             seq(n + 1, i requires 0 <= i <= n => Held(world.completes, concurrency, i)),
             seq(n + 1, i requires 0 <= i <= n => Spawned(world.completes, concurrency, i)))
  }

  lemma {:induction false} SlotPlanPlans(world: ClosedWorld, concurrency: nat, n: nat)
    requires concurrency > 0
    ensures PlansSlots(SlotPlanOf(world, concurrency, n), world, concurrency)
  {
    var plan := SlotPlanOf(world, concurrency, n);
    forall i | 0 <= i <= n ensures SlotAt(plan, world, concurrency, i) {
      SlotIsPlanned(world.completes, concurrency, i);
    }
    forall i | 0 <= i < n ensures StartAt(plan, world, i) {
      StartIsPlanned(world, concurrency, i);
    }
  }

  /** A closed loop never holds more than `concurrency` tasks, and from the first time on every start
      fills the last slot, whatever the order of completion. */
  lemma SlotsStayFull(world: ClosedWorld, concurrency: nat, n: nat, i: nat)
    requires concurrency > 0 && i < n
    ensures
      var start := Starts(world, concurrency, n)[i];
      && start.at == world.elapsed(i) && start.dispatched
      && start.inFlight == (if i < concurrency then i + 1 else concurrency)
      && start.inFlight == |Spawned(world.completes, concurrency, i + 1)|
  {
  }

  // ----- Closed loop: the deadline -----

  /** A deadline, the readings of the clock, and the waits that the deadline ends. */
  datatype Deadline = Deadline(duration: nat, clock: nat -> nat, wakes: nat -> bool)

  /** The reading is before the deadline. */
  predicate Early(deadline: Deadline, look: nat) {
    deadline.clock(look) < deadline.duration
  }

  /** The reading of the clock that decides whether operation `i` starts: the first operations take one
      reading each, and each later one is preceded by the reading before the wait for its slot. */
  function LookOf(i: nat, concurrency: nat): nat {
    if i < concurrency then i else 2 * i - concurrency + 1
  }

  ghost predicate Forward(clock: nat -> nat) {
    forall i: nat, j: nat :: i <= j ==> clock(i) <= clock(j)
  }

  /** `n` operations start: exactly those whose reading is before the deadline. */
  ghost predicate IsCount(deadline: Deadline, concurrency: nat, n: nat) {
    forall i: nat {:trigger Early(deadline, LookOf(i, concurrency))} ::
      i < n <==> Early(deadline, LookOf(i, concurrency))
  }

  lemma CountIs(deadline: Deadline, concurrency: nat, n: nat)
    requires Forward(deadline.clock) && !Early(deadline, LookOf(n, concurrency))
    requires n > 0 ==> Early(deadline, LookOf(n - 1, concurrency))
    ensures IsCount(deadline, concurrency, n)
  {
    forall i: nat ensures i < n <==> Early(deadline, LookOf(i, concurrency)) {
      if i < n {
        assert LookOf(i, concurrency) <= LookOf(n - 1, concurrency);
      } else {
        assert LookOf(n, concurrency) <= LookOf(i, concurrency);
      }
    }
  }

  /** A clock that reaches the deadline gives a count. */
  lemma {:induction false} CountExists(deadline: Deadline, concurrency: nat, last: nat) returns (n: nat)
    requires Forward(deadline.clock) && !Early(deadline, LookOf(last, concurrency))
    ensures n <= last && IsCount(deadline, concurrency, n)
  {
    if last > 0 && !Early(deadline, LookOf(last - 1, concurrency)) {
      n := CountExists(deadline, concurrency, last - 1);
    } else {
      CountIs(deadline, concurrency, last);
      n := last;
    }
  }

  /** The first slots are filled while readings stay before the deadline. */
  lemma FirstSlotsFill(deadline: Deadline, concurrency: nat, n: nat, k: nat)
    requires IsCount(deadline, concurrency, n) && k <= concurrency
    requires forall i: nat :: i < k ==> Early(deadline, i)
    ensures k <= n
  {
    if k > 0 {
      assert LookOf(k - 1, concurrency) == k - 1 && Early(deadline, LookOf(k - 1, concurrency));
    }
  }

  // ----- Fixed-rate schedules -----

  /** How many arrivals a duration holds. */
  ghost function Offers(duration: nat, rate: nat): nat {
    Arrivals.CeilDiv(duration * rate, Arrivals.NANOS_PER_SECOND)
  }

  ghost function ExactTimes(rate: nat, n: nat): seq<nat>
    requires rate > 0
  {
    seq(n, i requires 0 <= i < n => Arrivals.ExactArrival(i, rate))
  }

  /** Over whole seconds, a trace lists the arrivals of the open-loop run: as many, at the same times. */
  lemma TraceListsOfferedArrivals(seconds: nat, rate: nat, trace: seq<Arrivals.TraceEntry>, world: World, max: nat)
    requires rate > 0 && |trace| == seconds * rate
    requires forall i :: 0 <= i < |trace| ==> trace[i] == Arrivals.TraceEntry(i, Arrivals.ExactArrival(i, rate))
    ensures
      var offered := Offers(seconds * Arrivals.NANOS_PER_SECOND, rate);
      var decisions := Decisions(ExactTimes(rate, offered), world, max);
      && |decisions| == |trace|
      && forall i :: 0 <= i < |trace| ==> trace[i].sequence == i && trace[i].arrivalNs == decisions[i].at
  {
    Arrivals.WholeSeconds(seconds, rate);
  }
}
