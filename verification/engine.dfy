/**
 The engine's two protocols running together. A caller that has claimed and counted itself
 refreshes through singleflight alongside the cold misses; it leaves the running state only
 by collecting the result of the call it waits for.
 */
module Engine {
  import opened Machine
  import opened Slots
  import opened CacheEntries
  import C = RefreshClaims
  import F = Flights

  datatype Config = Config(claims: C.Config, flights: F.Config) {
    predicate Valid() {
      claims.Valid() && flights.background == claims.callers
    }
  }

  datatype State = State(claims: C.State, flights: F.State)

  datatype Step =
    | ClaimStep(claim: C.Step)      // tracker, counter, sweeps and the clock
    | FlightStep(flight: F.Step)    // calls, storage and the callers of Execute
    | Fly(t: Caller)                // a launched refresh enters singleflight
    | Collect(t: Caller)            // and gets its result

  /** Within singleflight a background refresh does nothing but Fly and Collect. */
  predicate IsForeground(cfg: Config, step: F.Step) {
    F.IsCallStep(step) || step.Evict? || step.w !in cfg.claims.callers
  }

  function Next(cfg: Config, s: State, step: Step): State {
    match step
    case ClaimStep(claim) =>
      if claim.Return? then s else s.(claims := C.Next(cfg.claims, s.claims, claim))
    case FlightStep(flight) =>
      if IsForeground(cfg, flight) then s.(flights := F.Next(cfg.flights, s.flights, flight)) else s
    case Fly(t) =>
      if C.At(s.claims, t).pc.Running?
      then s.(flights := F.Next(cfg.flights, s.flights, F.Join(t, C.At(s.claims, t).key))) else s
    case Collect(t) =>
      if C.At(s.claims, t).pc.Running? && F.WaitOf(s.flights, t).Waiting? && F.Released(s.flights, t)
      then State(C.Next(cfg.claims, s.claims, C.Return(t)), F.Next(cfg.flights, s.flights, F.Receive(t))) else s
  }

  function Init(cfg: Config, clock: int): State {
    State(C.Init(clock), F.Init(cfg.flights))
  }

  function Run(cfg: Config, clock: int, steps: seq<Step>): State {
    if steps == [] then Init(cfg, clock)
    else Next(cfg, Run(cfg, clock, steps[..|steps| - 1]), steps[|steps| - 1])
  }

  // ---------- Each half runs as it does alone ----------

  /** The steps the claim protocol has made, and those of the flights. */
  ghost predicate Shadows(cfg: Config, clock: int, s: State, claims: seq<C.Step>, flights: seq<F.Step>) {
    s.claims == C.Run(cfg.claims, clock, claims) && s.flights == F.Run(cfg.flights, flights)
  }

  /** Each half makes one of its own steps or none. */
  lemma StepProjects(cfg: Config, s: State, step: Step) returns (claim: Option<C.Step>, flight: Option<F.Step>)
    ensures Next(cfg, s, step).claims == if claim.Some? then C.Next(cfg.claims, s.claims, claim.value) else s.claims
    ensures Next(cfg, s, step).flights
            == if flight.Some? then F.Next(cfg.flights, s.flights, flight.value) else s.flights
  {
    var s' := Next(cfg, s, step);
    claim, flight := None, None;
    if s'.claims != s.claims {
      claim := Some(if step.ClaimStep? then step.claim else C.Return(step.t));
    }
    if s'.flights != s.flights {
      flight := Some(if step.FlightStep? then step.flight
                     else if step.Fly? then F.Join(step.t, C.At(s.claims, step.t).key) else F.Receive(step.t));
    }
  }

  lemma {:induction false} RunProjects(cfg: Config, clock: int, steps: seq<Step>)
      returns (claims: seq<C.Step>, flights: seq<F.Step>)
    ensures Shadows(cfg, clock, Run(cfg, clock, steps), claims, flights)
  {
    if steps == [] {
      return [], [];
    }
    claims, flights := RunProjects(cfg, clock, steps[..|steps| - 1]);
    var claim, flight := StepProjects(cfg, Run(cfg, clock, steps[..|steps| - 1]), steps[|steps| - 1]);
    if claim.Some? {
      assert (claims + [claim.value])[..|claims|] == claims;
      claims := claims + [claim.value];
    }
    if flight.Some? {
      assert (flights + [flight.value])[..|flights|] == flights;
      flights := flights + [flight.value];
    }
  }

  /** Callers of Execute are not held up: every run of theirs through singleflight is a run of the engine. */
  lemma {:induction false} ForegroundRunsFreely(cfg: Config, clock: int, flights: seq<F.Step>)
      returns (steps: seq<Step>)
    requires forall i :: 0 <= i < |flights| && !F.IsCallStep(flights[i]) && !flights[i].Evict? ==>
               flights[i].w !in cfg.claims.callers
    ensures Run(cfg, clock, steps).flights == F.Run(cfg.flights, flights)
    ensures Run(cfg, clock, steps).claims == C.Init(clock)
  {
    if flights == [] {
      return [];
    }
    steps := ForegroundRunsFreely(cfg, clock, flights[..|flights| - 1]);
    var step := FlightStep(flights[|flights| - 1]);
    assert (steps + [step])[..|steps|] == steps;
    steps := steps + [step];
  }

  // ---------- How the halves hang together ----------

  /** A background refresh that is in singleflight is launched and waits for a call of its key. */
  ghost predicate LinkOk(cfg: Config, s: State, t: Caller) {
    t in cfg.claims.callers && !F.WaitOf(s.flights, t).Away? ==>
      && F.WaitOf(s.flights, t).Waiting?
      && C.At(s.claims, t).pc.Running?
      && F.WaitOf(s.flights, t).call < |s.flights.calls|
      && s.flights.calls[F.WaitOf(s.flights, t).call].key == C.At(s.claims, t).key
  }

  ghost predicate Inv(cfg: Config, s: State) {
    && C.CountInv(cfg.claims, s.claims)
    && F.FlightInv(cfg.flights, s.flights)
    && forall t :: LinkOk(cfg, s, t)
  }

  /** A step of the flights keeps the key and leader of every call, and the waits of all but its own caller. */
  lemma {:induction false} FlightStepShape(cfg: F.Config, s: F.State, step: F.Step, u: Caller)
    ensures |s.calls| <= |F.Next(cfg, s, step).calls|
    ensures forall c :: 0 <= c < |s.calls| ==> F.Next(cfg, s, step).calls[c].key == s.calls[c].key
    ensures forall c :: 0 <= c < |s.calls| ==> F.Next(cfg, s, step).calls[c].leader == s.calls[c].leader
    ensures F.IsCallStep(step) || step.Evict? || step.w != u ==>
              F.WaitOf(F.Next(cfg, s, step), u) == F.WaitOf(s, u)
  {
    if F.IsCallStep(step) && step.c < |s.calls| {
      F.StageShape(cfg, s.calls[step.c], step);
    } else if !F.IsCallStep(step) {
      F.WaiterStepData(cfg, s, step);
      if step.Evict? || step.w != u {
        F.OthersWaitOn(cfg, s, step, u);
      }
    }
  }

  /** Only Return takes a caller out of the running state, and a running caller keeps its key. */
  lemma RunningStays(cfg: C.Config, s: C.State, step: C.Step, t: Caller)
    requires C.At(s, t).pc.Running? && step != C.Return(t)
    ensures C.At(C.Next(cfg, s, step), t).pc.Running? && C.At(C.Next(cfg, s, step), t).key == C.At(s, t).key
  {
  }

  lemma NextKeepsLink(cfg: Config, s: State, step: Step, t: Caller)
    requires cfg.Valid() && Inv(cfg, s)
    ensures LinkOk(cfg, Next(cfg, s, step), t)
  {
    var s' := Next(cfg, s, step);
    assert LinkOk(cfg, s, t) && F.WaitOk(s.flights, t);
    match step
    case ClaimStep(claim) =>
      if !claim.Return? && C.At(s.claims, t).pc.Running? {
        RunningStays(cfg.claims, s.claims, claim, t);
      }
    case FlightStep(flight) =>
      FlightStepShape(cfg.flights, s.flights, flight, t);
    case Fly(u) =>
      FlightStepShape(cfg.flights, s.flights, F.Join(u, C.At(s.claims, u).key), t);
    case Collect(u) =>
      if s' != s {
        FlightStepShape(cfg.flights, s.flights, F.Receive(u), t);
        if u != t && C.At(s.claims, t).pc.Running? {
          RunningStays(cfg.claims, s.claims, C.Return(u), t);
        }
      }
  }

  lemma {:induction false} InvHolds(cfg: Config, clock: int, steps: seq<Step>)
    requires cfg.Valid()
    ensures Inv(cfg, Run(cfg, clock, steps))
  {
    if steps != [] {
      var s := Run(cfg, clock, steps[..|steps| - 1]);
      InvHolds(cfg, clock, steps[..|steps| - 1]);
      forall t ensures LinkOk(cfg, Run(cfg, clock, steps), t) {
        NextKeepsLink(cfg, s, steps[|steps| - 1], t);
      }
    }
    var claims, flights := RunProjects(cfg, clock, steps);
    C.CountInvHolds(cfg.claims, clock, claims);
    F.FlightInvHolds(cfg.flights, flights);
  }

  // ---------- What the engine promises as a whole ----------

  /** The safeCalls in flight that a background refresh started. */
  function BackgroundCalls(cfg: Config, s: State): set<nat> {
    set c: nat | c < |s.flights.calls| && s.flights.calls[c].Active() && s.flights.calls[c].leader in cfg.claims.callers
  }

  lemma {:induction false} InjectionBounds(a: set<nat>, f: map<nat, Caller>, b: set<Caller>)
    requires a <= f.Keys && forall x :: x in a ==> f[x] in b
    requires forall x, y :: x in a && y in a && f[x] == f[y] ==> x == y
    ensures |a| <= |b|
  {
    if a != {} {
      var x :| x in a;
      InjectionBounds(a - {x}, f, b - {f[x]});
    }
  }

  /** Every background call in flight is waited for by a launched refresh of its own, and not by `others`. */
  lemma CallsNeedLaunchedLeaders(cfg: Config, s: State, others: set<Caller>)
    requires cfg.Valid() && Inv(cfg, s) && forall t :: t in others ==> !F.WaitOf(s.flights, t).Waiting?
    ensures |BackgroundCalls(cfg, s)| <= |C.Launched(cfg.claims, s.claims) - others|
  {
    var calls := BackgroundCalls(cfg, s);
    var leaders := map c | c in calls :: s.flights.calls[c].leader;
    forall c | c in calls
      ensures F.WaitOf(s.flights, leaders[c]) == F.Waiting(c) && leaders[c] in C.Launched(cfg.claims, s.claims)
    {
      assert F.LeaderOk(cfg.flights, s.flights, c);
      assert LinkOk(cfg, s, leaders[c]);
    }
    InjectionBounds(calls, leaders, C.Launched(cfg.claims, s.claims) - others);
  }

  /**
   Background refreshes never have more than maxConcurrentRefreshes safeCalls in flight,
   however many stale hits, cold misses and cancellations interleave. Callbacks that outlive
   their safeCall are not covered: see CallbackLimitExactly.
   */
  lemma {:induction false} BackgroundLoadIsCapped(cfg: Config, clock: int, steps: seq<Step>)
    requires cfg.Valid()
    ensures |BackgroundCalls(cfg, Run(cfg, clock, steps))| <= cfg.claims.maxConcurrent
  {
    var s := Run(cfg, clock, steps);
    InvHolds(cfg, clock, steps);
    CallsNeedLaunchedLeaders(cfg, s, {});
    assert C.Launched(cfg.claims, s.claims) - {} == C.Launched(cfg.claims, s.claims);
    C.CapOfInv(cfg.claims, s.claims);
  }

  // ---------- Exactly when callbacks exceed the limit ----------

  /** The callbacks at work that a background refresh started, for all keys. */
  function BackgroundCallbacks(cfg: Config, s: State): set<nat> {
    set c: nat | c < |s.flights.calls| && s.flights.calls[c].running && s.flights.calls[c].leader in cfg.claims.callers
  }

  /** Those of them whose safeCall has failed. */
  function AbandonedCallbacks(cfg: Config, s: State): set<nat> {
    set c | c in BackgroundCallbacks(cfg, s) && s.flights.calls[c].Failed()
  }

  /** A callback at work that is not abandoned belongs to a call in flight. */
  lemma CallbacksAreInFlightOrAbandoned(cfg: Config, s: State)
    requires F.CallsOk(cfg.flights, s.flights)
    ensures |BackgroundCallbacks(cfg, s)| - |AbandonedCallbacks(cfg, s)| <= |BackgroundCalls(cfg, s)|
  {
    var all, abandoned := BackgroundCallbacks(cfg, s), AbandonedCallbacks(cfg, s);
    forall c | c in all - abandoned ensures c in BackgroundCalls(cfg, s) {
      assert F.CallOk(cfg.flights, s.flights.accepted, s.flights.calls[c]);
    }
    SubsetSize(all - abandoned, BackgroundCalls(cfg, s));
    assert all == (all - abandoned) + abandoned;
  }

  lemma CallsOkHolds(cfg: Config, clock: int, steps: seq<Step>)
    ensures F.CallsOk(cfg.flights, Run(cfg, clock, steps).flights)
  {
    var _, flights := RunProjects(cfg, clock, steps);
    F.DataInvHolds(cfg.flights, flights);
  }

  /** The callbacks at work exceed the limit by at most the number of abandoned ones. */
  lemma {:induction false} BackgroundCallbacksAreCapped(cfg: Config, clock: int, steps: seq<Step>)
    requires cfg.Valid()
    ensures var s := Run(cfg, clock, steps);
            |BackgroundCallbacks(cfg, s)| - |AbandonedCallbacks(cfg, s)| <= cfg.claims.maxConcurrent
  {
    CallsOkHolds(cfg, clock, steps);
    CallbacksAreInFlightOrAbandoned(cfg, Run(cfg, clock, steps));
    BackgroundLoadIsCapped(cfg, clock, steps);
  }

  /** A launched refresh enters singleflight and finds no call of its key to join. */
  predicate StartsBackgroundCall(s: State, step: Step) {
    step.Fly? && C.At(s.claims, step.t).pc.Running? && F.WaitOf(s.flights, step.t).Away?
    && C.At(s.claims, step.t).key !in s.flights.flight
  }

  /** A time-out or the shutdown hits a call whose callback a background refresh started and is at work. */
  predicate AbandonsBackground(cfg: Config, s: State, step: Step) {
    step.FlightStep? && step.flight.Fail? && step.flight.c in BackgroundCallbacks(cfg, s)
    && s.flights.calls[step.flight.c].InSafeCall()
  }

  /** Only a new background call adds a callback. */
  lemma CallbackAfter(cfg: Config, s: State, step: Step, c: nat)
    requires F.CallsOk(cfg.flights, s.flights) && c in BackgroundCallbacks(cfg, Next(cfg, s, step))
    ensures c in BackgroundCallbacks(cfg, s) || (StartsBackgroundCall(s, step) && c == |s.flights.calls|)
  {
    var _, flight := StepProjects(cfg, s, step);
    if flight.Some? {
      FlightStepShape(cfg.flights, s.flights, flight.value, 0);
      F.UpstreamAfter(cfg.flights, s.flights, flight.value, c, Next(cfg, s, step).flights.calls[c].key);
    }
  }

  /** Only AbandonsBackground abandons one. */
  lemma AbandonedAfter(cfg: Config, s: State, step: Step, c: nat)
    requires F.CallsOk(cfg.flights, s.flights) && c in AbandonedCallbacks(cfg, Next(cfg, s, step))
    ensures c in AbandonedCallbacks(cfg, s) || AbandonsBackground(cfg, s, step)
  {
    var _, flight := StepProjects(cfg, s, step);
    if flight.Some? {
      FlightStepShape(cfg.flights, s.flights, flight.value, 0);
      F.UpstreamAfter(cfg.flights, s.flights, flight.value, c, Next(cfg, s, step).flights.calls[c].key);
    }
  }

  lemma CallbacksAfter(cfg: Config, s: State, step: Step)
    requires F.CallsOk(cfg.flights, s.flights)
    requires C.CountInv(cfg.claims, s.claims)
    ensures var before, after := BackgroundCallbacks(cfg, s), BackgroundCallbacks(cfg, Next(cfg, s, step));
            if StartsBackgroundCall(s, step) then |after| == |before| + 1 else |after| <= |before|
  {
    var before, after := BackgroundCallbacks(cfg, s), BackgroundCallbacks(cfg, Next(cfg, s, step));
    forall c | c in after
      ensures c in before || (StartsBackgroundCall(s, step) && c == |s.flights.calls|)
    {
      CallbackAfter(cfg, s, step, c);
    }
    if StartsBackgroundCall(s, step) {
      assert C.TaskOk(cfg.claims, s.claims, step.t);
      assert after == before + {|s.flights.calls|};
    } else {
      SubsetSize(after, before);
    }
  }

  /** A background call starts although as many callbacks as the limit allows are at work. */
  predicate Oversteps(cfg: Config, s: State, step: Step) {
    StartsBackgroundCall(s, step) && |BackgroundCallbacks(cfg, s)| >= cfg.claims.maxConcurrent
  }

  /**
   The step that takes the callbacks above the limit is a new background call with the limit
   reached, and it finds an abandoned callback among those at work.
   */
  lemma {:induction false} CallbackLimitAfter(cfg: Config, clock: int, steps: seq<Step>, step: Step)
    requires cfg.Valid() && |BackgroundCallbacks(cfg, Run(cfg, clock, steps))| <= cfg.claims.maxConcurrent
    ensures var s := Run(cfg, clock, steps);
            |BackgroundCallbacks(cfg, Next(cfg, s, step))| > cfg.claims.maxConcurrent <==> Oversteps(cfg, s, step)
    ensures Oversteps(cfg, Run(cfg, clock, steps), step) ==> AbandonedCallbacks(cfg, Run(cfg, clock, steps)) != {}
  {
    var s := Run(cfg, clock, steps);
    InvHolds(cfg, clock, steps);
    CallsOkHolds(cfg, clock, steps);
    CallbacksAfter(cfg, s, step);
    if Oversteps(cfg, s, step) {
      assert C.TaskOk(cfg.claims, s.claims, step.t);
      CallsNeedLaunchedLeaders(cfg, s, {step.t});
      CallbacksAreInFlightOrAbandoned(cfg, s);
      C.CapOfInv(cfg.claims, s.claims);
    }
  }

  ghost predicate AlwaysWithinLimit(cfg: Config, clock: int, steps: seq<Step>) {
    && |BackgroundCallbacks(cfg, Run(cfg, clock, steps))| <= cfg.claims.maxConcurrent
    && (steps != [] ==> AlwaysWithinLimit(cfg, clock, steps[..|steps| - 1]))
  }

  ghost predicate NeverOversteps(cfg: Config, clock: int, steps: seq<Step>) {
    steps != [] ==>
      && !Oversteps(cfg, Run(cfg, clock, steps[..|steps| - 1]), steps[|steps| - 1])
      && NeverOversteps(cfg, clock, steps[..|steps| - 1])
  }

  /** The exact condition over whole runs. */
  lemma {:induction false} CallbackLimitExactly(cfg: Config, clock: int, steps: seq<Step>)
    requires cfg.Valid()
    ensures AlwaysWithinLimit(cfg, clock, steps) <==> NeverOversteps(cfg, clock, steps)
  {
    if steps != [] {
      CallbackLimitExactly(cfg, clock, steps[..|steps| - 1]);
      if AlwaysWithinLimit(cfg, clock, steps[..|steps| - 1]) {
        CallbackLimitAfter(cfg, clock, steps[..|steps| - 1], steps[|steps| - 1]);
      }
    }
  }

  ghost predicate NeverAbandonsBackground(cfg: Config, clock: int, steps: seq<Step>) {
    steps != [] ==>
      && !AbandonsBackground(cfg, Run(cfg, clock, steps[..|steps| - 1]), steps[|steps| - 1])
      && NeverAbandonsBackground(cfg, clock, steps[..|steps| - 1])
  }

  /** As long as background callbacks end in time, the limit on refreshes limits them too. */
  lemma {:induction false} CallbackLimitWithoutTimeouts(cfg: Config, clock: int, steps: seq<Step>)
    requires cfg.Valid() && NeverAbandonsBackground(cfg, clock, steps)
    ensures AbandonedCallbacks(cfg, Run(cfg, clock, steps)) == {}
    ensures AlwaysWithinLimit(cfg, clock, steps)
  {
    if steps != [] {
      var s := Run(cfg, clock, steps[..|steps| - 1]);
      CallbackLimitWithoutTimeouts(cfg, clock, steps[..|steps| - 1]);
      CallsOkHolds(cfg, clock, steps[..|steps| - 1]);
      forall c | c in AbandonedCallbacks(cfg, Run(cfg, clock, steps)) ensures false {
        AbandonedAfter(cfg, s, steps[|steps| - 1], c);
      }
    }
    BackgroundCallbacksAreCapped(cfg, clock, steps);
  }

  ghost predicate Reachable(cfg: Config, clock: int, s: State) {
    exists steps :: Run(cfg, clock, steps) == s
  }

  lemma ReachNext(cfg: Config, clock: int, s: State, step: Step) returns (s': State)
    requires Reachable(cfg, clock, s)
    ensures s' == Next(cfg, s, step) && Reachable(cfg, clock, s')
  {
    var steps :| Run(cfg, clock, steps) == s;
    assert (steps + [step])[..|steps|] == steps;
    s' := Next(cfg, s, step);
    assert Run(cfg, clock, steps + [step]) == s';
  }

  lemma ReachClaim(cfg: Config, clock: int, s: State, claim: C.Step) returns (s': State)
    requires Reachable(cfg, clock, s) && !claim.Return?
    ensures s' == s.(claims := C.Next(cfg.claims, s.claims, claim)) && Reachable(cfg, clock, s')
  {
    s' := ReachNext(cfg, clock, s, ClaimStep(claim));
  }

  /** An idle caller launches a refresh of an unmarked key, within the limit, and starts a call. */
  lemma LaunchAndFly(cfg: Config, clock: int, s0: State, t: Caller, key: Key) returns (s: State)
    requires Reachable(cfg, clock, s0) && t in cfg.claims.callers && C.At(s0.claims, t).pc.Idle?
    requires key !in s0.claims.tracker && 0 <= s0.claims.slots.count < cfg.claims.maxConcurrent
    requires s0.claims.slots.count < MAX_INT32
    requires F.WaitOf(s0.flights, t).Away? && key !in s0.flights.flight
    ensures Reachable(cfg, clock, s) && C.At(s.claims, t).pc.Running? && C.At(s.claims, t).key == key
    ensures s.claims.tracker.Keys == s0.claims.tracker.Keys + {key}
    ensures s.claims.slots.count == s0.claims.slots.count + 1
    ensures s.flights == F.DoJoin(s0.flights, t, key)
  {
    s := ReachClaim(cfg, clock, s0, C.Look(t, key));
    s := ReachClaim(cfg, clock, s, C.Claim(t));
    s := ReachClaim(cfg, clock, s, C.Count(t));
    s := ReachClaim(cfg, clock, s, C.Decide(t));
    s := ReachNext(cfg, clock, s, Fly(t));
  }

  /** A call times out and singleflight lets go of its key, while the callback works on. */
  lemma TimeOut(cfg: Config, clock: int, s0: State, c: nat) returns (s: State)
    requires Reachable(cfg, clock, s0) && c < |s0.flights.calls| && s0.flights.calls[c].phase.Calling?
    requires s0.flights.calls[c].key in s0.flights.flight && s0.flights.flight[s0.flights.calls[c].key] == c
    ensures Reachable(cfg, clock, s) && s.claims == s0.claims && s.flights.waits == s0.flights.waits
    ensures s.flights.flight == s0.flights.flight - {s0.flights.calls[c].key}
    ensures s.flights.calls == s0.flights.calls[c := s0.flights.calls[c].(phase := F.Landed(F.Err))]
  {
    s := ReachNext(cfg, clock, s0, FlightStep(F.Fail(c)));
    s := ReachNext(cfg, clock, s, FlightStep(F.Land(c)));
  }

  /** The refresh of t gets its error. */
  lemma CollectError(cfg: Config, clock: int, s0: State, t: Caller) returns (s: State)
    requires Reachable(cfg, clock, s0) && C.At(s0.claims, t).pc.Running?
    requires F.WaitOf(s0.flights, t).Waiting? && F.Released(s0.flights, t)
    requires s0.flights.calls[F.WaitOf(s0.flights, t).call].Failed()
    ensures Reachable(cfg, clock, s)
    ensures s == State(C.Move(s0.claims, t, C.Returned), F.Rest(s0.flights, t))
  {
    s := ReachNext(cfg, clock, s0, Collect(t));
  }

  /** It goes through its deferred block. */
  lemma Finish(cfg: Config, clock: int, s0: State, t: Caller) returns (s: State)
    requires Reachable(cfg, clock, s0) && C.At(s0.claims, t).pc.Returned? && MIN_INT32 < s0.claims.slots.count
    ensures Reachable(cfg, clock, s) && C.At(s.claims, t).pc.Idle? && s.flights == s0.flights
    ensures s.claims.tracker == s0.claims.tracker - {C.At(s0.claims, t).key}
    ensures s.claims.slots.count == s0.claims.slots.count - 1
  {
    s := ReachClaim(cfg, clock, s0, C.Release(t));
    assert s.claims == C.DoDelete(s0.claims, t, C.Released);
    s := ReachClaim(cfg, clock, s, C.Uncount(t));
  }

  /** A refresh has come and gone, and its callback is still at work. */
  lemma OneAbandoned(cfg: Config, clock: int, key: Key) returns (s: State)
    requires cfg.Valid() && 0 in cfg.claims.callers
    ensures Reachable(cfg, clock, s) && C.At(s.claims, 0).pc.Idle? && F.WaitOf(s.flights, 0).Away?
    ensures key !in s.claims.tracker && s.claims.slots.count == 0 && key !in s.flights.flight
    ensures s.flights.calls == [F.Call(key, 0, F.Landed(F.Err), 0, true)]
  {
    s := Init(cfg, clock);
    assert Run(cfg, clock, []) == s;
    s := LaunchAndFly(cfg, clock, s, 0, key);
    s := TimeOut(cfg, clock, s, 0);
    s := CollectError(cfg, clock, s, 0);
    s := Finish(cfg, clock, s, 0);
  }

  /** With a limit of one, a time-out lets background refreshes have two upstream callbacks at work. */
  lemma BackgroundCallbacksExceedTheLimit(cfg: Config, clock: int, key: Key) returns (s: State)
    requires cfg.Valid() && 0 in cfg.claims.callers && cfg.claims.maxConcurrent == 1
    ensures Reachable(cfg, clock, s)
    ensures BackgroundCallbacks(cfg, s) == {0, 1} && AbandonedCallbacks(cfg, s) == {0}
    ensures F.Upstream(s.flights, 0, key) && F.Upstream(s.flights, 1, key)
  {
    var once := OneAbandoned(cfg, clock, key);
    s := LaunchAndFly(cfg, clock, once, 0, key);
    assert s.flights.calls == once.flights.calls + [F.Call(key, 0, F.Calling, 0, true)];
  }

  // ---------- One background refresh per key ----------

  /** No claim of the key, in the whole engine, is made beside a marker of it that has run out. */
  ghost predicate NeverClaimsBeside(cfg: Config, clock: int, steps: seq<Step>, key: Key) {
    steps != [] ==>
      var s, step := Run(cfg, clock, steps[..|steps| - 1]), steps[|steps| - 1];
      && !(step.ClaimStep? && C.ClaimsBeside(s.claims, step.claim, key))
      && NeverClaimsBeside(cfg, clock, steps[..|steps| - 1], key)
  }

  lemma NextKeepsClaimsSound(cfg: Config, s: State, step: Step, key: Key)
    requires C.SoundFor(s.claims, key) && !(step.ClaimStep? && C.ClaimsBeside(s.claims, step.claim, key))
    ensures C.SoundFor(Next(cfg, s, step).claims, key)
  {
    if step.ClaimStep? {
      C.NextKeepsSoundFor(cfg.claims, s.claims, step.claim, key);
    } else if step.Collect? {
      C.NextKeepsSoundFor(cfg.claims, s.claims, C.Return(step.t), key);
    }
  }

  lemma {:induction false} ClaimsStaySound(cfg: Config, clock: int, steps: seq<Step>, key: Key)
    requires NeverClaimsBeside(cfg, clock, steps, key)
    ensures C.SoundFor(Run(cfg, clock, steps).claims, key)
  {
    if steps != [] {
      ClaimsStaySound(cfg, clock, steps[..|steps| - 1], key);
      NextKeepsClaimsSound(cfg, Run(cfg, clock, steps[..|steps| - 1]), steps[|steps| - 1], key);
    }
  }

  ghost predicate PromptRun(cfg: Config, clock: int, steps: seq<Step>, key: Key) {
    forall i :: 0 <= i < |steps| ==> C.Prompt(Run(cfg, clock, steps[..i]).claims, key)
  }

  lemma {:induction false} ClaimsStayExclusive(cfg: Config, clock: int, steps: seq<Step>, key: Key)
    requires PromptRun(cfg, clock, steps, key)
    ensures C.Exclusive(Run(cfg, clock, steps).claims, key)
  {
    if steps != [] {
      var before, step := steps[..|steps| - 1], steps[|steps| - 1];
      assert forall i :: 0 <= i <= |before| ==> steps[..i] == before[..i];
      assert before[..|before|] == before;
      ClaimsStayExclusive(cfg, clock, before, key);
      var s := Run(cfg, clock, before);
      if step.ClaimStep? {
        C.NextKeepsExclusive(cfg.claims, s.claims, step.claim, key);
      } else if step.Collect? {
        C.NextKeepsExclusive(cfg.claims, s.claims, C.Return(step.t), key);
      }
    }
  }

  /** A background refresh that waits for a call of the key. */
  ghost predicate WaitsFor(cfg: Config, s: State, t: Caller, key: Key) {
    var wait := F.WaitOf(s.flights, t);
    t in cfg.claims.callers && wait.Waiting? && wait.call < |s.flights.calls| && s.flights.calls[wait.call].key == key
  }

  /**
   Unless the key was claimed beside a marker that had run out, at most one background refresh
   of it waits upstream, and the tracker has its marker until that runs out. In a run prompt
   on the key the marker is there.
   */
  lemma {:induction false} OneBackgroundRefreshPerKey(
      cfg: Config, clock: int, steps: seq<Step>, t: Caller, u: Caller, key: Key)
    requires cfg.Valid() && NeverClaimsBeside(cfg, clock, steps, key)
    requires WaitsFor(cfg, Run(cfg, clock, steps), t, key) && WaitsFor(cfg, Run(cfg, clock, steps), u, key)
    ensures t == u
    ensures var claims := Run(cfg, clock, steps).claims;
            if key in claims.tracker then claims.tracker[key] == C.At(claims, t).marker
            else C.At(claims, t).marker < claims.clock
    ensures PromptRun(cfg, clock, steps, key) ==> key in Run(cfg, clock, steps).claims.tracker
  {
    var s := Run(cfg, clock, steps);
    InvHolds(cfg, clock, steps);
    ClaimsStaySound(cfg, clock, steps, key);
    assert LinkOk(cfg, s, t) && LinkOk(cfg, s, u);
    assert C.Owns(s.claims, t, key) && C.Owns(s.claims, u, key);
    if PromptRun(cfg, clock, steps, key) {
      ClaimsStayExclusive(cfg, clock, steps, key);
    }
  }

  /** Running on time is enough for that. */
  lemma {:induction false} PromptRunsNeverClaimBeside(cfg: Config, clock: int, steps: seq<Step>, key: Key)
    requires PromptRun(cfg, clock, steps, key)
    ensures NeverClaimsBeside(cfg, clock, steps, key)
  {
    if steps != [] {
      var before := steps[..|steps| - 1];
      assert forall i :: 0 <= i <= |before| ==> steps[..i] == before[..i];
      assert before[..|before|] == before;
      PromptRunsNeverClaimBeside(cfg, clock, before, key);
    }
  }

  /** With both protocols interleaved: one safeCall per key, and only genuine entries stored or handed out. */
  lemma {:induction false} EngineIsSafe(cfg: Config, clock: int, steps: seq<Step>)
    requires cfg.Valid()
    ensures var f := Run(cfg, clock, steps).flights;
            forall c, d :: 0 <= c < |f.calls| && 0 <= d < |f.calls| && c != d && f.calls[c].InSafeCall()
              ==> !f.calls[d].InSafeCall() || f.calls[c].key != f.calls[d].key
    ensures var f := Run(cfg, clock, steps).flights;
            && (forall x :: x in f.served ==> F.Genuine(cfg.flights, f.accepted, x.key, x.entry))
            && (forall key :: key in f.storage ==> F.Genuine(cfg.flights, f.accepted, key, f.storage[key]))
  {
    var f := Run(cfg, clock, steps).flights;
    var _, flights := RunProjects(cfg, clock, steps);
    F.DataInvHolds(cfg.flights, flights);
    F.FlightInvHolds(cfg.flights, flights);
    forall c, d | 0 <= c < |f.calls| && 0 <= d < |f.calls| && c != d && f.calls[c].InSafeCall()
      ensures !f.calls[d].InSafeCall() || f.calls[c].key != f.calls[d].key
    {
      assert F.FlightOk(f, c) && F.FlightOk(f, d);
    }
  }
}
