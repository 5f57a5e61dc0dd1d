/**
 The cached clock under full interleaving. Any number of callers run NowUnixMilli at once,
 and each load, clock read, compare-and-swap and return is a step of its own. The clock
 counts milliseconds, starts positive and never goes back.
 */
module CachedClock {

  import opened Machine

  const UPDATE_INTERVAL := 10

  /** Where a call stands; `begun` is the number of calls that had returned when it started. */
  datatype Pc =
    | Idle
    | Loaded(begun: nat, last: int)
    | Timed(begun: nat, last: int, now: int)
    | Swapping(begun: nat, last: int, now: int)
    | Returning(begun: nat, now: int, result: int)

  /** A call that has returned: the instant `now` it read from the clock, and its result. */
  datatype Call = Call(begun: nat, now: int, result: int)

  datatype State = State(clock: int, cell: int, calls: map<Caller, Pc>, done: seq<Call>)

  datatype Step =
    | Advance(ms: nat)
    | Load(t: Caller)
    | ReadClock(t: Caller)
    | Decide(t: Caller)
    | Swap(t: Caller)
    | Return(t: Caller)

  function At(s: State, t: Caller): Pc {
    if t in s.calls then s.calls[t] else Idle
  }

  function Move(s: State, t: Caller, pc: Pc): State {
    s.(calls := s.calls[t := pc])
  }

  /** A step that its caller is not ready for changes nothing. */
  function Next(s: State, step: Step): State {
    match step
    case Advance(ms) => s.(clock := s.clock + ms)
    case Load(t) =>
      if At(s, t).Idle? then Move(s, t, Loaded(|s.done|, s.cell)) else s
    case ReadClock(t) => (
      match At(s, t)
      case Loaded(begun, last) => Move(s, t, Timed(begun, last, s.clock))
      case _ => s
    )
    case Decide(t) => (
      match At(s, t)
      case Timed(begun, last, now) =>
        if last > 0 && now - last <= UPDATE_INTERVAL then Move(s, t, Returning(begun, now, last))
        else Move(s, t, Swapping(begun, last, now))
      case _ => s
    )
    case Swap(t) => (
      match At(s, t)
      case Swapping(begun, last, now) =>
        Move(s.(cell := if s.cell == last then now else s.cell), t, Returning(begun, now, now))
      case _ => s
    )
    case Return(t) => (
      match At(s, t)
      case Returning(begun, now, result) =>
        Move(s.(done := s.done + [Call(begun, now, result)]), t, Idle)
      case _ => s
    )
  }

  function Init(clock: int): State {
    State(clock, 0, map[], [])
  }

  function Run(clock: int, steps: seq<Step>): State {
    if steps == [] then Init(clock) else Next(Run(clock, steps[..|steps| - 1]), steps[|steps| - 1])
  }

  // ---------- The invariant ----------

  /** Everything that returned before the first `begun` completions read the clock by `now`. */
  ghost predicate ReadBy(done: seq<Call>, begun: nat, now: int) {
    begun <= |done| && forall i :: 0 <= i < begun ==> done[i].now <= now
  }

  ghost predicate PcOk(s: State, pc: Pc) {
    match pc
    case Idle => true
    case Loaded(begun, last) => begun <= |s.done| && 0 <= last <= s.cell
    case Timed(begun, last, now) =>
      ReadBy(s.done, begun, now) && 0 <= last <= s.cell && last <= now <= s.clock && 0 < now
    case Swapping(begun, last, now) =>
      ReadBy(s.done, begun, now) && 0 <= last <= s.cell && last < now <= s.clock
    case Returning(begun, now, result) =>
      ReadBy(s.done, begun, now) && 0 < result && now - UPDATE_INTERVAL <= result <= now <= s.clock
  }

  ghost predicate CallOk(done: seq<Call>, c: Call, clock: int) {
    ReadBy(done, c.begun, c.now) && 0 < c.result && c.now - UPDATE_INTERVAL <= c.result <= c.now <= clock
  }

  ghost predicate Inv(s: State) {
    && 0 < s.clock && 0 <= s.cell <= s.clock
    && (forall t :: t in s.calls ==> PcOk(s, s.calls[t]))
    && (forall i :: 0 <= i < |s.done| ==> CallOk(s.done, s.done[i], s.clock))
  }

  /** One caller's position stays sound, whoever moves. */
  lemma NextKeepsPc(s: State, step: Step, t: Caller)
    requires Inv(s) && PcOk(s, At(s, t))
    ensures PcOk(Next(s, step), At(Next(s, step), t))
  {
  }

  lemma NextKeepsInv(s: State, step: Step)
    requires Inv(s)
    ensures Inv(Next(s, step))
  {
    var s' := Next(s, step);
    assert forall t :: PcOk(s, At(s, t));
    forall t | t in s'.calls
      ensures PcOk(s', s'.calls[t])
    {
      NextKeepsPc(s, step, t);
    }
    forall i | 0 <= i < |s'.done|
      ensures CallOk(s'.done, s'.done[i], s'.clock)
    {
      if i < |s.done| {
        assert CallOk(s.done, s.done[i], s.clock);
      }
    }
  }

  lemma {:induction false} InvHolds(clock: int, steps: seq<Step>)
    requires clock > 0
    ensures Inv(Run(clock, steps))
  {
    if steps != [] {
      InvHolds(clock, steps[..|steps| - 1]);
      NextKeepsInv(Run(clock, steps[..|steps| - 1]), steps[|steps| - 1]);
    }
  }

  // ---------- What a caller may rely on ----------

  /** Any step that changes the shared cell moves it strictly forward, and never past the clock. */
  lemma {:induction false} CellOnlyMovesForward(clock: int, steps: seq<Step>, step: Step)
    requires clock > 0
    ensures var s, s' := Run(clock, steps), Run(clock, steps + [step]);
            s'.cell != s.cell ==> s.cell < s'.cell <= s'.clock
  {
    InvHolds(clock, steps);
    assert (steps + [step])[..|steps|] == steps;
    var s := Run(clock, steps);
    assert forall t :: At(s, t).Swapping? ==> PcOk(s, At(s, t));
  }

  /** A swap that succeeds stores a strictly later time, so the cell never holds a value twice. */
  lemma {:induction false} SuccessfulSwapIncreases(clock: int, steps: seq<Step>, t: Caller)
    requires clock > 0
    requires At(Run(clock, steps), t).Swapping? && Run(clock, steps).cell == At(Run(clock, steps), t).last
    ensures Run(clock, steps).cell < Run(clock, steps + [Swap(t)]).cell
  {
    InvHolds(clock, steps);
    assert (steps + [Swap(t)])[..|steps|] == steps;
    assert PcOk(Run(clock, steps), At(Run(clock, steps), t));
  }

  /** Every result lags the clock value read inside its own call by at most ten milliseconds. */
  lemma {:induction false} ResultWithinInterval(clock: int, steps: seq<Step>, i: nat)
    requires clock > 0 && i < |Run(clock, steps).done|
    ensures var c := Run(clock, steps).done[i]; 0 < c.result && c.now - UPDATE_INTERVAL <= c.result <= c.now
  {
    InvHolds(clock, steps);
    assert CallOk(Run(clock, steps).done, Run(clock, steps).done[i], Run(clock, steps).clock);
  }

  /** When one call returned before another began, the later one is at most ten milliseconds behind. */
  lemma {:induction false} LaterCallAtMostTenBehind(clock: int, steps: seq<Step>, i: nat, j: nat)
    requires clock > 0 && i < |Run(clock, steps).done| && j < |Run(clock, steps).done|
    requires i < Run(clock, steps).done[j].begun
    ensures Run(clock, steps).done[i].now <= Run(clock, steps).done[j].now
    ensures Run(clock, steps).done[i].result - UPDATE_INTERVAL <= Run(clock, steps).done[j].result
  {
    InvHolds(clock, steps);
    var s := Run(clock, steps);
    assert CallOk(s.done, s.done[i], s.clock) && CallOk(s.done, s.done[j], s.clock);
  }

  ghost predicate Reachable(clock: int, s: State) {
    exists steps :: Run(clock, steps) == s
  }

  lemma ReachNext(clock: int, s: State, step: Step) returns (s': State)
    requires Reachable(clock, s)
    ensures s' == Next(s, step) && Reachable(clock, s')
  {
    var steps :| Run(clock, steps) == s;
    assert (steps + [step])[..|steps|] == steps;
    s' := Next(s, step);
    assert Run(clock, steps + [step]) == s';
  }

  /** Two calls race for the empty cell; the one that read the clock first fills it. */
  lemma RaceForTheCell() returns (s: State)
    ensures Reachable(100, s)
    ensures s.cell == 100 && s.clock == 110 && s.done == []
    ensures At(s, 1) == Timed(0, 0, 110) && At(s, 2) == Idle
  {
    s := Init(100);
    assert Run(100, []) == s;
    s := ReachNext(100, s, Load(0));
    s := ReachNext(100, s, Load(1));
    s := ReachNext(100, s, ReadClock(0));
    s := ReachNext(100, s, Advance(10));
    s := ReachNext(100, s, ReadClock(1));
    s := ReachNext(100, s, Decide(0));
    s := ReachNext(100, s, Swap(0));
  }

  /** The loser of that race returns the newer time. */
  lemma LoserReturns() returns (s: State)
    ensures Reachable(100, s)
    ensures s.cell == 100 && s.clock == 110 && s.done == [Call(0, 110, 110)] && At(s, 2) == Idle
  {
    s := RaceForTheCell();
    s := ReachNext(100, s, Decide(1));
    s := ReachNext(100, s, Swap(1));
    s := ReachNext(100, s, Return(1));
  }

  /** The ten milliseconds cannot be improved: a call that begins after that one has returned takes the cell. */
  lemma TenBehindHappens() returns (s: State)
    ensures Reachable(100, s)
    ensures |s.done| == 2 && s.done[1].begun == 1 && s.done[1].result == s.done[0].result - UPDATE_INTERVAL
  {
    s := LoserReturns();
    s := ReachNext(100, s, Load(2));
    s := ReachNext(100, s, ReadClock(2));
    s := ReachNext(100, s, Decide(2));
    s := ReachNext(100, s, Return(2));
  }
}
