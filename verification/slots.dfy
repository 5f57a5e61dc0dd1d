/**
 The add-then-check counter that both the engine and the breaker use to cap concurrency.
 A caller adds one, compares the value it got with the limit, and takes the one away again
 when it is done or was over the limit. The counter may overshoot; the cap still holds.
 */
module Slots {
  import opened Machine

  /** The 32-bit counter, and for each caller inside its add and its subtract, the value it was given. */
  datatype Slots = Slots(count: int, tickets: map<Caller, int>)

  const EMPTY := Slots(0, map[])

  function Add(s: Slots, t: Caller): Slots {
    Slots(Inc32(s.count), s.tickets[t := Inc32(s.count)])
  }

  function Remove(s: Slots, t: Caller): Slots {
    Slots(Dec32(s.count), s.tickets - {t})
  }

  /** The callers whose check succeeds, or has succeeded, or would. */
  function Passed(s: Slots, limit: int): set<Caller> {
    set t | t in s.tickets && s.tickets[t] <= limit
  }

  ghost predicate Sound(s: Slots, limit: int) {
    s.count == |s.tickets| && |Passed(s, limit)| <= limit
  }

  lemma AddKeepsSound(s: Slots, t: Caller, limit: int)
    requires Sound(s, limit) && t !in s.tickets && |s.tickets| < MAX_INT32
    ensures Sound(Add(s, t), limit)
  {
    var s' := Add(s, t);
    assert s'.tickets.Keys == s.tickets.Keys + {t};
    if s'.count <= limit {
      assert Passed(s', limit) == Passed(s, limit) + {t};
      SubsetSize(Passed(s, limit), s.tickets.Keys);
    } else {
      assert Passed(s', limit) == Passed(s, limit);
    }
  }

  lemma RemoveKeepsSound(s: Slots, t: Caller, limit: int)
    requires Sound(s, limit) && t in s.tickets
    ensures Sound(Remove(s, t), limit)
  {
    var s' := Remove(s, t);
    assert s.tickets.Keys == s'.tickets.Keys + {t};
    SubsetSize(Passed(s', limit), Passed(s, limit));
  }

  lemma {:induction false} SubsetSize<T>(a: set<T>, b: set<T>)
    requires a <= b
    ensures |a| <= |b|
  {
    assert b == a + (b - a);
  }
}

/**
 The breaker's probe slots at the granularity of single atomic operations. When the circuit
 sends a request here is left open: an AddOne may come at any time. The counter under the
 circuit's own decisions is in Breaker.ResetRaisesTheCap.
 */
module ProbeSlots {
  import opened Machine
  import opened Slots

  /** `callers` are the goroutines that may ever send requests; a process has fewer than 2^31. */
  datatype Config = Config(callers: set<Caller>, maxHalfOpen: int) {
    predicate Valid() {
      |callers| <= MAX_INT32 && 0 < maxHalfOpen
    }
  }

  datatype Probe = Outside | Added(current: int) | Inside | TurnedAway

  datatype State = State(slots: Slots, probes: map<Caller, Probe>)

  datatype Step = AddOne(t: Caller) | Check(t: Caller) | Release(t: Caller) | Reset

  function At(s: State, t: Caller): Probe {
    if t in s.probes then s.probes[t] else Outside
  }

  /** A step that its caller is not ready for changes nothing. */
  function Next(c: Config, s: State, step: Step): State {
    match step
    case AddOne(t) =>
      if t in c.callers && At(s, t).Outside? then
        var slots := Add(s.slots, t);
        State(slots, s.probes[t := Added(slots.count)])
      else s
    case Check(t) => (
      match At(s, t)
      case Added(current) =>
        s.(probes := s.probes[t := if current > c.maxHalfOpen then TurnedAway else Inside])
      case _ => s
    )
    case Release(t) =>
      if At(s, t).Inside? || At(s, t).TurnedAway? then
        State(Remove(s.slots, t), s.probes[t := Outside])
      else s
    case Reset => s.(slots := s.slots.(count := 0))
  }

  const INIT := State(EMPTY, map[])

  function Run(c: Config, steps: seq<Step>): State {
    if steps == [] then INIT else Next(c, Run(c, steps[..|steps| - 1]), steps[|steps| - 1])
  }

  /** The requests between their add and their subtract, and those of them that got through. */
  function Pending(c: Config, s: State): set<Caller> {
    set t | t in c.callers && !At(s, t).Outside?
  }

  function Insiders(c: Config, s: State): set<Caller> {
    set t | t in c.callers && At(s, t).Inside?
  }

  ghost predicate ProbeOk(c: Config, s: State, t: Caller) {
    && (t in s.slots.tickets <==> !At(s, t).Outside?)
    && (!At(s, t).Outside? ==> t in c.callers)
    && (At(s, t).Added? ==> s.slots.tickets[t] == At(s, t).current)
    && (At(s, t).Inside? ==> s.slots.tickets[t] <= c.maxHalfOpen)
  }

  ghost predicate Inv(c: Config, s: State) {
    Sound(s.slots, c.maxHalfOpen) && forall t :: ProbeOk(c, s, t)
  }

  lemma TicketsArePending(c: Config, s: State)
    requires Inv(c, s)
    ensures s.slots.tickets.Keys == Pending(c, s)
    ensures Insiders(c, s) <= Passed(s.slots, c.maxHalfOpen)
  {
    forall t
      ensures t in s.slots.tickets <==> t in Pending(c, s)
      ensures t in Insiders(c, s) ==> t in Passed(s.slots, c.maxHalfOpen)
    {
      assert ProbeOk(c, s, t);
    }
  }

  lemma AddKeepsInv(c: Config, s: State, t: Caller)
    requires c.Valid() && Inv(c, s) && t in c.callers && At(s, t).Outside?
    ensures Inv(c, Next(c, s, AddOne(t)))
  {
    var s' := Next(c, s, AddOne(t));
    assert ProbeOk(c, s, t);
    assert forall u :: u in s.slots.tickets ==> ProbeOk(c, s, u);
    SubsetSize(s.slots.tickets.Keys + {t}, c.callers);
    assert |s.slots.tickets.Keys + {t}| == |s.slots.tickets| + 1;
    AddKeepsSound(s.slots, t, c.maxHalfOpen);
    forall u ensures ProbeOk(c, s', u) {
      assert ProbeOk(c, s, u);
    }
  }

  lemma NextKeepsInv(c: Config, s: State, step: Step)
    requires c.Valid() && Inv(c, s) && !step.Reset?
    ensures Inv(c, Next(c, s, step))
  {
    var s' := Next(c, s, step);
    if step.AddOne? {
      if s' != s {
        AddKeepsInv(c, s, step.t);
      }
    } else {
      assert ProbeOk(c, s, step.t);
      if step.Release? && s' != s {
        RemoveKeepsSound(s.slots, step.t, c.maxHalfOpen);
      }
      forall u ensures ProbeOk(c, s', u) {
        assert ProbeOk(c, s, u);
      }
    }
  }

  /** Every Reset of the run finds no request between its add and its subtract. */
  ghost predicate ResetsWhenQuiet(c: Config, steps: seq<Step>) {
    forall i :: 0 <= i < |steps| && steps[i].Reset? ==> Pending(c, Run(c, steps[..i])) == {}
  }

  lemma {:induction false} InvHolds(c: Config, steps: seq<Step>)
    requires c.Valid() && ResetsWhenQuiet(c, steps)
    ensures Inv(c, Run(c, steps))
  {
    if steps != [] {
      var before := steps[..|steps| - 1];
      assert forall i :: 0 <= i <= |before| ==> steps[..i] == before[..i];
      assert before[..|before|] == before;
      InvHolds(c, before);
      if steps[|steps| - 1].Reset? {
        ResetKeepsCountExactlyWhenQuiet(c, Run(c, before));
      } else {
        NextKeepsInv(c, Run(c, before), steps[|steps| - 1]);
      }
    }
  }

  /** In every interleaving the counter is the number of pending requests and the cap holds. */
  lemma {:induction false} HalfOpenCapHolds(c: Config, steps: seq<Step>)
    requires c.Valid() && ResetsWhenQuiet(c, steps)
    ensures Run(c, steps).slots.count == |Pending(c, Run(c, steps))|
    ensures |Insiders(c, Run(c, steps))| <= c.maxHalfOpen
  {
    InvHolds(c, steps);
    var s := Run(c, steps);
    TicketsArePending(c, s);
    SubsetSize(Insiders(c, s), Passed(s.slots, c.maxHalfOpen));
  }

  /** A request is turned away exactly when its add found the cap already taken up by pending requests. */
  lemma {:induction false} TurnedAwayOnlyAboveTheCap(c: Config, steps: seq<Step>, t: Caller)
    requires c.Valid() && ResetsWhenQuiet(c, steps)
    requires t in c.callers && At(Run(c, steps), t).Outside?
    ensures var s := Run(c, steps);
            && At(Next(c, Next(c, s, AddOne(t)), Check(t)), t).TurnedAway? <==> c.maxHalfOpen <= |Pending(c, s)|
  {
    var s := Run(c, steps);
    InvHolds(c, steps);
    TicketsArePending(c, s);
    assert ProbeOk(c, s, t);
    SubsetSize(Pending(c, s) + {t}, c.callers);
    assert |Pending(c, s) + {t}| == |Pending(c, s)| + 1;
  }

  /** Reset zeroes the counter, which keeps it truthful exactly when nothing is pending. */
  lemma ResetKeepsCountExactlyWhenQuiet(c: Config, s: State)
    requires c.Valid() && Inv(c, s)
    ensures Inv(c, Next(c, s, Reset)) <==> Pending(c, s) == {}
  {
    var s' := Next(c, s, Reset);
    TicketsArePending(c, s);
    if Pending(c, s) == {} {
      assert s' == s;
    }
  }

  ghost predicate Reachable(c: Config, s: State) {
    exists steps :: Run(c, steps) == s
  }

  lemma ReachNext(c: Config, s: State, step: Step) returns (s': State)
    requires Reachable(c, s)
    ensures s' == Next(c, s, step) && Reachable(c, s')
  {
    var steps :| Run(c, steps) == s;
    assert (steps + [step])[..|steps|] == steps;
    s' := Next(c, s, step);
    assert Run(c, steps + [step]) == s';
  }

  /** With one slot, a Reset under a pending probe lets two probes in together later on. */
  lemma ResetUnderAProbeBreaksTheCap() returns (c: Config, s: State)
    ensures c.Valid() && c.maxHalfOpen == 1
    ensures Reachable(c, s) && |Insiders(c, s)| == 2
  {
    c, s := Config({0, 1, 2}, 1), INIT;
    assert Run(c, []) == s;
    s := ReachNext(c, s, AddOne(0));
    s := ReachNext(c, s, Check(0));
    s := ReachNext(c, s, Reset);
    s := ReachNext(c, s, Release(0));
    assert s.slots.count == -1;
    s := ReachNext(c, s, AddOne(1));
    s := ReachNext(c, s, AddOne(2));
    s := ReachNext(c, s, Check(1));
    s := ReachNext(c, s, Check(2));
    assert Insiders(c, s) == {1, 2};
  }

  // ---------- Exactly when a Reset is safe ----------

  predicate ResetFree(steps: seq<Step>) {
    Reset !in steps
  }

  /** The runs that go on from a Reset after `steps`, without another one. */
  ghost predicate CapHoldsAfterReset(c: Config, steps: seq<Step>) {
    forall more :: ResetFree(more) ==> |Insiders(c, Run(c, steps + [Reset] + more))| <= c.maxHalfOpen
  }

  ghost predicate Reaches(c: Config, base: seq<Step>, s: State) {
    exists more :: ResetFree(more) && Run(c, base + more) == s
  }

  lemma ReachesNext(c: Config, base: seq<Step>, s: State, step: Step) returns (s': State)
    requires Reaches(c, base, s) && !step.Reset?
    ensures s' == Next(c, s, step) && Reaches(c, base, s')
  {
    var more :| ResetFree(more) && Run(c, base + more) == s;
    assert base + (more + [step]) == (base + more) + [step];
    assert ((base + more) + [step])[..|base + more|] == base + more;
    s' := Next(c, s, step);
    assert ResetFree(more + [step]) && Run(c, base + (more + [step])) == s';
  }

  /** All pending requests leave, each taking one away from the count. */
  lemma {:induction false} Drain(c: Config, base: seq<Step>, s: State) returns (s': State)
    requires Reaches(c, base, s) && MIN_INT32 + |Pending(c, s)| <= s.slots.count
    ensures Reaches(c, base, s') && Pending(c, s') == {}
    ensures s'.slots.count == s.slots.count - |Pending(c, s)|
    decreases |Pending(c, s)|
  {
    s' := s;
    if Pending(c, s) != {} {
      var t :| t in Pending(c, s);
      if At(s, t).Added? {
        s' := ReachesNext(c, base, s', Check(t));
      }
      s' := ReachesNext(c, base, s', Release(t));
      assert Pending(c, s') == Pending(c, s) - {t};
      s' := Drain(c, base, s');
    }
  }

  lemma GetsIn(c: Config, base: seq<Step>, s: State, t: Caller) returns (s': State)
    requires Reaches(c, base, s) && t in c.callers && At(s, t).Outside?
    requires s.slots.count < c.maxHalfOpen < MAX_INT32
    ensures Reaches(c, base, s') && s'.slots.count == s.slots.count + 1 && At(s', t).Inside?
    ensures forall u :: u != t ==> At(s', u) == At(s, u)
  {
    s' := ReachesNext(c, base, s, AddOne(t));
    s' := ReachesNext(c, base, s', Check(t));
  }

  /** Callers that add one after another while the count is low enough all get in. */
  lemma {:induction false} AllGetIn(c: Config, base: seq<Step>, s: State, group: set<Caller>) returns (s': State)
    requires Reaches(c, base, s) && group <= c.callers && forall t :: t in group ==> At(s, t).Outside?
    requires s.slots.count + |group| <= c.maxHalfOpen < MAX_INT32
    ensures Reaches(c, base, s') && Insiders(c, s) + group <= Insiders(c, s')
    decreases |group|
  {
    s' := s;
    if group != {} {
      var t :| t in group;
      s' := GetsIn(c, base, s, t);
      assert Insiders(c, s) + {t} <= Insiders(c, s');
      s' := AllGetIn(c, base, s', group - {t});
    }
  }

  lemma {:induction false} SubsetOfSize<T>(a: set<T>, n: nat) returns (b: set<T>)
    requires n <= |a|
    ensures b <= a && |b| == n
  {
    if n == 0 {
      return {};
    }
    var x :| x in a;
    b := SubsetOfSize(a - {x}, n - 1);
    b := b + {x};
  }

  /** After a Reset under any pending request, one request too many can get in. */
  lemma {:induction false} UnquietResetBreaksTheCap(c: Config, steps: seq<Step>)
    requires c.Valid() && ResetsWhenQuiet(c, steps) && c.maxHalfOpen < |c.callers|
    requires Pending(c, Run(c, steps)) != {}
    ensures !CapHoldsAfterReset(c, steps)
  {
    var base := steps + [Reset];
    assert base[..|steps|] == steps && base + [] == base;
    var s := Run(c, base);
    assert ResetFree([]) && Run(c, base + []) == s;
    assert Pending(c, s) == Pending(c, Run(c, steps));
    SubsetSize(Pending(c, s), c.callers);
    s := Drain(c, base, s);
    var group := SubsetOfSize(c.callers, c.maxHalfOpen + 1);
    forall t | t in group ensures At(s, t).Outside? {
      assert t !in Pending(c, s);
    }
    s := AllGetIn(c, base, s, group);
    SubsetSize(group, Insiders(c, s));
    var more :| ResetFree(more) && Run(c, base + more) == s;
  }

  /** A Reset leaves the cap standing for good exactly when no request is pending, or too few callers exist. */
  lemma {:induction false} ResetKeepsCapExactlyWhenQuiet(c: Config, steps: seq<Step>)
    requires c.Valid() && ResetsWhenQuiet(c, steps)
    ensures CapHoldsAfterReset(c, steps) <==> Pending(c, Run(c, steps)) == {} || |c.callers| <= c.maxHalfOpen
  {
    if |c.callers| <= c.maxHalfOpen {
      forall more ensures |Insiders(c, Run(c, steps + [Reset] + more))| <= c.maxHalfOpen {
        SubsetSize(Insiders(c, Run(c, steps + [Reset] + more)), c.callers);
      }
    } else if Pending(c, Run(c, steps)) != {} {
      UnquietResetBreaksTheCap(c, steps);
    } else {
      forall more | ResetFree(more) ensures |Insiders(c, Run(c, steps + [Reset] + more))| <= c.maxHalfOpen {
        var all := steps + [Reset] + more;
        assert forall i :: |steps| < i < |all| ==> all[i] in more;
        assert forall i :: 0 <= i <= |steps| ==> all[..i] == steps[..i];
        assert steps[..|steps|] == steps;
        HalfOpenCapHolds(c, all);
      }
    }
  }
}
