/**
 tryAsyncRefresh and the goroutine it starts, under full interleaving. A caller looks for a
 marker, claims one, counts itself, and either backs out over the limit or runs and then
 releases. Each tracker operation and each atomic add is a step of its own, sweeps and the
 clock move in between, and a deleted marker is whichever marker the key has at that moment.
 */
module RefreshClaims {
  import opened Machine
  import opened LeaseTable
  import opened Slots

  /** `callers` are the goroutines that may ever get here; a process has fewer than 2^31. */
  datatype Config = Config(callers: set<Caller>, maxConcurrent: int, ttl: int) {
    predicate Valid() {
      |callers| <= MAX_INT32 && 0 < maxConcurrent && 0 < ttl
    }
  }

  datatype Pc =
    | Idle        // not in tryAsyncRefresh, or back from it
    | Checked     // found no live marker
    | Claimed     // TrySet won
    | Counted     // Add(1) done
    | OverLimit   // the count was over the limit
    | Uncounted   // backing out: Add(-1) done, Delete to come
    | Running     // goroutine launched, refreshing through singleflight
    | Returned    // the refresh is over, the deferred block to come
    | Released    // deferred Delete done, Add(-1) to come

  /** How often a caller has done each half of the two pairs of operations. */
  datatype Ledger = Ledger(claims: nat, deletes: nat, adds: nat, subtracts: nat)

  datatype Task = Task(pc: Pc, key: Key, marker: int, ledger: Ledger)

  const FRESH_TASK := Task(Idle, [], 0, Ledger(0, 0, 0, 0))

  datatype State = State(clock: int, tracker: Table, slots: Slots, tasks: map<Caller, Task>)

  datatype Step =
    | Advance(d: nat)
    | SweepShard(shard: nat)
    | Look(t: Caller, key: Key)
    | Claim(t: Caller)
    | Count(t: Caller)
    | Decide(t: Caller)
    | BackOut(t: Caller)
    | Unclaim(t: Caller)
    | Return(t: Caller)
    | Release(t: Caller)
    | Uncount(t: Caller)

  function At(s: State, t: Caller): Task {
    if t in s.tasks then s.tasks[t] else FRESH_TASK
  }

  function Move(s: State, t: Caller, pc: Pc): State {
    s.(tasks := s.tasks[t := At(s, t).(pc := pc)])
  }

  function Book(s: State, t: Caller, pc: Pc, ledger: Ledger): State {
    s.(tasks := s.tasks[t := At(s, t).(pc := pc, ledger := ledger)])
  }

  function DoClaim(c: Config, s: State, t: Caller): State {
    var task := At(s, t);
    if Held(s.tracker, task.key, s.clock) then Move(s, t, Idle)
    else
      var l := task.ledger;
      s.(tracker := TrySet(s.tracker, task.key, s.clock, c.ttl),
         tasks := s.tasks[t := task.(pc := Claimed, marker := s.clock + c.ttl, ledger := l.(claims := l.claims + 1))])
  }

  function DoDelete(s: State, t: Caller, pc: Pc): State {
    var l := At(s, t).ledger;
    Book(s.(tracker := Delete(s.tracker, At(s, t).key)), t, pc, l.(deletes := l.deletes + 1))
  }

  function DoAdd(s: State, t: Caller): State {
    var l := At(s, t).ledger;
    Book(s.(slots := Add(s.slots, t)), t, Counted, l.(adds := l.adds + 1))
  }

  function DoSubtract(s: State, t: Caller, pc: Pc): State {
    var l := At(s, t).ledger;
    Book(s.(slots := Remove(s.slots, t)), t, pc, l.(subtracts := l.subtracts + 1))
  }

  /** A step that its caller is not ready for changes nothing. */
  function Next(c: Config, s: State, step: Step): State {
    match step
    case Advance(d) => s.(clock := s.clock + d)
    case SweepShard(shard) => s.(tracker := Sweep(s.tracker, shard, s.clock))
    case Look(t, key) =>
      if t in c.callers && At(s, t).pc.Idle? && !Held(s.tracker, key, s.clock)
      then s.(tasks := s.tasks[t := At(s, t).(pc := Checked, key := key)]) else s
    case Claim(t) => if At(s, t).pc.Checked? then DoClaim(c, s, t) else s
    case Count(t) => if At(s, t).pc.Claimed? then DoAdd(s, t) else s
    case Decide(t) =>
      if At(s, t).pc.Counted? && t in s.slots.tickets
      then Move(s, t, if s.slots.tickets[t] > c.maxConcurrent then OverLimit else Running) else s
    case BackOut(t) => if At(s, t).pc.OverLimit? then DoSubtract(s, t, Uncounted) else s
    case Unclaim(t) => if At(s, t).pc.Uncounted? then DoDelete(s, t, Idle) else s
    case Return(t) => if At(s, t).pc.Running? then Move(s, t, Returned) else s
    case Release(t) => if At(s, t).pc.Returned? then DoDelete(s, t, Released) else s
    case Uncount(t) => if At(s, t).pc.Released? then DoSubtract(s, t, Idle) else s
  }

  function Init(clock: int): State {
    State(clock, map[], EMPTY, map[])
  }

  function Run(c: Config, clock: int, steps: seq<Step>): State {
    if steps == [] then Init(clock)
    else Next(c, Run(c, clock, steps[..|steps| - 1]), steps[|steps| - 1])
  }

  // ---------- Who holds what ----------

  predicate HasClaim(pc: Pc) {
    pc.Claimed? || pc.Counted? || pc.OverLimit? || pc.Uncounted? || pc.Running? || pc.Returned?
  }

  predicate IsCounted(pc: Pc) {
    pc.Counted? || pc.OverLimit? || pc.Running? || pc.Returned? || pc.Released?
  }

  /** Launched, and not yet through its last step. */
  predicate IsLaunched(pc: Pc) {
    pc.Running? || pc.Returned? || pc.Released?
  }

  function CountedCallers(c: Config, s: State): set<Caller> {
    set t | t in c.callers && IsCounted(At(s, t).pc)
  }

  function Launched(c: Config, s: State): set<Caller> {
    set t | t in c.callers && IsLaunched(At(s, t).pc)
  }

  // ---------- The count and its limit ----------

  function One(b: bool): nat {
    if b then 1 else 0
  }

  ghost predicate TaskOk(c: Config, s: State, t: Caller) {
    var pc, l := At(s, t).pc, At(s, t).ledger;
    && (!pc.Idle? ==> t in c.callers)
    && (t in s.slots.tickets <==> IsCounted(pc))
    && (IsLaunched(pc) ==> s.slots.tickets[t] <= c.maxConcurrent)
    && l.claims == l.deletes + One(HasClaim(pc))
    && l.adds == l.subtracts + One(IsCounted(pc))
  }

  ghost predicate CountInv(c: Config, s: State) {
    Sound(s.slots, c.maxConcurrent) && forall t :: TaskOk(c, s, t)
  }

  /** A step of t leaves the other callers' tasks and tickets alone. */
  lemma OthersKeepTheirTasks(c: Config, s: State, step: Step, u: Caller)
    requires step.Advance? || step.SweepShard? || step.t != u
    ensures At(Next(c, s, step), u) == At(s, u)
    ensures u in Next(c, s, step).slots.tickets <==> u in s.slots.tickets
    ensures u in s.slots.tickets ==> Next(c, s, step).slots.tickets[u] == s.slots.tickets[u]
  {
  }

  lemma CountKeepsSound(c: Config, s: State, t: Caller)
    requires c.Valid() && CountInv(c, s) && At(s, t).pc.Claimed?
    ensures Sound(Add(s.slots, t), c.maxConcurrent)
  {
    assert TaskOk(c, s, t);
    forall u | u in s.slots.tickets ensures u in c.callers {
      assert TaskOk(c, s, u);
    }
    SubsetSize(s.slots.tickets.Keys + {t}, c.callers);
    assert |s.slots.tickets.Keys + {t}| == |s.slots.tickets| + 1;
    AddKeepsSound(s.slots, t, c.maxConcurrent);
  }

  lemma NextKeepsSound(c: Config, s: State, step: Step)
    requires c.Valid() && CountInv(c, s)
    ensures Sound(Next(c, s, step).slots, c.maxConcurrent)
  {
    if step.Count? && At(s, step.t).pc.Claimed? {
      CountKeepsSound(c, s, step.t);
    } else if (step.BackOut? && At(s, step.t).pc.OverLimit?) || (step.Uncount? && At(s, step.t).pc.Released?) {
      assert TaskOk(c, s, step.t);
      RemoveKeepsSound(s.slots, step.t, c.maxConcurrent);
    }
  }

  lemma NextKeepsTask(c: Config, s: State, step: Step)
    requires CountInv(c, s) && !step.Advance? && !step.SweepShard?
    ensures TaskOk(c, Next(c, s, step), step.t)
  {
    assert TaskOk(c, s, step.t);
  }

  lemma NextKeepsCountInv(c: Config, s: State, step: Step)
    requires c.Valid() && CountInv(c, s)
    ensures CountInv(c, Next(c, s, step))
  {
    NextKeepsSound(c, s, step);
    forall u ensures TaskOk(c, Next(c, s, step), u) {
      if step.Advance? || step.SweepShard? || step.t != u {
        assert TaskOk(c, s, u);
        OthersKeepTheirTasks(c, s, step, u);
      } else {
        NextKeepsTask(c, s, step);
      }
    }
  }

  lemma {:induction false} CountInvHolds(c: Config, clock: int, steps: seq<Step>)
    requires c.Valid()
    ensures CountInv(c, Run(c, clock, steps))
  {
    if steps != [] {
      CountInvHolds(c, clock, steps[..|steps| - 1]);
      NextKeepsCountInv(c, Run(c, clock, steps[..|steps| - 1]), steps[|steps| - 1]);
    }
  }

  /**
   In every interleaving the counter is the number of callers between their add and their
   subtract, and no more than maxConcurrent refreshes are launched at once, although the
   counter itself may exceed the limit while rejected callers back out.
   */
  lemma {:induction false} RefreshCapHolds(c: Config, clock: int, steps: seq<Step>)
    requires c.Valid()
    ensures Run(c, clock, steps).slots.count == |CountedCallers(c, Run(c, clock, steps))|
    ensures |Launched(c, Run(c, clock, steps))| <= c.maxConcurrent
  {
    CountInvHolds(c, clock, steps);
    CapOfInv(c, Run(c, clock, steps));
  }

  lemma CapOfInv(c: Config, s: State)
    requires CountInv(c, s)
    ensures s.slots.tickets.Keys == CountedCallers(c, s)
    ensures |Launched(c, s)| <= c.maxConcurrent
  {
    forall t
      ensures t in s.slots.tickets <==> t in CountedCallers(c, s)
      ensures t in Launched(c, s) ==> t in Passed(s.slots, c.maxConcurrent)
    {
      assert TaskOk(c, s, t);
    }
    SubsetSize(Launched(c, s), Passed(s.slots, c.maxConcurrent));
  }

  /** A claim backs out exactly when its add found maxConcurrent callers counted already. */
  lemma {:induction false} BacksOutOnlyAtTheLimit(c: Config, clock: int, steps: seq<Step>, t: Caller)
    requires c.Valid() && At(Run(c, clock, steps), t).pc.Claimed?
    ensures var s := Run(c, clock, steps);
            At(Next(c, Next(c, s, Count(t)), Decide(t)), t).pc
            == if c.maxConcurrent <= |CountedCallers(c, s)| then OverLimit else Running
  {
    var s := Run(c, clock, steps);
    CountInvHolds(c, clock, steps);
    CapOfInv(c, s);
    assert TaskOk(c, s, t);
    SubsetSize(CountedCallers(c, s) + {t}, c.callers);
    assert |CountedCallers(c, s) + {t}| == |CountedCallers(c, s)| + 1;
  }

  /** Whichever way a caller left, it has undone each of its claims and each of its adds exactly once. */
  lemma {:induction false} EveryExitUndoesBoth(c: Config, clock: int, steps: seq<Step>, t: Caller)
    requires c.Valid() && At(Run(c, clock, steps), t).pc.Idle?
    ensures var l := At(Run(c, clock, steps), t).ledger; l.claims == l.deletes && l.adds == l.subtracts
    ensures t !in Run(c, clock, steps).slots.tickets
  {
    CountInvHolds(c, clock, steps);
    assert TaskOk(c, Run(c, clock, steps), t);
  }

  // ---------- Mutual exclusion ----------

  ghost predicate Owns(s: State, t: Caller, key: Key) {
    HasClaim(At(s, t).pc) && At(s, t).key == key
  }

  ghost predicate OneOwner(s: State, key: Key) {
    forall t, u :: Owns(s, t, key) && Owns(s, u, key) ==> t == u
  }

  /** A marker in the tracker is that of a caller whose own Delete of the key is still to come. */
  ghost predicate MarkerOwned(s: State, key: Key) {
    key in s.tracker ==> exists t :: Owns(s, t, key) && At(s, t).marker == s.tracker[key]
  }

  /** At most one claim of the key is out, and its marker is in the tracker unless it has run out. */
  ghost predicate SoundFor(s: State, key: Key) {
    && OneOwner(s, key) && MarkerOwned(s, key)
    && forall t :: Owns(s, t, key) && key !in s.tracker ==> At(s, t).marker < s.clock
  }

  /** The step is a TrySet of the key that succeeds. */
  predicate Wins(s: State, step: Step, key: Key) {
    step.Claim? && At(s, step.t).pc.Checked? && At(s, step.t).key == key && !Held(s.tracker, key, s.clock)
  }

  /** The steps that delete a marker unconditionally: the deferred block, and backing out over the limit. */
  predicate Deletes(s: State, step: Step) {
    (step.Release? && At(s, step.t).pc.Returned?) || (step.Unclaim? && At(s, step.t).pc.Uncounted?)
  }

  /** A win makes an owner, an unconditional Delete ends one. */
  lemma OwnersAfter(c: Config, s: State, step: Step, u: Caller, key: Key)
    ensures Owns(Next(c, s, step), u, key)
            <==> (Wins(s, step, key) && u == step.t) || (Owns(s, u, key) && !(Deletes(s, step) && u == step.t))
    ensures Owns(s, u, key) ==> At(Next(c, s, step), u).marker == At(s, u).marker
  {
  }

  /** What a step does to one key of the tracker. */
  lemma TrackerAfter(c: Config, s: State, step: Step, key: Key)
    ensures var m, m' := s.tracker, Next(c, s, step).tracker;
            if Wins(s, step, key)
            then key in m' && m'[key] == s.clock + c.ttl == At(Next(c, s, step), step.t).marker
            else if Deletes(s, step) && At(s, step.t).key == key then key !in m'
            else if step.SweepShard? && key in m && m[key] < s.clock then key in m' ==> m'[key] == m[key]
            else (key in m' <==> key in m) && (key in m ==> m'[key] == m[key])
  {
  }

  // ---------- Nobody leaves a marker behind ----------

  lemma NextKeepsMarkerOwned(c: Config, s: State, step: Step, key: Key)
    requires MarkerOwned(s, key)
    ensures MarkerOwned(Next(c, s, step), key)
  {
    var s' := Next(c, s, step);
    TrackerAfter(c, s, step, key);
    if key in s'.tracker {
      if Wins(s, step, key) {
        OwnersAfter(c, s, step, step.t, key);
        assert Owns(s', step.t, key) && At(s', step.t).marker == s'.tracker[key];
      } else {
        var t :| Owns(s, t, key) && At(s, t).marker == s.tracker[key];
        OwnersAfter(c, s, step, t, key);
        assert Owns(s', t, key) && At(s', t).marker == s'.tracker[key];
      }
    }
  }

  /** In every run, however late its refreshes are, a marker belongs to a caller that will still delete it. */
  lemma {:induction false} MarkersAreOwned(c: Config, clock: int, steps: seq<Step>, key: Key)
    ensures MarkerOwned(Run(c, clock, steps), key)
  {
    if steps != [] {
      MarkersAreOwned(c, clock, steps[..|steps| - 1], key);
      NextKeepsMarkerOwned(c, Run(c, clock, steps[..|steps| - 1]), steps[|steps| - 1], key);
    }
  }

  /** When everybody is back, whatever has happened, the count is zero and the tracker is empty. */
  lemma {:induction false} QuietEngineIsClean(c: Config, clock: int, steps: seq<Step>)
    requires c.Valid()
    requires forall t :: t in c.callers ==> At(Run(c, clock, steps), t).pc.Idle?
    ensures Run(c, clock, steps).slots.count == 0
    ensures Run(c, clock, steps).tracker == map[]
  {
    var s := Run(c, clock, steps);
    CountInvHolds(c, clock, steps);
    RefreshCapHolds(c, clock, steps);
    forall t ensures At(s, t).pc.Idle? {
      assert TaskOk(c, s, t);
    }
    assert CountedCallers(c, s) == {};
    forall key | key in s.tracker ensures false {
      MarkersAreOwned(c, clock, steps, key);
    }
  }

  // ---------- Exactly when a key gets a second holder ----------

  /** A claim of a key for which somebody's marker has already run out. */
  ghost predicate ClaimsBeside(s: State, step: Step, key: Key) {
    && step.Claim? && At(s, step.t).pc.Checked? && At(s, step.t).key == key
    && exists t :: Owns(s, t, key) && At(s, t).marker <= s.clock
  }

  lemma ClaimBesideIsSecond(c: Config, s: State, step: Step, key: Key)
    requires SoundFor(s, key) && ClaimsBeside(s, step, key)
    ensures !OneOwner(Next(c, s, step), key)
  {
    var s' := Next(c, s, step);
    var t :| Owns(s, t, key) && At(s, t).marker <= s.clock;
    assert !Held(s.tracker, key, s.clock);
    OwnersAfter(c, s, step, t, key);
    OwnersAfter(c, s, step, step.t, key);
    assert Owns(s', t, key) && Owns(s', step.t, key);
  }

  /** After any other step the holder is the old one or the winner, and its marker is gone only once run out. */
  lemma OwnerStaysSound(c: Config, s: State, step: Step, u: Caller, key: Key)
    requires SoundFor(s, key) && !ClaimsBeside(s, step, key) && Owns(Next(c, s, step), u, key)
    ensures var s' := Next(c, s, step); key !in s'.tracker ==> At(s', u).marker < s'.clock
    ensures if Wins(s, step, key) then u == step.t else Owns(s, u, key)
  {
    TrackerAfter(c, s, step, key);
    OwnersAfter(c, s, step, u, key);
    if Deletes(s, step) && At(s, step.t).key == key {
      assert Owns(s, step.t, key);
    }
  }

  lemma NextKeepsSoundFor(c: Config, s: State, step: Step, key: Key)
    requires SoundFor(s, key) && !ClaimsBeside(s, step, key)
    ensures SoundFor(Next(c, s, step), key)
  {
    var s' := Next(c, s, step);
    NextKeepsMarkerOwned(c, s, step, key);
    forall u | Owns(s', u, key)
      ensures key !in s'.tracker ==> At(s', u).marker < s'.clock
      ensures if Wins(s, step, key) then u == step.t else Owns(s, u, key)
    {
      OwnerStaysSound(c, s, step, u, key);
    }
  }

  /** No step of the run claims the key beside a marker of it that has run out. */
  ghost predicate NeverClaimsBeside(c: Config, clock: int, steps: seq<Step>, key: Key) {
    steps != [] ==>
      && !ClaimsBeside(Run(c, clock, steps[..|steps| - 1]), steps[|steps| - 1], key)
      && NeverClaimsBeside(c, clock, steps[..|steps| - 1], key)
  }

  /** At the end of the run and at every point before, the key has at most one holder. */
  ghost predicate AlwaysOneOwner(c: Config, clock: int, steps: seq<Step>, key: Key) {
    && OneOwner(Run(c, clock, steps), key)
    && (steps != [] ==> AlwaysOneOwner(c, clock, steps[..|steps| - 1], key))
  }

  lemma {:induction false} SoundForHolds(c: Config, clock: int, steps: seq<Step>, key: Key)
    requires NeverClaimsBeside(c, clock, steps, key)
    ensures SoundFor(Run(c, clock, steps), key)
  {
    if steps != [] {
      SoundForHolds(c, clock, steps[..|steps| - 1], key);
      NextKeepsSoundFor(c, Run(c, clock, steps[..|steps| - 1]), steps[|steps| - 1], key);
    }
  }

  /**
   The step that gives a key its second holder: exactly a claim made while the marker of the
   holder has run out, however long ago, whether it is still in the tracker or swept.
   */
  lemma {:induction false} SecondClaimNeedsAnOverstayer(c: Config, clock: int, steps: seq<Step>, step: Step, key: Key)
    requires NeverClaimsBeside(c, clock, steps, key)
    ensures OneOwner(Next(c, Run(c, clock, steps), step), key) <==> !ClaimsBeside(Run(c, clock, steps), step, key)
    ensures SoundFor(Next(c, Run(c, clock, steps), step), key) <==> !ClaimsBeside(Run(c, clock, steps), step, key)
  {
    SoundForHolds(c, clock, steps, key);
    if ClaimsBeside(Run(c, clock, steps), step, key) {
      ClaimBesideIsSecond(c, Run(c, clock, steps), step, key);
    } else {
      NextKeepsSoundFor(c, Run(c, clock, steps), step, key);
    }
  }

  /** The exact condition over whole runs; what happens to other keys does not matter. */
  lemma {:induction false} OneOwnerExactly(c: Config, clock: int, steps: seq<Step>, key: Key)
    ensures AlwaysOneOwner(c, clock, steps, key) <==> NeverClaimsBeside(c, clock, steps, key)
  {
    if steps != [] {
      OneOwnerExactly(c, clock, steps[..|steps| - 1], key);
      if NeverClaimsBeside(c, clock, steps[..|steps| - 1], key) {
        SecondClaimNeedsAnOverstayer(c, clock, steps[..|steps| - 1], steps[|steps| - 1], key);
      }
    }
  }

  /** The step deletes a marker that its caller did not set. */
  ghost predicate DeletesAnothers(s: State, step: Step) {
    && Deletes(s, step)
    && At(s, step.t).key in s.tracker && s.tracker[At(s, step.t).key] != At(s, step.t).marker
  }

  /** Without such a claim, an unconditional Delete finds its caller's own marker or none. */
  lemma {:induction false} DeleteFindsOwnMarkerOrNone(c: Config, clock: int, steps: seq<Step>, step: Step)
    requires Deletes(Run(c, clock, steps), step)
    requires NeverClaimsBeside(c, clock, steps, At(Run(c, clock, steps), step.t).key)
    ensures !DeletesAnothers(Run(c, clock, steps), step)
  {
    var s := Run(c, clock, steps);
    SoundForHolds(c, clock, steps, At(s, step.t).key);
    assert Owns(s, step.t, At(s, step.t).key);
  }

  /** The caller's steps from wherever it is in its refresh to just before its Delete. */
  function UpToDelete(c: Config, s: State, t: Caller): State {
    Next(c, Next(c, Next(c, Next(c, s, Count(t)), Decide(t)), BackOut(t)), Return(t))
  }

  /** Every such claim can cost its claimer the fresh marker: the overstayer only has to finish. */
  lemma {:induction false} ClaimBesideCostsAMarker(
      c: Config, clock: int, steps: seq<Step>, t: Caller, u: Caller, key: Key)
    requires c.Valid() && NeverClaimsBeside(c, clock, steps, key)
    requires ClaimsBeside(Run(c, clock, steps), Claim(u), key) && Owns(Run(c, clock, steps), t, key)
    ensures var s := UpToDelete(c, Next(c, Run(c, clock, steps), Claim(u)), t);
            && Owns(s, u, key) && key in s.tracker && s.tracker[key] == At(s, u).marker == s.clock + c.ttl
            && (DeletesAnothers(s, Release(t)) || DeletesAnothers(s, Unclaim(t)))
  {
    var s := Run(c, clock, steps);
    SoundForHolds(c, clock, steps, key);
    CountInvHolds(c, clock, steps);
    assert TaskOk(c, s, t);
    var s1 := Next(c, s, Claim(u));
    assert At(s1, t) == At(s, t) && s1.slots == s.slots;
    ReachesItsDelete(c, s1, t);
  }

  lemma ReachesItsDelete(c: Config, s: State, t: Caller)
    requires HasClaim(At(s, t).pc) && (At(s, t).pc.Counted? ==> t in s.slots.tickets)
    ensures var s' := UpToDelete(c, s, t);
            && (At(s', t).pc.Returned? || At(s', t).pc.Uncounted?)
            && At(s', t).key == At(s, t).key && At(s', t).marker == At(s, t).marker
            && s'.tracker == s.tracker && s'.clock == s.clock
            && forall u :: u != t ==> At(s', u) == At(s, u)
  {
  }

  // ---------- Runs that keep to their markers ----------

  /** Every claim of the key is still within the life of its marker. */
  ghost predicate Prompt(s: State, key: Key) {
    forall t :: Owns(s, t, key) ==> s.clock < At(s, t).marker
  }

  /** At every point of the run before its last step; other keys may do as they like. */
  ghost predicate PromptRun(c: Config, clock: int, steps: seq<Step>, key: Key) {
    forall i :: 0 <= i < |steps| ==> Prompt(Run(c, clock, steps[..i]), key)
  }

  /** The key has at most one claim holder, and the tracker holds that holder's marker or none. */
  ghost predicate Exclusive(s: State, key: Key) {
    && OneOwner(s, key) && MarkerOwned(s, key)
    && forall t :: Owns(s, t, key) ==> key in s.tracker && s.tracker[key] == At(s, t).marker
  }

  lemma NextKeepsExclusive(c: Config, s: State, step: Step, key: Key)
    requires Exclusive(s, key) && Prompt(s, key)
    ensures Exclusive(Next(c, s, step), key)
  {
    var s' := Next(c, s, step);
    NextKeepsSoundFor(c, s, step, key);
    forall u | Owns(s', u, key)
      ensures key in s'.tracker && s'.tracker[key] == At(s', u).marker
    {
      TrackerAfter(c, s, step, key);
      OwnersAfter(c, s, step, u, key);
      if Deletes(s, step) && At(s, step.t).key == key {
        assert Owns(s, step.t, key);
      }
    }
  }

  /**
   As long as every claim of a key is released before its marker runs out, the key has at
   most one holder, whose own marker is in the tracker, and no marker of the key is there
   without a holder: a caller skips a refresh only because one is really under way. What
   happens to other keys, overstayers included, does not matter.
   */
  lemma {:induction false} ClaimsAreExclusive(c: Config, clock: int, steps: seq<Step>, key: Key)
    requires PromptRun(c, clock, steps, key)
    ensures Exclusive(Run(c, clock, steps), key) && NeverClaimsBeside(c, clock, steps, key)
  {
    if steps != [] {
      var before := steps[..|steps| - 1];
      assert forall i :: 0 <= i <= |before| ==> steps[..i] == before[..i];
      assert before[..|before|] == before;
      ClaimsAreExclusive(c, clock, before, key);
      NextKeepsExclusive(c, Run(c, clock, before), steps[|steps| - 1], key);
    }
  }

  /** With every key prompt, the tracker holds exactly the markers of the holders, one per key. */
  lemma {:induction false} TrackerIsTheHolders(c: Config, clock: int, steps: seq<Step>)
    requires forall key :: PromptRun(c, clock, steps, key)
    ensures var s := Run(c, clock, steps);
            && (forall key :: key in s.tracker <==> exists t :: Owns(s, t, key))
            && (forall t :: HasClaim(At(s, t).pc) ==>
                  At(s, t).key in s.tracker && s.tracker[At(s, t).key] == At(s, t).marker)
            && (forall t, u :: t != u && HasClaim(At(s, t).pc) && HasClaim(At(s, u).pc) ==>
                  At(s, t).key != At(s, u).key)
  {
    var s := Run(c, clock, steps);
    forall key ensures key in s.tracker <==> exists t :: Owns(s, t, key) {
      ClaimsAreExclusive(c, clock, steps, key);
    }
    forall t | HasClaim(At(s, t).pc)
      ensures At(s, t).key in s.tracker && s.tracker[At(s, t).key] == At(s, t).marker
      ensures forall u :: u != t && HasClaim(At(s, u).pc) ==> At(s, u).key != At(s, t).key
    {
      ClaimsAreExclusive(c, clock, steps, At(s, t).key);
      assert Owns(s, t, At(s, t).key);
      assert forall u :: HasClaim(At(s, u).pc) && At(s, u).key == At(s, t).key ==> Owns(s, u, At(s, t).key);
    }
  }

  /**
   In a run that is prompt on the key, an unconditional Delete of the key, deferred or
   backing out, removes the deleting caller's own marker; every other holder is on another key
   and keeps whatever the tracker has for it.
   */
  lemma {:induction false} DeleteRemovesOwnMarker(c: Config, clock: int, steps: seq<Step>, step: Step)
    requires Deletes(Run(c, clock, steps), step)
    requires PromptRun(c, clock, steps, At(Run(c, clock, steps), step.t).key)
    ensures var s := Run(c, clock, steps);
            var s', key := Next(c, s, step), At(s, step.t).key;
            && key in s.tracker && s.tracker[key] == At(s, step.t).marker
            && s'.tracker == s.tracker - {key}
            && (forall u :: u != step.t && HasClaim(At(s, u).pc) ==> At(s, u).key != key)
  {
    var s, key := Run(c, clock, steps), At(Run(c, clock, steps), step.t).key;
    ClaimsAreExclusive(c, clock, steps, key);
    assert Owns(s, step.t, key);
    forall u | u != step.t && HasClaim(At(s, u).pc) ensures At(s, u).key != key {
      assert !Owns(s, u, key);
    }
  }

  // ---------- What an overstayer can do ----------

  ghost predicate Reachable(c: Config, clock: int, s: State) {
    exists steps :: Run(c, clock, steps) == s
  }

  lemma ReachNext(c: Config, clock: int, s: State, step: Step) returns (s': State)
    requires Reachable(c, clock, s)
    ensures s' == Next(c, s, step) && Reachable(c, clock, s')
  {
    var steps :| Run(c, clock, steps) == s;
    assert (steps + [step])[..|steps|] == steps;
    s' := Next(c, s, step);
    assert Run(c, clock, steps + [step]) == s';
  }

  lemma Launch(c: Config, clock: int, s0: State, t: Caller, key: Key) returns (s: State)
    requires Reachable(c, clock, s0) && t in c.callers && At(s0, t).pc.Idle? && !Held(s0.tracker, key, s0.clock)
    requires 0 <= s0.slots.count < c.maxConcurrent && s0.slots.count < MAX_INT32
    ensures Reachable(c, clock, s) && s.clock == s0.clock
    ensures At(s, t).pc.Running? && At(s, t).key == key && At(s, t).marker == s0.clock + c.ttl
    ensures s.tracker == s0.tracker[key := s0.clock + c.ttl] && s.slots.count == s0.slots.count + 1
    ensures forall u :: u != t ==> At(s, u) == At(s0, u)
  {
    s := ReachNext(c, clock, s0, Look(t, key));
    s := ReachNext(c, clock, s, Claim(t));
    s := ReachNext(c, clock, s, Count(t));
    s := ReachNext(c, clock, s, Decide(t));
  }

  /**
   What happens otherwise: a refresh outlives its marker, a second one starts on the same
   key, and the first one's Delete takes the second one's marker away.
   */
  lemma OverstayerDeletesAnothersMarker(c: Config, clock: int, key: Key) returns (s: State)
    requires c.Valid() && {0, 1} <= c.callers && 2 <= c.maxConcurrent
    ensures Reachable(c, clock, s)
    ensures At(s, 1).pc.Running? && At(s, 1).key == key && s.clock < At(s, 1).marker
    ensures key !in s.tracker
  {
    s := Init(clock);
    assert Run(c, clock, []) == s;
    s := Launch(c, clock, s, 0, key);
    assert At(s, 1) == FRESH_TASK;
    s := ReachNext(c, clock, s, Advance(c.ttl));
    s := Launch(c, clock, s, 1, key);
    s := ReachNext(c, clock, s, Return(0));
    s := ReachNext(c, clock, s, Release(0));
  }

  // ---------- The tracker's own history ----------

  /** The operation a step performs on the tracker, if it performs one. */
  function TrackerOps(s: State, step: Step): History {
    match step
    case SweepShard(shard) => [Event(SweepOp(shard), s.clock)]
    case Claim(t) => if At(s, t).pc.Checked? then [Event(SetOp(At(s, t).key), s.clock)] else []
    case Unclaim(t) => if At(s, t).pc.Uncounted? then [Event(DeleteOp(At(s, t).key), s.clock)] else []
    case Release(t) => if At(s, t).pc.Returned? then [Event(DeleteOp(At(s, t).key), s.clock)] else []
    case _ => []
  }

  function TrackerHistory(c: Config, clock: int, steps: seq<Step>): History {
    if steps == [] then []
    else
      var before := steps[..|steps| - 1];
      TrackerHistory(c, clock, before) + TrackerOps(Run(c, clock, before), steps[|steps| - 1])
  }

  /**
   Seen from the tracker, every interleaving is a run of the lease table at non-decreasing
   times, so what is proved of those (spacing, invisible sweeps, the sweep bound) holds here.
   */
  lemma {:induction false} TrackerRunsAsLeaseTable(c: Config, clock: int, steps: seq<Step>)
    ensures Within(TrackerHistory(c, clock, steps), clock, Run(c, clock, steps).clock)
    ensures LeaseTable.Run(map[], TrackerHistory(c, clock, steps), c.ttl) == Run(c, clock, steps).tracker
  {
    if steps != [] {
      var before, step := steps[..|steps| - 1], steps[|steps| - 1];
      var s := Run(c, clock, before);
      TrackerRunsAsLeaseTable(c, clock, before);
      StepIsTrackerOps(c, s, step);
      AppendOps(TrackerHistory(c, clock, before), TrackerOps(s, step), clock, s.clock, Next(c, s, step).clock, c.ttl);
    }
  }

  /** A history at non-decreasing times that lie between two instants. */
  ghost predicate Within(h: History, from: int, until: int) {
    from <= until && Ordered(h) && forall i :: 0 <= i < |h| ==> from <= h[i].now <= until
  }

  lemma AppendOps(h: History, ops: History, from: int, now: int, later: int, ttl: int)
    requires Within(h, from, now) && now <= later && |ops| <= 1 && (ops != [] ==> ops[0].now == now)
    ensures Within(h + ops, from, later)
    ensures LeaseTable.Run(map[], h + ops, ttl)
            == if ops == [] then LeaseTable.Run(map[], h, ttl)
               else LeaseTable.Step(LeaseTable.Run(map[], h, ttl), ops[0], ttl)
  {
    if ops == [] {
      assert h + ops == h;
    } else {
      assert (h + ops)[..|h|] == h && (h + ops)[|h|] == ops[0];
    }
  }

  lemma StepIsTrackerOps(c: Config, s: State, step: Step)
    ensures var ops := TrackerOps(s, step);
            && s.clock <= Next(c, s, step).clock
            && |ops| <= 1 && (ops != [] ==> ops[0].now == s.clock)
            && Next(c, s, step).tracker == if ops == [] then s.tracker else LeaseTable.Step(s.tracker, ops[0], c.ttl)
  {
  }

  // ---------- Nobody is stuck ----------

  /** A claim is lost exactly to a marker that has not run out; the loser is back, and nothing else has moved. */
  lemma LosersGoHome(c: Config, s: State, t: Caller)
    requires At(s, t).pc.Checked?
    ensures var s' := Next(c, s, Claim(t));
            && (At(s', t).pc == if Held(s.tracker, At(s, t).key, s.clock) then Idle else Claimed)
            && (At(s', t).pc.Idle? ==>
                  s'.tracker == s.tracker && s'.slots == s.slots && At(s', t).ledger == At(s, t).ledger)
  {
  }

  /** The caller's own steps, in the order of the code; those it is past or does not reach change nothing. */
  function WayOut(c: Config, s: State, t: Caller): State {
    var s := UpToDelete(c, Next(c, s, Claim(t)), t);
    Next(c, Next(c, Next(c, s, Unclaim(t)), Release(t)), Uncount(t))
  }

  /** From every point of every run a caller's own steps take it back, with as many deletes as claims. */
  lemma {:induction false} EveryCallerGetsOut(c: Config, clock: int, steps: seq<Step>, t: Caller)
    requires c.Valid()
    ensures At(WayOut(c, Run(c, clock, steps), t), t).pc.Idle?
    ensures var l := At(WayOut(c, Run(c, clock, steps), t), t).ledger;
            l.claims == l.deletes && l.adds == l.subtracts
  {
    var s := Run(c, clock, steps);
    CountInvHolds(c, clock, steps);
    var s1 := Next(c, s, Claim(t));
    NextKeepsCountInv(c, s, Claim(t));
    assert TaskOk(c, s1, t);
    DecidesAndStops(c, s1, t);
    var s2 := UpToDelete(c, s1, t);
    LastSteps(c, s2, t);
  }

  lemma DecidesAndStops(c: Config, s: State, t: Caller)
    requires TaskOk(c, s, t) && !At(s, t).pc.Checked?
    ensures var pc, l := At(UpToDelete(c, s, t), t).pc, At(UpToDelete(c, s, t), t).ledger;
            && (pc.Idle? || pc.Uncounted? || pc.Returned? || pc.Released?)
            && l.claims == l.deletes + One(HasClaim(pc)) && l.adds == l.subtracts + One(IsCounted(pc))
  {
  }

  lemma LastSteps(c: Config, s: State, t: Caller)
    requires var pc, l := At(s, t).pc, At(s, t).ledger;
             && (pc.Idle? || pc.Uncounted? || pc.Returned? || pc.Released?)
             && l.claims == l.deletes + One(HasClaim(pc)) && l.adds == l.subtracts + One(IsCounted(pc))
    ensures var s' := Next(c, Next(c, Next(c, s, Unclaim(t)), Release(t)), Uncount(t));
            At(s', t).pc.Idle? && At(s', t).ledger.claims == At(s', t).ledger.deletes
            && At(s', t).ledger.adds == At(s', t).ledger.subtracts
  {
  }

  // ---------- A call that nothing interrupts ----------

  /** The caller's steps in order; the ones its branch does not reach change nothing. */
  function RefreshAlone(c: Config, s: State, t: Caller, key: Key, wait: nat): State {
    var s := Next(c, Next(c, s, Look(t, key)), Advance(wait));
    var s := Next(c, Next(c, Next(c, s, Claim(t)), Count(t)), Decide(t));
    Next(c, Next(c, s, BackOut(t)), Unclaim(t))
  }

  /** What the call leaves behind: the table, the count, and whether a refresh was launched. */
  function RefreshOutcome(m: Table, count: int, key: Key, looked: int, claimed: int, ttl: int, limit: int)
    : (Table, int, bool)
  {
    if Held(m, key, looked) || Held(m, key, claimed) then (m, count, false)
    else if Inc32(count) > limit then (m - {key}, count, false)
    else (m[key := claimed + ttl], Inc32(count), true)
  }

  lemma UninterruptedRefresh(c: Config, s: State, t: Caller, key: Key, wait: nat)
    requires t in c.callers && At(s, t).pc.Idle? && MIN_INT32 <= s.slots.count <= MAX_INT32
    ensures var s' := RefreshAlone(c, s, t, key, wait);
            var (m, count, launched) :=
              RefreshOutcome(s.tracker, s.slots.count, key, s.clock, s.clock + wait, c.ttl, c.maxConcurrent);
            && s'.tracker == m && s'.slots.count == count
            && At(s', t).pc == if launched then Running else Idle
  {
    var s1 := Next(c, Next(c, s, Look(t, key)), Advance(wait));
    var s2 := Next(c, s1, Claim(t));
    if !Held(s.tracker, key, s.clock) && !Held(s.tracker, key, s.clock + wait) {
      assert s2.tracker == s.tracker[key := s.clock + wait + c.ttl];
      var s4 := Next(c, Next(c, s2, Count(t)), Decide(t));
      if Inc32(s.slots.count) > c.maxConcurrent {
        assert At(s4, t).pc.OverLimit?;
        assert s2.tracker - {key} == s.tracker - {key};
      } else {
        assert At(s4, t).pc.Running?;
      }
    }
  }

  /** The goroutine's steps from the end of its refresh on: the deferred block. */
  function FinishAlone(c: Config, s: State, t: Caller): State {
    Next(c, Next(c, Next(c, s, Return(t)), Release(t)), Uncount(t))
  }

  lemma UninterruptedFinish(c: Config, s: State, t: Caller)
    requires At(s, t).pc.Running?
    ensures var s' := FinishAlone(c, s, t);
            s'.tracker == s.tracker - {At(s, t).key} && s'.slots.count == Dec32(s.slots.count) && At(s', t).pc.Idle?
  {
  }
}
