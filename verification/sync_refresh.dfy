/**
 safeCall and syncRefresh when nothing interrupts: what they leave in storage and what the
 caller is told, as functions of what the outside world contributes, and the proof that the
 protocol's steps, taken one after the other, do exactly that.
 */
module SyncRefreshes {
  import opened Machine
  import opened CacheEntries
  import F = Flights

  type Entry = F.Entry
  type Value = F.Value

  datatype Upstream = Silent | Errs | Gives(value: Value)   // time-out or shutdown; error or panic; a value

  /** What safeCall meets on its way, stage by stage. */
  datatype World = World(
    upstream: Upstream, transforms: bool, marshals: bool, calculated: Option<(int, int)>,
    now: int, remaining: int, stores: bool)

  /** The key's own TTL settings win over the calculator, which may fail. */
  function TTLs(ownTTL: Option<CacheTTL>, calculated: Option<(int, int)>): Option<(int, int)> {
    if ownTTL.Some? then Some(ToEngineTTLs(ownTTL)) else calculated
  }

  function BuildEntry(cfg: F.Config, key: Key, raw: Value, now: int, ttls: (int, int)): Entry {
    F.Entry(key, cfg.marshal(raw), Stamp(now, ttls.0, ttls.1))
  }

  /** The raw value with which safeCall returns, if every stage before the store succeeds. */
  function SafeCallOutcome(cfg: F.Config, key: Key, ownTTL: Option<CacheTTL>, w: World): F.Outcome {
    if w.upstream.Gives? && w.transforms && w.marshals && TTLs(ownTTL, w.calculated).Some? && w.remaining > 0
    then F.Ok(cfg.transform(key, w.upstream.value))
    else F.Err
  }

  // ---------- safeCall as a run of its stages ----------

  function CallbackStep(c: nat, w: World): F.Step {
    match w.upstream
    case Silent => F.Fail(c)
    case Errs => F.CallbackFails(c)
    case Gives(value) => F.CallbackGives(c, value)
  }

  function TransformStep(c: nat, w: World): F.Step {
    if w.transforms then F.Transform(c) else F.Fail(c)
  }

  function MarshalStep(c: nat, w: World): F.Step {
    if w.marshals then F.Marshal(c) else F.Fail(c)
  }

  function BuildStep(c: nat, ownTTL: Option<CacheTTL>, w: World): F.Step {
    match TTLs(ownTTL, w.calculated)
    case None => F.Fail(c)
    case Some(ttls) => F.Build(c, w.now, ttls.0, ttls.1)
  }

  function StoreStep(c: nat, w: World): F.Step {
    if w.remaining > 0 then F.Store(c, w.stores) else F.Fail(c)
  }

  /** The five steps of call c in order; after a failure the later ones change nothing. */
  function SafeCallSteps(c: nat, ownTTL: Option<CacheTTL>, w: World): seq<F.Step> {
    [CallbackStep(c, w), TransformStep(c, w), MarshalStep(c, w), BuildStep(c, ownTTL, w), StoreStep(c, w)]
  }

  function SafeCallAlone(cfg: F.Config, s: F.State, c: nat, ownTTL: Option<CacheTTL>, w: World): F.State {
    F.RunFrom(cfg, s, SafeCallSteps(c, ownTTL, w))
  }

  predicate SaneWorld(w: World) {
    ClockInRange(w.now) && (w.calculated.Some? ==> IsInt64(w.calculated.value.0) && IsInt64(w.calculated.value.1))
  }

  /** Storage after safeCall: the new entry if everything worked and the store did too, else as before. */
  function SafeCallStorage(cfg: F.Config, storage: map<Key, Entry>, key: Key, ownTTL: Option<CacheTTL>, w: World)
    : map<Key, Entry>
  {
    var outcome := SafeCallOutcome(cfg, key, ownTTL, w);
    if outcome.Ok? && w.stores
    then storage[key := BuildEntry(cfg, key, outcome.raw, w.now, TTLs(ownTTL, w.calculated).value)]
    else storage
  }

  /** Neither waiters nor singleflight notice a call that is under way. */
  ghost predicate Unnoticed(s: F.State, s': F.State) {
    |s'.calls| == |s.calls| && s'.flight == s.flight && s'.waits == s.waits && s'.served == s.served
  }

  const FAILED := F.Leaving(F.Err)

  /** After the callback and the transformer: the raw value, or the call has failed. */
  lemma FirstStages(cfg: F.Config, s: F.State, s1: F.State, s2: F.State, c: nat, w: World)
    requires c < |s.calls| && s.calls[c].phase.Calling? && s.calls[c].running
    requires F.Staged(cfg, s, s1, CallbackStep(c, w)) && F.Staged(cfg, s1, s2, TransformStep(c, w))
    ensures s2.storage == s.storage && s2.calls[c].key == s.calls[c].key && Unnoticed(s, s2)
    ensures s2.calls[c].phase == if w.upstream.Gives? && w.transforms
                                 then F.Transformed(cfg.transform(s.calls[c].key, w.upstream.value)) else FAILED
  {
  }

  /** After marshalling and the TTLs: the entry, or the call has failed. */
  lemma MiddleStages(cfg: F.Config, s2: F.State, s3: F.State, s4: F.State, c: nat, ownTTL: Option<CacheTTL>, w: World)
    requires c < |s2.calls| && (s2.calls[c].phase == FAILED || s2.calls[c].phase.Transformed?)
    requires SaneWorld(w)
    requires F.Staged(cfg, s2, s3, MarshalStep(c, w)) && F.Staged(cfg, s3, s4, BuildStep(c, ownTTL, w))
    ensures s4.storage == s2.storage && s4.calls[c].key == s2.calls[c].key && Unnoticed(s2, s4)
    ensures var call, ttls := s2.calls[c], TTLs(ownTTL, w.calculated);
            s4.calls[c].phase
            == if call.phase.Transformed? && w.marshals && ttls.Some?
               then F.Built(call.phase.raw, BuildEntry(cfg, call.key, call.phase.raw, w.now, ttls.value)) else FAILED
  {
  }

  /** The store: a timely one ends the call well, whether or not it writes. */
  lemma LastStage(cfg: F.Config, s4: F.State, s5: F.State, c: nat, w: World)
    requires c < |s4.calls| && (s4.calls[c].phase == FAILED || s4.calls[c].phase.Built?)
    requires F.Staged(cfg, s4, s5, StoreStep(c, w))
    ensures s5.calls[c].key == s4.calls[c].key && Unnoticed(s4, s5)
    ensures var call := s4.calls[c];
            var done := call.phase.Built? && w.remaining > 0;
            && s5.calls[c].phase == (if done then F.Leaving(F.Ok(call.phase.raw)) else FAILED)
            && s5.storage == if done && w.stores then s4.storage[call.key := call.phase.entry] else s4.storage
  {
  }

  lemma {:induction false} FiveStages(
      cfg: F.Config, s: F.State, s1: F.State, s2: F.State, s3: F.State, s4: F.State, s5: F.State,
      c: nat, ownTTL: Option<CacheTTL>, w: World)
    requires c < |s.calls| && s.calls[c].phase.Calling? && s.calls[c].running && SaneWorld(w)
    requires F.Staged(cfg, s, s1, CallbackStep(c, w)) && F.Staged(cfg, s1, s2, TransformStep(c, w))
    requires F.Staged(cfg, s2, s3, MarshalStep(c, w)) && F.Staged(cfg, s3, s4, BuildStep(c, ownTTL, w))
    requires F.Staged(cfg, s4, s5, StoreStep(c, w))
    ensures s5.calls[c].phase == F.Leaving(SafeCallOutcome(cfg, s.calls[c].key, ownTTL, w))
    ensures s5.storage == SafeCallStorage(cfg, s.storage, s.calls[c].key, ownTTL, w)
    ensures s5.calls[c].key == s.calls[c].key && Unnoticed(s, s5)
  {
    FirstStages(cfg, s, s1, s2, c, w);
    MiddleStages(cfg, s2, s3, s4, c, ownTTL, w);
    LastStage(cfg, s4, s5, c, w);
  }

  /** safeCall run alone is the five stages of its call, one after the other. */
  lemma {:induction false} SafeCallIsItsStages(cfg: F.Config, s: F.State, c: nat, ownTTL: Option<CacheTTL>, w: World)
    requires c < |s.calls| && s.calls[c].phase.Calling? && s.calls[c].running
    requires SaneWorld(w)
    ensures var s', key := SafeCallAlone(cfg, s, c, ownTTL, w), s.calls[c].key;
            && Unnoticed(s, s') && s'.calls[c].key == key
            && s'.calls[c].phase == F.Leaving(SafeCallOutcome(cfg, key, ownTTL, w))
            && s'.storage == SafeCallStorage(cfg, s.storage, key, ownTTL, w)
  {
    var s1, s2, s3, s4, s5 := AllStaged(cfg, s, c, SafeCallSteps(c, ownTTL, w));
    FiveStages(cfg, s, s1, s2, s3, s4, s5, c, ownTTL, w);
  }

  lemma AllStaged(cfg: F.Config, s: F.State, c: nat, steps: seq<F.Step>)
      returns (s1: F.State, s2: F.State, s3: F.State, s4: F.State, s5: F.State)
    requires |steps| == 5 && c < |s.calls| && forall i :: 0 <= i < 5 ==> F.IsCallStep(steps[i]) && steps[i].c == c
    ensures F.Staged(cfg, s, s1, steps[0]) && F.Staged(cfg, s1, s2, steps[1]) && F.Staged(cfg, s2, s3, steps[2])
    ensures F.Staged(cfg, s3, s4, steps[3]) && F.Staged(cfg, s4, s5, steps[4])
    ensures F.RunFrom(cfg, s, steps) == s5
  {
    s1 := FirstStaged(cfg, s, c, steps);
    s2 := FirstStaged(cfg, s1, c, steps[1..]);
    s3 := FirstStaged(cfg, s2, c, steps[2..]);
    s4 := FirstStaged(cfg, s3, c, steps[3..]);
    s5 := FirstStaged(cfg, s4, c, steps[4..]);
  }

  lemma FirstStaged(cfg: F.Config, s: F.State, c: nat, steps: seq<F.Step>) returns (s': F.State)
    requires steps != [] && F.IsCallStep(steps[0]) && steps[0].c == c < |s.calls|
    ensures F.Staged(cfg, s, s', steps[0]) && F.RunFrom(cfg, s, steps) == F.RunFrom(cfg, s', steps[1..])
  {
    s' := F.Next(cfg, s, steps[0]);
    F.CallStepIsStaged(cfg, s, steps[0]);
  }

  // ---------- syncRefresh as a run of its steps ----------

  datatype Reply = Error | Reply(entry: Entry, status: string)

  /** What a caller is told after its refresh: what storage answers, or an entry rebuilt from the result. */
  function SyncReply(cfg: F.Config, answer: Option<Entry>, key: Key, ownTTL: Option<CacheTTL>, outcome: F.Outcome,
                     again: World): Reply
  {
    if outcome.Err? then Error
    else if answer.Some? then Reply(answer.value, "miss")
    else
      var ttls := TTLs(ownTTL, again.calculated);
      if again.marshals && ttls.Some? then Reply(BuildEntry(cfg, key, outcome.raw, again.now, ttls.value), "miss")
      else Error
  }

  /** Storage may not answer even when it holds the key. */
  function Answer(storage: map<Key, Entry>, key: Key, answers: bool): Option<Entry> {
    if answers && key in storage then Some(storage[key]) else None
  }

  /** The same, from the storage before the call and what the call met. */
  function MissReply(cfg: F.Config, storage: map<Key, Entry>, key: Key, ownTTL: Option<CacheTTL>, answers: bool,
                     w: World, again: World): Reply
  {
    SyncReply(cfg, Answer(SafeCallStorage(cfg, storage, key, ownTTL, w), key, answers), key, ownTTL,
              SafeCallOutcome(cfg, key, ownTTL, w), again)
  }

  /** How the wait ends; after an error there is nothing left to end. */
  function EndStep(t: Caller, storage: map<Key, Entry>, key: Key, ownTTL: Option<CacheTTL>, answers: bool, again: World)
    : F.Step
  {
    var ttls := TTLs(ownTTL, again.calculated);
    if Answer(storage, key, answers).Some? then F.ReadBack(t)
    else if again.marshals && ttls.Some? then F.Rebuild(t, again.now, ttls.value.0, ttls.value.1)
    else F.GiveUp(t)
  }

  /** From the end of safeCall on: the key is let go, the result is received, and the caller leaves. */
  function LeaveAlone(cfg: F.Config, s: F.State, t: Caller, c: nat, key: Key, ownTTL: Option<CacheTTL>, answers: bool,
                      again: World): F.State
  {
    var s := F.Next(cfg, s, F.Land(c));
    var s := F.Next(cfg, s, F.Receive(t));
    F.Next(cfg, s, EndStep(t, s.storage, key, ownTTL, answers, again))
  }

  /** One caller's synchronous refresh: it starts a call, which runs through its stages, and leaves. */
  function SyncRefreshAlone(cfg: F.Config, s: F.State, t: Caller, key: Key, ownTTL: Option<CacheTTL>, answers: bool,
                            w: World, again: World): F.State
  {
    var c := |s.calls|;
    LeaveAlone(cfg, SafeCallAlone(cfg, F.Next(cfg, s, F.Join(t, key)), c, ownTTL, w), t, c, key, ownTTL, answers, again)
  }

  /** What a reply adds to the history of entries handed out. */
  function Handed(key: Key, reply: Reply): set<F.Served> {
    if reply.Reply? then {F.Served(key, reply.entry)} else {}
  }

  /** A waiter whose call has succeeded is told exactly what SyncReply says. */
  lemma EndOfWait(cfg: F.Config, s: F.State, t: Caller, c: nat, key: Key, ownTTL: Option<CacheTTL>, answers: bool,
                  again: World)
    requires c < |s.calls| && s.calls[c].Succeeded() && s.calls[c].key == key
    requires F.WaitOf(s, t) == F.Reading(c) && SaneWorld(again)
    ensures var s' := F.Next(cfg, s, EndStep(t, s.storage, key, ownTTL, answers, again));
            var reply := SyncReply(cfg, Answer(s.storage, key, answers), key, ownTTL, s.calls[c].phase.outcome, again);
            s' == F.Rest(s, t).(served := s.served + Handed(key, reply))
  {
    var step := EndStep(t, s.storage, key, ownTTL, answers, again);
    if step.GiveUp? {
      assert F.Next(cfg, s, step) == F.Rest(s, t);
    }
  }

  /** From the end of safeCall on, storage stays and the waiter is told what SyncReply says, be it an error. */
  lemma LeavingWaiter(cfg: F.Config, s: F.State, t: Caller, c: nat, key: Key, ownTTL: Option<CacheTTL>, answers: bool,
                      again: World)
    requires c < |s.calls| && s.calls[c].phase.Leaving? && s.calls[c].key == key
    requires F.WaitOf(s, t) == F.Waiting(c) && t !in cfg.background && SaneWorld(again)
    requires key in s.flight && s.flight[key] == c
    ensures var s' := LeaveAlone(cfg, s, t, c, key, ownTTL, answers, again);
            var reply := SyncReply(cfg, Answer(s.storage, key, answers), key, ownTTL, s.calls[c].phase.outcome, again);
            && s'.storage == s.storage && s'.flight == s.flight - {key} && F.WaitOf(s', t).Away?
            && s'.served == s.served + Handed(key, reply)
  {
    var landed := Landing(cfg, s, c);
    var received := F.Next(cfg, landed, F.Receive(t));
    assert received == F.DoReceive(cfg, landed, t, c);
    if s.calls[c].phase.outcome.Ok? {
      EndOfWait(cfg, received, t, c, key, ownTTL, answers, again);
    }
  }

  /**
   A caller that starts its own call leaves the storage of safeCall behind, is handed the
   entry of its reply and no other, and leaves no trace in singleflight.
   */
  lemma {:induction false} SyncRefreshIsItsSteps(
      cfg: F.Config, s: F.State, t: Caller, key: Key, ownTTL: Option<CacheTTL>, answers: bool, w: World, again: World)
    requires F.WaitOf(s, t).Away? && t !in cfg.background && key !in s.flight
    requires SaneWorld(w) && SaneWorld(again)
    ensures var s' := SyncRefreshAlone(cfg, s, t, key, ownTTL, answers, w, again);
            && s'.storage == SafeCallStorage(cfg, s.storage, key, ownTTL, w)
            && s'.served == s.served + Handed(key, MissReply(cfg, s.storage, key, ownTTL, answers, w, again))
            && s'.flight == s.flight && F.WaitOf(s', t).Away?
  {
    var c := |s.calls|;
    var joined := F.Next(cfg, s, F.Join(t, key));
    assert joined == F.DoJoin(s, t, key);
    SafeCallIsItsStages(cfg, joined, c, ownTTL, w);
    var left := SafeCallAlone(cfg, joined, c, ownTTL, w);
    assert left.flight - {key} == s.flight;
    LeavingWaiter(cfg, left, t, c, key, ownTTL, answers, again);
  }

  lemma Landing(cfg: F.Config, s: F.State, c: nat) returns (s': F.State)
    requires c < |s.calls| && s.calls[c].phase.Leaving?
    requires s.calls[c].key in s.flight && s.flight[s.calls[c].key] == c
    ensures s' == F.Next(cfg, s, F.Land(c)) && s'.flight == s.flight - {s.calls[c].key}
    ensures s'.calls == s.calls[c := s.calls[c].(phase := F.Landed(s.calls[c].phase.outcome))]
    ensures s'.storage == s.storage && s'.waits == s.waits && s'.served == s.served
  {
    s' := F.Next(cfg, s, F.Land(c));
  }

  // ---------- Which lifetimes an entry gets ----------

  /** Every stage up to the store goes well: the key's own settings, or else the calculator, give the lifetimes. */
  predicate Works(ownTTL: Option<CacheTTL>, w: World) {
    && w.upstream.Gives? && w.transforms && w.marshals && w.remaining > 0
    && (ownTTL.Some? || w.calculated.Some?)
  }

  lemma SucceedsExactly(cfg: F.Config, key: Key, ownTTL: Option<CacheTTL>, w: World)
    ensures var outcome := SafeCallOutcome(cfg, key, ownTTL, w);
            && (outcome.Ok? <==> Works(ownTTL, w))
            && (outcome.Ok? ==> outcome.raw == cfg.transform(key, w.upstream.value))
  {
  }

  /** The step that builds the entry of a key with settings of its own does not depend on the calculator. */
  lemma OwnSettingsBuild(c: nat, own: CacheTTL, w: World, other: Option<(int, int)>)
    ensures BuildStep(c, Some(own), w).Build?
    ensures BuildStep(c, Some(own), w) == BuildStep(c, Some(own), w.(calculated := other))
  {
  }

  /**
   A key's own settings decide alone: whatever the calculator answers, or if it fails, result
   and storage are the same, and the stored entry is stale and expires as the settings say.
   */
  lemma {:induction false} OwnSettingsWin(
      cfg: F.Config, storage: map<Key, Entry>, key: Key, own: CacheTTL, w: World, other: Option<(int, int)>)
    requires SaneWorld(w) && own.IsInt64s()
    ensures SafeCallOutcome(cfg, key, Some(own), w) == SafeCallOutcome(cfg, key, Some(own), w.(calculated := other))
    ensures SafeCallStorage(cfg, storage, key, Some(own), w)
            == SafeCallStorage(cfg, storage, key, Some(own), w.(calculated := other))
    ensures Works(Some(own), w) && w.stores ==>
              var after, (total, freshTTL) := SafeCallStorage(cfg, storage, key, Some(own), w), ToEngineTTLs(Some(own));
              key in after && after[key].times == Stamp(w.now, total, freshTTL)
    ensures Works(Some(own), w) && w.stores && 0 <= own.freshSeconds && 0 <= own.staleSeconds && 0 <= own.expiredSeconds
            && 5 <= own.freshSeconds + own.staleSeconds + own.expiredSeconds <= MAX_INT64 / SECOND ==>
              SafeCallStorage(cfg, storage, key, Some(own), w)[key].times
              == Times(w.now, w.now + 1000 * own.freshSeconds,
                       w.now + 1000 * (own.freshSeconds + own.staleSeconds + own.expiredSeconds))
  {
    if 0 <= own.freshSeconds && 0 <= own.staleSeconds && 0 <= own.expiredSeconds
       && 5 <= own.freshSeconds + own.staleSeconds + own.expiredSeconds <= MAX_INT64 / SECOND {
      InRangeTTLsAreExact(own, w.now);
    }
  }

  /** Without settings of its own a key depends on the calculator, which can fail the call. */
  lemma {:induction false} CalculatorDecidesOtherwise(cfg: F.Config, storage: map<Key, Entry>, key: Key, w: World)
    ensures w.calculated.None? ==> SafeCallOutcome(cfg, key, None, w).Err?
    ensures Works(None, w) && w.stores ==>
              var after := SafeCallStorage(cfg, storage, key, None, w);
              key in after && after[key].times == Stamp(w.now, w.calculated.value.0, w.calculated.value.1)
  {
  }

  /** The same holds of an entry rebuilt for a caller whose storage does not answer. */
  lemma {:induction false} RebuiltLifetimes(
      cfg: F.Config, key: Key, ownTTL: Option<CacheTTL>, raw: Value, again: World)
    ensures var reply := SyncReply(cfg, None, key, ownTTL, F.Ok(raw), again);
            && (reply.Reply? <==> again.marshals && (ownTTL.Some? || again.calculated.Some?))
            && (reply.Reply? ==>
                  && reply.status == "miss" && reply.entry.key == key && reply.entry.value == cfg.marshal(raw)
                  && reply.entry.times ==
                       if ownTTL.Some? then Stamp(again.now, ToEngineTTLs(ownTTL).0, ToEngineTTLs(ownTTL).1)
                       else Stamp(again.now, again.calculated.value.0, again.calculated.value.1))
  {
  }

  /** A storage that answers wins: the caller is handed what is stored, whatever rebuilding would meet. */
  lemma {:induction false} AnsweringStorageWins(
      cfg: F.Config, s: F.State, t: Caller, key: Key, ownTTL: Option<CacheTTL>, w: World, again: World)
    requires F.WaitOf(s, t).Away? && t !in cfg.background && key !in s.flight
    requires SaneWorld(w) && SaneWorld(again) && Works(ownTTL, w)
    ensures var s' := SyncRefreshAlone(cfg, s, t, key, ownTTL, true, w, again);
            key in s'.storage ==> s'.served == s.served + {F.Served(key, s'.storage[key])}
    ensures w.stores ==> key in SyncRefreshAlone(cfg, s, t, key, ownTTL, true, w, again).storage
  {
    SyncRefreshIsItsSteps(cfg, s, t, key, ownTTL, true, w, again);
    SucceedsExactly(cfg, key, ownTTL, w);
  }

  // ---------- Where a reply comes from ----------

  ghost predicate GenuineStorage(cfg: F.Config, accepted: set<(Key, Value)>, storage: map<Key, Entry>) {
    forall key :: key in storage ==> F.Genuine(cfg, accepted, key, storage[key])
  }

  /** What the callback has given once the call is over. */
  function Heard(accepted: set<(Key, Value)>, key: Key, w: World): set<(Key, Value)> {
    if w.upstream.Gives? then accepted + {(key, w.upstream.value)} else accepted
  }

  lemma BuiltIsGenuine(cfg: F.Config, accepted: set<(Key, Value)>, key: Key, v: Value, now: int, ttls: (int, int))
    requires (key, v) in accepted && ClockInRange(now) && IsInt64(ttls.0) && IsInt64(ttls.1)
    ensures F.Genuine(cfg, accepted, key, BuildEntry(cfg, key, cfg.transform(key, v), now, ttls))
  {
    StampIsInOrder(now, ttls.0, ttls.1);
  }

  lemma SafeCallStorageIsGenuine(
      cfg: F.Config, accepted: set<(Key, Value)>, storage: map<Key, Entry>, key: Key, ownTTL: Option<CacheTTL>,
      w: World)
    requires GenuineStorage(cfg, accepted, storage) && SaneWorld(w)
    ensures GenuineStorage(cfg, Heard(accepted, key, w), SafeCallStorage(cfg, storage, key, ownTTL, w))
  {
    F.MoreAccepted(cfg, accepted, Heard(accepted, key, w));
    if SafeCallOutcome(cfg, key, ownTTL, w).Ok? {
      BuiltIsGenuine(cfg, Heard(accepted, key, w), key, w.upstream.value, w.now, TTLs(ownTTL, w.calculated).value);
    }
  }

  /** What a synchronous refresh stores and what it returns are genuine, if storage was. */
  lemma {:induction false} MissReplyIsGenuine(
      cfg: F.Config, accepted: set<(Key, Value)>, storage: map<Key, Entry>, key: Key, ownTTL: Option<CacheTTL>,
      answers: bool, w: World, again: World)
    requires GenuineStorage(cfg, accepted, storage) && SaneWorld(w) && SaneWorld(again)
    ensures GenuineStorage(cfg, Heard(accepted, key, w), SafeCallStorage(cfg, storage, key, ownTTL, w))
    ensures var reply := MissReply(cfg, storage, key, ownTTL, answers, w, again);
            reply.Reply? ==> F.Genuine(cfg, Heard(accepted, key, w), key, reply.entry)
  {
    SafeCallStorageIsGenuine(cfg, accepted, storage, key, ownTTL, w);
    if SafeCallOutcome(cfg, key, ownTTL, w).Ok? && TTLs(ownTTL, again.calculated).Some? {
      var ttls := TTLs(ownTTL, again.calculated).value;
      BuiltIsGenuine(cfg, Heard(accepted, key, w), key, w.upstream.value, again.now, ttls);
    }
  }

  // ---------- A refresh whose write is lost ----------

  lemma {:induction false} ReachAll(cfg: F.Config, s: F.State, steps: seq<F.Step>)
    requires F.Reachable(cfg, s)
    ensures F.Reachable(cfg, F.RunFrom(cfg, s, steps))
    decreases |steps|
  {
    if steps != [] {
      var next := F.ReachNext(cfg, s, steps[0]);
      ReachAll(cfg, next, steps[1..]);
    }
  }

  lemma ReachReceive(cfg: F.Config, s0: F.State, t: Caller, c: nat) returns (s: F.State)
    requires F.Reachable(cfg, s0) && F.WaitOf(s0, t) == F.Waiting(c) && t !in cfg.background
    requires c < |s0.calls| && s0.calls[c].phase.Leaving? && s0.calls[c].phase.outcome.Ok?
    requires s0.calls[c].key in s0.flight && s0.flight[s0.calls[c].key] == c
    ensures F.Reachable(cfg, s) && s.flight == s0.flight - {s0.calls[c].key}
    ensures s.calls == s0.calls[c := s0.calls[c].(phase := F.Landed(s0.calls[c].phase.outcome))]
    ensures s.waits == s0.waits[t := F.Reading(c)] && s.storage == s0.storage && s.served == s0.served
  {
    var landed := Landing(cfg, s0, c);
    s := F.ReachNext(cfg, s0, F.Land(c));
    s := F.ReachNext(cfg, landed, F.Receive(t));
    assert s == F.DoReceive(cfg, landed, t, c);
  }

  /** The steps up to the moment the caller could read back. */
  lemma ReachReading(cfg: F.Config, s0: F.State, t: Caller, key: Key, ownTTL: Option<CacheTTL>, w: World)
      returns (s: F.State)
    requires F.Reachable(cfg, s0) && F.WaitOf(s0, t).Away? && t !in cfg.background && key !in s0.flight
    requires SaneWorld(w) && SafeCallOutcome(cfg, key, ownTTL, w).Ok?
    ensures F.Reachable(cfg, s) && |s.calls| == |s0.calls| + 1
    ensures s.waits == s0.waits[t := F.Reading(|s0.calls|)] && s.served == s0.served && s.flight == s0.flight
    ensures s.calls[|s0.calls|].phase == F.Landed(SafeCallOutcome(cfg, key, ownTTL, w))
    ensures s.calls[|s0.calls|].key == key
    ensures s.storage == SafeCallStorage(cfg, s0.storage, key, ownTTL, w)
  {
    var c := |s0.calls|;
    var joined := F.ReachNext(cfg, s0, F.Join(t, key));
    assert joined == F.DoJoin(s0, t, key);
    SafeCallIsItsStages(cfg, joined, c, ownTTL, w);
    var left := SafeCallAlone(cfg, joined, c, ownTTL, w);
    ReachAll(cfg, joined, SafeCallSteps(c, ownTTL, w));
    assert left.flight - {key} == s0.flight;
    s := ReachReceive(cfg, left, t, c);
  }

  /** One refresh has stored its entry; its caller has yet to read it back. */
  lemma OneRefreshStored(cfg: F.Config, key: Key, ownTTL: Option<CacheTTL>, w: World) returns (s: F.State)
    requires 0 !in cfg.background && SaneWorld(w) && SafeCallOutcome(cfg, key, ownTTL, w).Ok? && w.stores
    ensures F.Reachable(cfg, s) && |s.calls| == 1 && s.flight == map[] && s.served == {}
    ensures F.WaitOf(s, 1).Away? && key in s.storage
    ensures s.storage[key].value == cfg.marshal(cfg.transform(key, w.upstream.value))
  {
    s := F.Init(cfg);
    assert F.Run(cfg, []) == s;
    s := ReachReading(cfg, s, 0, key, ownTTL, w);
  }

  /**
   When the Set of a refresh fails, its caller can be handed an older entry: the second refresh
   succeeded with w2's value, and its read-back gives what the first one stored of w1's.
   */
  lemma OlderEntryAfterLostWrite(cfg: F.Config, key: Key, ownTTL: Option<CacheTTL>, w1: World, w2: World)
      returns (s: F.State)
    requires 0 !in cfg.background && 1 !in cfg.background && SaneWorld(w1) && SaneWorld(w2)
    requires SafeCallOutcome(cfg, key, ownTTL, w1).Ok? && w1.stores
    requires SafeCallOutcome(cfg, key, ownTTL, w2).Ok? && !w2.stores
    ensures F.Reachable(cfg, s) && F.WaitOf(s, 1) == F.Reading(1) && |s.calls| == 2
    ensures s.calls[1].phase == F.Landed(F.Ok(cfg.transform(key, w2.upstream.value)))
    ensures exists entry: Entry :: entry.value == cfg.marshal(cfg.transform(key, w1.upstream.value))
              && s.served == {} && F.Next(cfg, s, F.ReadBack(1)).served == {F.Served(key, entry)}
  {
    s := OneRefreshStored(cfg, key, ownTTL, w1);
    s := ReachReading(cfg, s, 1, key, ownTTL, w2);
    assert F.Next(cfg, s, F.ReadBack(1)) == F.Serve(s, 1, key, s.storage[key]);
  }
}
