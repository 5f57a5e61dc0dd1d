/**
 Refreshing through singleflight: cold misses and background refreshes join one shared
 safeCall per key, whose stages are steps of their own, while callers cancel, callbacks
 outlive their call, storage writes fail and storage drops entries at any moment.
 Singleflight is taken by its contract, storage as a map that may refuse a write.
 */
module Flights {
  import opened Machine
  import opened CacheEntries

  type Value = int          // a value of the application, known by its identity alone
  type Bytes = seq<bv8>

  datatype Entry = Entry(key: Key, value: Bytes, times: Times)

  /**
   What storage held at the start, the callers that are background refreshes, and the
   pluggable parts. A part that fails is a Fail step; when it succeeds, this is what it gives.
   */
  datatype Config = Config(
    initial: map<Key, Entry>, background: set<Caller>, transform: (Key, Value) -> Value, marshal: Value -> Bytes)

  datatype Outcome = Ok(raw: Value) | Err

  /** The stages of safeCall, and then of singleflight around it. */
  datatype Phase =
    | Calling                            // the callback has been started
    | Got(raw: Value)                    // its value arrived in time
    | Transformed(raw: Value)
    | Marshalled(raw: Value, data: Bytes)
    | Built(raw: Value, entry: Entry)
    | Leaving(outcome: Outcome)          // safeCall has returned
    | Landed(outcome: Outcome)           // singleflight has let go of the key

  /** `value` is what the callback gave; `running` says whether its goroutine is still alive. */
  datatype Call = Call(key: Key, leader: Caller, phase: Phase, value: Value, running: bool) {
    predicate Active() { !phase.Landed? }

    /** Between safeCall's start and its return. */
    predicate InSafeCall() { !phase.Leaving? && !phase.Landed? }

    predicate Failed() {
      (phase.Leaving? || phase.Landed?) && phase.outcome.Err?
    }

    predicate Succeeded() {
      (phase.Leaving? || phase.Landed?) && phase.outcome.Ok?
    }
  }

  datatype Wait = Away | Waiting(call: nat) | Reading(call: nat)

  datatype Write = Write(call: nat, key: Key, entry: Entry)
  datatype Served = Served(key: Key, entry: Entry)

  /** `accepted`, `writes` and `served` are histories: they grow and nothing reads them. */
  datatype State = State(
    calls: seq<Call>, flight: map<Key, nat>, storage: map<Key, Entry>, waits: map<Caller, Wait>,
    accepted: set<(Key, Value)>, writes: seq<Write>, served: set<Served>)

  datatype Step =
    | Join(w: Caller, key: Key)                       // sfg.Do or sfg.DoChan
    | CallbackGives(c: nat, value: Value)             // the callback's goroutine ends well
    | CallbackFails(c: nat)                           // it ends with an error or a panic
    | Fail(c: nat)                                    // time-out, shutdown, deadline, panic or error of a stage
    | Transform(c: nat)
    | Marshal(c: nat)
    | Build(c: nat, now: int, ttl: int, staleTTL: int)
    | Store(c: nat, ok: bool)
    | Land(c: nat)
    | Receive(w: Caller)
    | Cancel(w: Caller)                               // the caller's context is done
    | ReadBack(w: Caller)                             // storage answers after the refresh
    | Rebuild(w: Caller, now: int, ttl: int, staleTTL: int)
    | GiveUp(w: Caller)                               // rebuilding failed
    | Hit(w: Caller, key: Key)                        // Execute finds an entry
    | Evict(key: Key)

  function WaitOf(s: State, w: Caller): Wait {
    if w in s.waits then s.waits[w] else Away
  }

  function Rest(s: State, w: Caller): State {
    s.(waits := s.waits[w := Away])
  }

  function DoJoin(s: State, w: Caller, key: Key): State {
    if key in s.flight then s.(waits := s.waits[w := Waiting(s.flight[key])])
    else s.(calls := s.calls + [Call(key, w, Calling, 0, true)],
            flight := s.flight[key := |s.calls|],
            waits := s.waits[w := Waiting(|s.calls|)])
  }

  predicate Sane(now: int, ttl: int, staleTTL: int) {
    ClockInRange(now) && IsInt64(ttl) && IsInt64(staleTTL)
  }

  /** One stage of a call. A result that arrives after safeCall has given up goes nowhere. */
  function Stage(cfg: Config, call: Call, step: Step): Call {
    match step
    case CallbackGives(_, value) =>
      if !call.running then call
      else if call.phase.Calling? then call.(running := false, phase := Got(value), value := value)
      else call.(running := false)
    case CallbackFails(_) =>
      if !call.running then call
      else if call.phase.Calling? then call.(running := false, phase := Leaving(Err))
      else call.(running := false)
    case Fail(_) => if call.InSafeCall() then call.(phase := Leaving(Err)) else call
    case Transform(_) =>
      if call.phase.Got? then call.(phase := Transformed(cfg.transform(call.key, call.phase.raw))) else call
    case Marshal(_) =>
      if call.phase.Transformed? then call.(phase := Marshalled(call.phase.raw, cfg.marshal(call.phase.raw))) else call
    case Build(_, now, ttl, staleTTL) =>
      if call.phase.Marshalled? && Sane(now, ttl, staleTTL)
      then call.(phase := Built(call.phase.raw, Entry(call.key, call.phase.data, Stamp(now, ttl, staleTTL)))) else call
    case Store(_, _) => if call.phase.Built? then call.(phase := Leaving(Ok(call.phase.raw))) else call
    case Land(_) => if call.phase.Leaving? then call.(phase := Landed(call.phase.outcome)) else call
    case _ => call
  }

  predicate Accepts(call: Call, step: Step) {
    step.CallbackGives? && call.running && call.phase.Calling?
  }

  predicate Writes(call: Call, step: Step) {
    step.Store? && step.ok && call.phase.Built?
  }

  /** A failed write leaves storage as it was; the call succeeds all the same. */
  function NextOfCall(cfg: Config, s: State, c: nat, step: Step): State
    requires c < |s.calls|
  {
    var call := s.calls[c];
    var lands := step.Land? && call.phase.Leaving? && call.key in s.flight && s.flight[call.key] == c;
    s.(calls := s.calls[c := Stage(cfg, call, step)],
       flight := if lands then s.flight - {call.key} else s.flight,
       accepted := if Accepts(call, step) then s.accepted + {(call.key, step.value)} else s.accepted,
       storage := if Writes(call, step) then s.storage[call.key := call.phase.entry] else s.storage,
       writes := if Writes(call, step) then s.writes + [Write(c, call.key, call.phase.entry)] else s.writes)
  }

  /** A background refresh is done with the result; a cold miss goes on to read it back. */
  function DoReceive(cfg: Config, s: State, w: Caller, call: nat): State
    requires call < |s.calls| && s.calls[call].phase.Landed?
  {
    if s.calls[call].phase.outcome.Err? || w in cfg.background then Rest(s, w)
    else s.(waits := s.waits[w := Reading(call)])
  }

  function Serve(s: State, w: Caller, key: Key, entry: Entry): State {
    Rest(s, w).(served := s.served + {Served(key, entry)})
  }

  /** A step that its caller or its call is not ready for changes nothing. */
  function Next(cfg: Config, s: State, step: Step): State {
    match step
    case Join(w, key) => if WaitOf(s, w).Away? then DoJoin(s, w, key) else s
    case Cancel(w) => if WaitOf(s, w).Waiting? && w !in cfg.background then Rest(s, w) else s
    case Receive(w) =>
      var wait := WaitOf(s, w);
      if wait.Waiting? && wait.call < |s.calls| && s.calls[wait.call].phase.Landed?
      then DoReceive(cfg, s, w, wait.call) else s
    case ReadBack(w) =>
      var wait := WaitOf(s, w);
      if wait.Reading? && wait.call < |s.calls| && s.calls[wait.call].key in s.storage
      then Serve(s, w, s.calls[wait.call].key, s.storage[s.calls[wait.call].key]) else s
    case Rebuild(w, now, ttl, staleTTL) =>
      var wait := WaitOf(s, w);
      if wait.Reading? && wait.call < |s.calls| && s.calls[wait.call].Succeeded() && Sane(now, ttl, staleTTL)
      then
        var call := s.calls[wait.call];
        Serve(s, w, call.key, Entry(call.key, cfg.marshal(call.phase.outcome.raw), Stamp(now, ttl, staleTTL)))
      else s
    case GiveUp(w) => if WaitOf(s, w).Reading? then Rest(s, w) else s
    case Hit(w, key) => if key in s.storage && WaitOf(s, w).Away? then Serve(s, w, key, s.storage[key]) else s
    case Evict(key) => s.(storage := s.storage - {key})
    case _ => if step.c < |s.calls| then NextOfCall(cfg, s, step.c, step) else s
  }

  function Init(cfg: Config): State {
    State([], map[], cfg.initial, map[], {}, [], {})
  }

  function Run(cfg: Config, steps: seq<Step>): State {
    if steps == [] then Init(cfg) else Next(cfg, Run(cfg, steps[..|steps| - 1]), steps[|steps| - 1])
  }

  /** A sequence of steps taken from a given state. */
  function RunFrom(cfg: Config, s: State, steps: seq<Step>): State
    decreases |steps|
  {
    if steps == [] then s else RunFrom(cfg, Next(cfg, s, steps[0]), steps[1..])
  }

  // ---------- One flight per key ----------

  ghost predicate FlightOk(s: State, c: nat)
    requires c < |s.calls|
  {
    s.calls[c].Active() <==> s.calls[c].key in s.flight && s.flight[s.calls[c].key] == c
  }

  ghost predicate LeaderOk(cfg: Config, s: State, c: nat)
    requires c < |s.calls|
  {
    s.calls[c].Active() && s.calls[c].leader in cfg.background ==> WaitOf(s, s.calls[c].leader) == Waiting(c)
  }

  ghost predicate WaitOk(s: State, w: Caller) {
    WaitOf(s, w).Waiting? || WaitOf(s, w).Reading? ==> WaitOf(s, w).call < |s.calls|
  }

  ghost predicate FlightInv(cfg: Config, s: State) {
    && (forall c :: 0 <= c < |s.calls| ==> FlightOk(s, c) && LeaderOk(cfg, s, c))
    && (forall key :: key in s.flight ==> s.flight[key] < |s.calls| && s.calls[s.flight[key]].key == key)
    && (forall w :: WaitOk(s, w))
  }

  predicate IsCallStep(step: Step) {
    step.CallbackGives? || step.CallbackFails? || step.Fail? || step.Transform? || step.Marshal?
    || step.Build? || step.Store? || step.Land?
  }

  /** A stage keeps the call's key and leader, and only Land ends it. */
  lemma StageShape(cfg: Config, call: Call, step: Step)
    ensures var call' := Stage(cfg, call, step);
            && call'.key == call.key && call'.leader == call.leader
            && (call'.Active() <==> call.Active() && !(step.Land? && call.phase.Leaving?))
  {
  }

  /** Seen from its call, a stage is the stage, storage moves only when it writes, and no waiter notices. */
  ghost predicate Staged(cfg: Config, s: State, s': State, step: Step) {
    && IsCallStep(step) && step.c < |s.calls| == |s'.calls|
    && s'.calls[step.c] == Stage(cfg, s.calls[step.c], step)
    && s'.waits == s.waits && s'.served == s.served && (!step.Land? ==> s'.flight == s.flight)
    && s'.storage == if Writes(s.calls[step.c], step)
                     then s.storage[s.calls[step.c].key := s.calls[step.c].phase.entry] else s.storage
  }

  lemma CallStepIsStaged(cfg: Config, s: State, step: Step)
    requires IsCallStep(step) && step.c < |s.calls|
    ensures Staged(cfg, s, Next(cfg, s, step), step)
  {
  }

  lemma CallStepKeepsFlightOk(cfg: Config, s: State, step: Step, c: nat)
    requires FlightInv(cfg, s) && IsCallStep(step) && step.c < |s.calls| && c < |s.calls|
    ensures FlightOk(Next(cfg, s, step), c) && LeaderOk(cfg, Next(cfg, s, step), c)
  {
    StageShape(cfg, s.calls[step.c], step);
    assert FlightOk(s, step.c) && FlightOk(s, c) && LeaderOk(cfg, s, c);
  }

  lemma CallStepKeepsFlightInv(cfg: Config, s: State, step: Step)
    requires FlightInv(cfg, s) && IsCallStep(step) && step.c < |s.calls|
    ensures FlightInv(cfg, Next(cfg, s, step))
  {
    var s' := Next(cfg, s, step);
    StageShape(cfg, s.calls[step.c], step);
    forall c | 0 <= c < |s'.calls|
      ensures FlightOk(s', c) && LeaderOk(cfg, s', c)
    {
      CallStepKeepsFlightOk(cfg, s, step, c);
    }
    forall w ensures WaitOk(s', w) {
      assert WaitOk(s, w);
    }
  }

  lemma JoinKeepsFlightInv(cfg: Config, s: State, w: Caller, key: Key)
    requires FlightInv(cfg, s) && WaitOf(s, w).Away?
    ensures FlightInv(cfg, DoJoin(s, w, key))
  {
    var s' := DoJoin(s, w, key);
    forall c | 0 <= c < |s'.calls|
      ensures FlightOk(s', c) && LeaderOk(cfg, s', c)
    {
      if c < |s.calls| {
        assert FlightOk(s, c) && LeaderOk(cfg, s, c);
      }
    }
    forall u ensures WaitOk(s', u) {
      assert WaitOk(s, u);
    }
  }

  /** What the other steps of waiters have in common: they move one waiter, never a leader in flight. */
  lemma WaiterStepShape(cfg: Config, s: State, step: Step)
    requires !IsCallStep(step) && !step.Join?
    ensures var s' := Next(cfg, s, step);
            && s'.calls == s.calls && s'.flight == s.flight && s'.accepted == s.accepted && s'.writes == s.writes
            && forall w :: WaitOf(s', w) == WaitOf(s, w)
                 || (WaitOf(s', w).Away? && !(WaitOf(s, w).Waiting? && w in cfg.background && !Released(s, w)))
                 || (WaitOf(s, w).Waiting? && Released(s, w) && WaitOf(s', w) == Reading(WaitOf(s, w).call)
                     && s.calls[WaitOf(s, w).call].Succeeded())
  {
  }

  /** The call that w waits for has landed. */
  predicate Released(s: State, w: Caller)
    requires WaitOf(s, w).Waiting?
  {
    WaitOf(s, w).call < |s.calls| && s.calls[WaitOf(s, w).call].phase.Landed?
  }

  lemma NextKeepsFlightInv(cfg: Config, s: State, step: Step)
    requires FlightInv(cfg, s)
    ensures FlightInv(cfg, Next(cfg, s, step))
  {
    var s' := Next(cfg, s, step);
    if IsCallStep(step) {
      if step.c < |s.calls| {
        CallStepKeepsFlightInv(cfg, s, step);
      }
    } else if step.Join? {
      if WaitOf(s, step.w).Away? {
        JoinKeepsFlightInv(cfg, s, step.w, step.key);
      }
    } else {
      WaiterStepShape(cfg, s, step);
      forall c | 0 <= c < |s'.calls|
        ensures FlightOk(s', c) && LeaderOk(cfg, s', c)
      {
        assert FlightOk(s, c) && LeaderOk(cfg, s, c);
      }
      forall w ensures WaitOk(s', w) {
        assert WaitOk(s, w);
      }
    }
  }

  lemma {:induction false} FlightInvHolds(cfg: Config, steps: seq<Step>)
    ensures FlightInv(cfg, Run(cfg, steps))
  {
    if steps != [] {
      FlightInvHolds(cfg, steps[..|steps| - 1]);
      NextKeepsFlightInv(cfg, Run(cfg, steps[..|steps| - 1]), steps[|steps| - 1]);
    }
  }

  /** In every interleaving at most one safeCall per key is under way. */
  lemma {:induction false} OneSafeCallPerKey(cfg: Config, steps: seq<Step>, c: nat, d: nat)
    requires c < |Run(cfg, steps).calls| && d < |Run(cfg, steps).calls|
    requires Run(cfg, steps).calls[c].InSafeCall() && Run(cfg, steps).calls[d].InSafeCall()
    requires Run(cfg, steps).calls[c].key == Run(cfg, steps).calls[d].key
    ensures c == d
  {
    FlightInvHolds(cfg, steps);
    assert FlightOk(Run(cfg, steps), c) && FlightOk(Run(cfg, steps), d);
  }

  // ---------- Where bytes come from ----------

  ghost predicate InOrder(t: Times) {
    t.createdAt <= t.staleAfter <= t.expiresAfter && t.expiresAfter - t.createdAt >= 5000
  }

  /** The value a call works on was accepted for its key, and has been transformed. */
  ghost predicate FromCallback(cfg: Config, accepted: set<(Key, Value)>, call: Call, raw: Value) {
    (call.key, call.value) in accepted && raw == cfg.transform(call.key, call.value) && !call.running
  }

  ghost predicate CallOk(cfg: Config, accepted: set<(Key, Value)>, call: Call) {
    match call.phase
    case Calling => call.running
    case Got(raw) => (call.key, call.value) in accepted && raw == call.value && !call.running
    case Transformed(raw) => FromCallback(cfg, accepted, call, raw)
    case Marshalled(raw, data) => FromCallback(cfg, accepted, call, raw) && data == cfg.marshal(raw)
    case Built(raw, entry) =>
      && FromCallback(cfg, accepted, call, raw)
      && entry.key == call.key && entry.value == cfg.marshal(raw) && InOrder(entry.times)
    case Leaving(outcome) => outcome.Ok? ==> FromCallback(cfg, accepted, call, outcome.raw)
    case Landed(outcome) => outcome.Ok? ==> FromCallback(cfg, accepted, call, outcome.raw)
  }

  /** Initial content, or Marshal(Transform(v)) of a value v that a callback gave for this very key. */
  ghost predicate Genuine(cfg: Config, accepted: set<(Key, Value)>, key: Key, entry: Entry) {
    || (key in cfg.initial && entry == cfg.initial[key])
    || (entry.key == key && InOrder(entry.times)
        && exists v :: (key, v) in accepted && entry.value == cfg.marshal(cfg.transform(key, v)))
  }

  ghost predicate WriteOk(cfg: Config, s: State, w: Write) {
    w.call < |s.calls| && s.calls[w.call].Succeeded() && s.calls[w.call].key == w.key
    && Genuine(cfg, s.accepted, w.key, w.entry)
  }

  function LastWrite(writes: seq<Write>, key: Key): Option<Write> {
    if writes == [] then None
    else if writes[|writes| - 1].key == key then Some(writes[|writes| - 1])
    else LastWrite(writes[..|writes| - 1], key)
  }

  /** The entry of a key is its last successful write, or what was there at the start. */
  ghost predicate StoredOk(cfg: Config, s: State, key: Key)
    requires key in s.storage
  {
    match LastWrite(s.writes, key)
    case Some(write) => s.storage[key] == write.entry
    case None => key in cfg.initial && s.storage[key] == cfg.initial[key]
  }

  ghost predicate CallsOk(cfg: Config, s: State) {
    && (forall c :: 0 <= c < |s.calls| ==> CallOk(cfg, s.accepted, s.calls[c]))
    && (forall i :: 0 <= i < |s.writes| ==> WriteOk(cfg, s, s.writes[i]))
  }

  ghost predicate StorageOk(cfg: Config, s: State) {
    && (forall key :: key in s.storage ==> Genuine(cfg, s.accepted, key, s.storage[key]) && StoredOk(cfg, s, key))
    && (forall x :: x in s.served ==> Genuine(cfg, s.accepted, x.key, x.entry))
  }

  ghost predicate DataInv(cfg: Config, s: State) {
    CallsOk(cfg, s) && StorageOk(cfg, s)
  }

  lemma StageKeepsCallOk(cfg: Config, accepted: set<(Key, Value)>, call: Call, step: Step)
    requires CallOk(cfg, accepted, call)
    ensures CallOk(cfg, if Accepts(call, step) then accepted + {(call.key, step.value)} else accepted,
                   Stage(cfg, call, step))
    ensures call.Succeeded() ==> Stage(cfg, call, step).Succeeded()
    ensures Writes(call, step) ==> Stage(cfg, call, step).Succeeded()
  {
  }

  lemma MoreAccepted(cfg: Config, accepted: set<(Key, Value)>, more: set<(Key, Value)>)
    requires accepted <= more
    ensures forall call :: CallOk(cfg, accepted, call) ==> CallOk(cfg, more, call)
    ensures forall key, entry :: Genuine(cfg, accepted, key, entry) ==> Genuine(cfg, more, key, entry)
  {
  }

  lemma CallStepKeepsCallsOk(cfg: Config, s: State, step: Step)
    requires CallsOk(cfg, s) && IsCallStep(step) && step.c < |s.calls|
    ensures CallsOk(cfg, Next(cfg, s, step))
  {
    var s', call := Next(cfg, s, step), s.calls[step.c];
    assert CallOk(cfg, s.accepted, call);
    StageKeepsCallOk(cfg, s.accepted, call, step);
    StageShape(cfg, call, step);
    MoreAccepted(cfg, s.accepted, s'.accepted);
    forall i | 0 <= i < |s'.writes| ensures WriteOk(cfg, s', s'.writes[i]) {
      if i < |s.writes| {
        assert WriteOk(cfg, s, s.writes[i]);
      }
    }
  }

  lemma CallStepKeepsStorageOk(cfg: Config, s: State, step: Step)
    requires DataInv(cfg, s) && IsCallStep(step) && step.c < |s.calls|
    ensures StorageOk(cfg, Next(cfg, s, step))
  {
  }

  lemma WaiterStepData(cfg: Config, s: State, step: Step)
    requires !IsCallStep(step)
    ensures var s' := Next(cfg, s, step);
            && s'.accepted == s.accepted && s'.writes == s.writes
            && (s'.calls == s.calls
                || (step.Join? && s'.calls == s.calls + [Call(step.key, step.w, Calling, 0, true)]))
            && forall key :: key in s'.storage ==> key in s.storage && s'.storage[key] == s.storage[key]
  {
  }

  lemma {:induction false} WaiterStepKeepsDataInv(cfg: Config, s: State, step: Step)
    requires DataInv(cfg, s) && !IsCallStep(step)
    ensures DataInv(cfg, Next(cfg, s, step))
  {
    var s' := Next(cfg, s, step);
    WaiterStepData(cfg, s, step);
    forall i | 0 <= i < |s'.writes| ensures WriteOk(cfg, s', s'.writes[i]) {
      assert WriteOk(cfg, s, s.writes[i]);
    }
    forall key | key in s'.storage
      ensures Genuine(cfg, s'.accepted, key, s'.storage[key]) && StoredOk(cfg, s', key)
    {
      assert StoredOk(cfg, s, key);
    }
    forall x | x in s'.served ensures Genuine(cfg, s'.accepted, x.key, x.entry) {
      ServedIsGenuine(cfg, s, step, x);
    }
  }

  lemma {:induction false} NextKeepsDataInv(cfg: Config, s: State, step: Step)
    requires DataInv(cfg, s)
    ensures DataInv(cfg, Next(cfg, s, step))
  {
    if !IsCallStep(step) {
      WaiterStepKeepsDataInv(cfg, s, step);
    } else if step.c < |s.calls| {
      CallStepKeepsCallsOk(cfg, s, step);
      CallStepKeepsStorageOk(cfg, s, step);
    }
  }

  lemma ServedIsGenuine(cfg: Config, s: State, step: Step, x: Served)
    requires DataInv(cfg, s) && !IsCallStep(step) && x in Next(cfg, s, step).served
    ensures Genuine(cfg, s.accepted, x.key, x.entry)
  {
  }

  lemma {:induction false} DataInvHolds(cfg: Config, steps: seq<Step>)
    ensures DataInv(cfg, Run(cfg, steps))
  {
    if steps != [] {
      DataInvHolds(cfg, steps[..|steps| - 1]);
      NextKeepsDataInv(cfg, Run(cfg, steps[..|steps| - 1]), steps[|steps| - 1]);
    }
  }

  /**
   Whatever is stored or handed out for a key, on a hit, on the read-back after a refresh or
   rebuilt when storage does not answer, is initial content or the marshalled, transformed
   value of a callback that delivered in time for that key; and its instants are in order.
   */
  lemma {:induction false} EverythingServedIsGenuine(cfg: Config, steps: seq<Step>, key: Key, entry: Entry)
    requires Served(key, entry) in Run(cfg, steps).served
             || (key in Run(cfg, steps).storage && Run(cfg, steps).storage[key] == entry)
    ensures Genuine(cfg, Run(cfg, steps).accepted, key, entry)
  {
    DataInvHolds(cfg, steps);
  }

  /** A call that ends in an error has written nothing, at any time. */
  lemma {:induction false} FailureWritesNothing(cfg: Config, steps: seq<Step>, c: nat, i: nat)
    requires c < |Run(cfg, steps).calls| && Run(cfg, steps).calls[c].Failed()
    requires i < |Run(cfg, steps).writes|
    ensures Run(cfg, steps).writes[i].call != c
  {
    DataInvHolds(cfg, steps);
    assert WriteOk(cfg, Run(cfg, steps), Run(cfg, steps).writes[i]);
  }

  /** Storage holds for each key the last successful write of that key, or its initial entry. */
  lemma {:induction false} StorageIsTheLastWrite(cfg: Config, steps: seq<Step>, key: Key)
    requires key in Run(cfg, steps).storage
    ensures StoredOk(cfg, Run(cfg, steps), key)
  {
    DataInvHolds(cfg, steps);
  }

  // ---------- What a caller reads back ----------

  /** The last write of a key is one of its writes, and none of its writes is later. */
  lemma {:induction false} LastWriteIsLast(writes: seq<Write>, key: Key, i: nat)
    requires i < |writes| && writes[i].key == key
    ensures exists j: nat :: i <= j < |writes| && writes[j].key == key
              && LastWrite(writes, key) == Some(writes[j])
  {
    var last := |writes| - 1;
    if writes[last].key != key {
      LastWriteIsLast(writes[..last], key, i);
      var j: nat :| i <= j < last && writes[..last][j].key == key
                    && LastWrite(writes[..last], key) == Some(writes[..last][j]);
      assert writes[j] == writes[..last][j];
    }
  }

  /**
   If the Set of the refresh a caller waited for succeeded, the entry it reads back is the one
   that refresh wrote or one written later.
   */
  lemma {:induction false} ReadBackIsAtLeastAsNew(cfg: Config, steps: seq<Step>, w: Caller, i: nat)
    requires var s := Run(cfg, steps); WaitOf(s, w).Reading? && i < |s.writes| && s.writes[i].call == WaitOf(s, w).call
    requires Run(cfg, steps).writes[i].key in Run(cfg, steps).storage
    ensures var s := Run(cfg, steps);
            exists j: nat :: i <= j < |s.writes| && s.writes[j].key == s.writes[i].key
              && Next(cfg, s, ReadBack(w)).served == s.served + {Served(s.writes[i].key, s.writes[j].entry)}
  {
    var s := Run(cfg, steps);
    DataInvHolds(cfg, steps);
    var key := s.writes[i].key;
    assert WriteOk(cfg, s, s.writes[i]) && StoredOk(cfg, s, key);
    LastWriteIsLast(s.writes, key, i);
    assert Next(cfg, s, ReadBack(w)).served == s.served + {Served(key, s.storage[key])};
  }

  /** A call under way is the newest one of its key. */
  ghost predicate NewestOk(s: State, c: nat)
    requires c < |s.calls|
  {
    s.calls[c].Active() ==> forall d :: 0 <= d < |s.calls| && s.calls[d].key == s.calls[c].key ==> d <= c
  }

  /** The writes of one key come from ever newer calls. */
  ghost predicate OrderInv(s: State) {
    && (forall c :: 0 <= c < |s.calls| ==> NewestOk(s, c))
    && (forall i, j :: 0 <= i < j < |s.writes| && s.writes[i].key == s.writes[j].key ==>
          s.writes[i].call < s.writes[j].call)
  }

  lemma CallStepKeepsNewest(cfg: Config, s: State, step: Step, c: nat)
    requires IsCallStep(step) && step.c < |s.calls| && c < |s.calls| && NewestOk(s, c)
    ensures NewestOk(Next(cfg, s, step), c)
  {
    StageShape(cfg, s.calls[step.c], step);
  }

  /** The call that writes is under way, so it is newer than the earlier writers of its key. */
  lemma WriterIsNewer(cfg: Config, s: State, step: Step, i: nat)
    requires CallsOk(cfg, s) && IsCallStep(step) && step.c < |s.calls| && NewestOk(s, step.c)
    requires Writes(s.calls[step.c], step) && i < |s.writes| && s.writes[i].key == s.calls[step.c].key
    ensures s.writes[i].call < step.c
  {
    assert WriteOk(cfg, s, s.writes[i]);
  }

  lemma CallStepKeepsOrder(cfg: Config, s: State, step: Step)
    requires OrderInv(s) && CallsOk(cfg, s) && IsCallStep(step) && step.c < |s.calls|
    ensures OrderInv(Next(cfg, s, step))
  {
    var s', call := Next(cfg, s, step), s.calls[step.c];
    forall c | 0 <= c < |s'.calls| ensures NewestOk(s', c) {
      CallStepKeepsNewest(cfg, s, step, c);
    }
    if Writes(call, step) {
      forall i | 0 <= i < |s.writes| && s.writes[i].key == call.key ensures s.writes[i].call < step.c {
        WriterIsNewer(cfg, s, step, i);
      }
    }
  }

  lemma JoinKeepsNewest(cfg: Config, s: State, w: Caller, key: Key)
    requires OrderInv(s) && FlightInv(cfg, s)
    ensures OrderInv(DoJoin(s, w, key))
  {
    var s' := DoJoin(s, w, key);
    forall c | 0 <= c < |s'.calls| ensures NewestOk(s', c) {
      if c < |s.calls| {
        assert NewestOk(s, c) && FlightOk(s, c);
      }
    }
  }

  lemma NextKeepsOrder(cfg: Config, s: State, step: Step)
    requires OrderInv(s) && FlightInv(cfg, s) && CallsOk(cfg, s)
    ensures OrderInv(Next(cfg, s, step))
  {
    if IsCallStep(step) {
      if step.c < |s.calls| {
        CallStepKeepsOrder(cfg, s, step);
      }
    } else if step.Join? {
      JoinKeepsNewest(cfg, s, step.w, step.key);
    } else {
      WaiterStepShape(cfg, s, step);
      forall c | 0 <= c < |s.calls| ensures NewestOk(Next(cfg, s, step), c) {
        assert NewestOk(s, c);
      }
    }
  }

  lemma {:induction false} OrderInvHolds(cfg: Config, steps: seq<Step>)
    ensures OrderInv(Run(cfg, steps))
  {
    if steps != [] {
      OrderInvHolds(cfg, steps[..|steps| - 1]);
      FlightInvHolds(cfg, steps[..|steps| - 1]);
      DataInvHolds(cfg, steps[..|steps| - 1]);
      NextKeepsOrder(cfg, Run(cfg, steps[..|steps| - 1]), steps[|steps| - 1]);
    }
  }

  /** Call c or a later one has written the key. */
  ghost predicate WrittenSince(s: State, key: Key, c: nat) {
    exists i: nat :: i < |s.writes| && s.writes[i].key == key && c <= s.writes[i].call
  }

  lemma {:induction false} LastWriteIsAWrite(writes: seq<Write>, key: Key)
    requires LastWrite(writes, key).Some?
    ensures exists i: nat :: i < |writes| && writes[i] == LastWrite(writes, key).value && writes[i].key == key
  {
    var last := |writes| - 1;
    if writes[last].key != key {
      LastWriteIsAWrite(writes[..last], key);
      var i: nat :| i < last && writes[..last][i] == LastWrite(writes[..last], key).value
                    && writes[..last][i].key == key;
      assert writes[i] == writes[..last][i];
    }
  }

  lemma LastWriteIsTheNewest(s: State, key: Key, c: nat)
    requires OrderInv(s)
    ensures var last := LastWrite(s.writes, key); last.Some? && c <= last.value.call <==> WrittenSince(s, key, c)
  {
    if WrittenSince(s, key, c) {
      var i: nat :| i < |s.writes| && s.writes[i].key == key && c <= s.writes[i].call;
      LastWriteIsLast(s.writes, key, i);
    }
    if LastWrite(s.writes, key).Some? {
      LastWriteIsAWrite(s.writes, key);
    }
  }

  /**
   What a waiter on call c reads back was written by c or a later call exactly when one of
   those has written the key; otherwise it is what an earlier call wrote or the initial entry.
   */
  lemma {:induction false} ReadBackIsNewExactly(cfg: Config, steps: seq<Step>, w: Caller, c: nat, key: Key)
    requires var s := Run(cfg, steps);
             WaitOf(s, w) == Reading(c) && c < |s.calls| && s.calls[c].key == key && key in s.storage
    ensures var s := Run(cfg, steps);
            && Next(cfg, s, ReadBack(w)).served == s.served + {Served(key, s.storage[key])}
            && StoredOk(cfg, s, key)
    ensures var last := LastWrite(Run(cfg, steps).writes, key);
            last.Some? && c <= last.value.call <==> WrittenSince(Run(cfg, steps), key, c)
  {
    var s := Run(cfg, steps);
    DataInvHolds(cfg, steps);
    OrderInvHolds(cfg, steps);
    assert StoredOk(cfg, s, key);
    LastWriteIsTheNewest(s, key, c);
    assert Next(cfg, s, ReadBack(w)) == Serve(s, w, key, s.storage[key]);
  }

  // ---------- Callbacks that outlive their call ----------

  /** The upstream goroutines still at work for a key. */
  ghost predicate Upstream(s: State, c: nat, key: Key) {
    c < |s.calls| && s.calls[c].running && s.calls[c].key == key
  }

  /** The promise of the documentation: one upstream call per key at any time. */
  ghost predicate SingleUpstream(s: State, key: Key) {
    forall c: nat, d: nat :: Upstream(s, c, key) && Upstream(s, d, key) ==> c == d
  }

  /** The callback still runs, although its safeCall has already failed. */
  ghost predicate Abandoned(s: State, c: nat, key: Key) {
    Upstream(s, c, key) && s.calls[c].Failed()
  }

  ghost predicate AnyAbandoned(s: State, key: Key) {
    exists c: nat :: Abandoned(s, c, key)
  }

  /** The step registers a new call of the key and starts its callback. */
  predicate StartsCall(s: State, step: Step, key: Key) {
    step.Join? && step.key == key && WaitOf(s, step.w).Away? && key !in s.flight
  }

  ghost predicate StartsBesideAbandoned(s: State, step: Step, key: Key) {
    StartsCall(s, step, key) && AnyAbandoned(s, key)
  }

  /** The step ends a safeCall of the key while its callback is at work: a time-out or the shutdown. */
  predicate Abandons(s: State, step: Step, key: Key) {
    step.Fail? && step.c < |s.calls| && s.calls[step.c].running && s.calls[step.c].InSafeCall()
    && s.calls[step.c].key == key
  }

  /** A callback at work belongs to the registered call of its key, or it is abandoned. */
  lemma RunningIsRegisteredOrAbandoned(cfg: Config, s: State, c: nat, key: Key)
    requires FlightInv(cfg, s) && CallsOk(cfg, s) && Upstream(s, c, key)
    ensures Abandoned(s, c, key) || (key in s.flight && s.flight[key] == c)
  {
    assert FlightOk(s, c) && CallOk(cfg, s.accepted, s.calls[c]);
  }

  /** Only a new call adds a callback at work, and only Abandons abandons one. */
  lemma UpstreamAfter(cfg: Config, s: State, step: Step, c: nat, key: Key)
    requires CallsOk(cfg, s) && Upstream(Next(cfg, s, step), c, key)
    ensures Upstream(s, c, key) || (StartsCall(s, step, key) && c == |s.calls|)
    ensures Abandoned(Next(cfg, s, step), c, key) ==> Abandoned(s, c, key) || (Abandons(s, step, key) && step.c == c)
  {
    if !IsCallStep(step) {
      WaiterStepData(cfg, s, step);
    } else if step.c < |s.calls| {
      StageShape(cfg, s.calls[step.c], step);
    }
  }

  lemma StartsOneCall(cfg: Config, s: State, step: Step, key: Key)
    requires StartsCall(s, step, key)
    ensures Upstream(Next(cfg, s, step), |s.calls|, key)
    ensures forall c: nat :: Upstream(s, c, key) ==> Upstream(Next(cfg, s, step), c, key)
  {
  }

  /**
   When the promise breaks: a step takes a state that has one upstream call for the key to a
   state with two exactly when it starts a call while an abandoned callback of the key is at work.
   */
  lemma {:induction false} SingleUpstreamAfter(cfg: Config, steps: seq<Step>, step: Step, key: Key)
    requires SingleUpstream(Run(cfg, steps), key)
    ensures var s := Run(cfg, steps);
            SingleUpstream(Next(cfg, s, step), key) <==> !StartsBesideAbandoned(s, step, key)
  {
    var s, s' := Run(cfg, steps), Next(cfg, Run(cfg, steps), step);
    FlightInvHolds(cfg, steps);
    DataInvHolds(cfg, steps);
    if StartsBesideAbandoned(s, step, key) {
      var c: nat :| Abandoned(s, c, key);
      StartsOneCall(cfg, s, step, key);
      assert Upstream(s', c, key) && Upstream(s', |s.calls|, key);
    } else {
      forall c: nat, d: nat | Upstream(s', c, key) && Upstream(s', d, key) ensures c == d {
        SameUpstreamCall(cfg, s, step, c, d, key);
      }
    }
  }

  lemma SameUpstreamCall(cfg: Config, s: State, step: Step, c: nat, d: nat, key: Key)
    requires FlightInv(cfg, s) && CallsOk(cfg, s) && SingleUpstream(s, key)
    requires !StartsBesideAbandoned(s, step, key)
    requires Upstream(Next(cfg, s, step), c, key) && Upstream(Next(cfg, s, step), d, key)
    ensures c == d
  {
    UpstreamAfter(cfg, s, step, c, key);
    UpstreamAfter(cfg, s, step, d, key);
    if StartsCall(s, step, key) {
      forall e: nat | Upstream(s, e, key) ensures false {
        RunningIsRegisteredOrAbandoned(cfg, s, e, key);
      }
    }
  }

  /** At the end of the run and at every point before. */
  ghost predicate AlwaysSingle(cfg: Config, steps: seq<Step>, key: Key) {
    && SingleUpstream(Run(cfg, steps), key)
    && (steps != [] ==> AlwaysSingle(cfg, steps[..|steps| - 1], key))
  }

  /** No step of the run starts a call of the key beside an abandoned callback. */
  ghost predicate StartsClean(cfg: Config, steps: seq<Step>, key: Key) {
    steps != [] ==>
      && !StartsBesideAbandoned(Run(cfg, steps[..|steps| - 1]), steps[|steps| - 1], key)
      && StartsClean(cfg, steps[..|steps| - 1], key)
  }

  /** The exact condition over whole runs. */
  lemma {:induction false} SingleUpstreamExactly(cfg: Config, steps: seq<Step>, key: Key)
    ensures AlwaysSingle(cfg, steps, key) <==> StartsClean(cfg, steps, key)
  {
    if steps != [] {
      var before, step := steps[..|steps| - 1], steps[|steps| - 1];
      SingleUpstreamExactly(cfg, before, key);
      if AlwaysSingle(cfg, before, key) {
        SingleUpstreamAfter(cfg, before, step, key);
      }
    }
  }

  /** No time-out or shutdown of the run hits a call of the key whose callback is still at work. */
  ghost predicate NeverAbandons(cfg: Config, steps: seq<Step>, key: Key) {
    forall i :: 0 <= i < |steps| ==> !Abandons(Run(cfg, steps[..i]), steps[i], key)
  }

  /** As long as callbacks end in time, the documentation is right: one upstream call per key, at every moment. */
  lemma {:induction false} SingleUpstreamWithoutTimeouts(cfg: Config, steps: seq<Step>, key: Key)
    requires NeverAbandons(cfg, steps, key)
    ensures SingleUpstream(Run(cfg, steps), key) && !AnyAbandoned(Run(cfg, steps), key)
  {
    if steps != [] {
      var before, step := steps[..|steps| - 1], steps[|steps| - 1];
      assert forall i :: 0 <= i <= |before| ==> steps[..i] == before[..i];
      assert before[..|before|] == before;
      SingleUpstreamWithoutTimeouts(cfg, before, key);
      SingleUpstreamAfter(cfg, before, step, key);
      DataInvHolds(cfg, before);
      forall c: nat | Abandoned(Run(cfg, steps), c, key) ensures false {
        UpstreamAfter(cfg, Run(cfg, before), step, c, key);
      }
    }
  }

  /** Of two callbacks of one key at work at once, one is abandoned. */
  lemma {:induction false} SecondCallbackNeedsAnAbandonedOne(cfg: Config, steps: seq<Step>, c: nat, d: nat, key: Key)
    requires Upstream(Run(cfg, steps), c, key) && Upstream(Run(cfg, steps), d, key) && c != d
    ensures Run(cfg, steps).calls[c].Failed() || Run(cfg, steps).calls[d].Failed()
  {
    FlightInvHolds(cfg, steps);
    DataInvHolds(cfg, steps);
    RunningIsRegisteredOrAbandoned(cfg, Run(cfg, steps), c, key);
    RunningIsRegisteredOrAbandoned(cfg, Run(cfg, steps), d, key);
  }

  ghost predicate Reachable(cfg: Config, s: State) {
    exists steps :: Run(cfg, steps) == s
  }

  lemma ReachNext(cfg: Config, s: State, step: Step) returns (s': State)
    requires Reachable(cfg, s)
    ensures s' == Next(cfg, s, step) && Reachable(cfg, s')
  {
    var steps :| Run(cfg, steps) == s;
    assert (steps + [step])[..|steps|] == steps;
    s' := Next(cfg, s, step);
    assert Run(cfg, steps + [step]) == s';
  }

  /** And that does happen: the next caller starts a second callback while the first still runs. */
  lemma TwoCallbacksCanRun(cfg: Config, key: Key) returns (s: State)
    ensures Reachable(cfg, s)
    ensures Upstream(s, 0, key) && Upstream(s, 1, key) && s.calls[1].InSafeCall()
  {
    s := Init(cfg);
    assert Run(cfg, []) == s;
    s := ReachNext(cfg, s, Join(0, key));
    s := ReachNext(cfg, s, Fail(0));
    s := ReachNext(cfg, s, Land(0));
    s := ReachNext(cfg, s, Join(1, key));
  }

  // ---------- Callers that cancel ----------

  /** The caller that takes a step, if a caller does. */
  predicate StepsFor(step: Step, w: Caller) {
    !IsCallStep(step) && !step.Evict? && step.w == w
  }

  ghost predicate SameShared(a: State, b: State) {
    && a.calls == b.calls && a.flight == b.flight && a.storage == b.storage
    && a.accepted == b.accepted && a.writes == b.writes && a.served == b.served
  }

  ghost predicate SameButFor(a: State, b: State, w: Caller) {
    SameShared(a, b) && forall u :: u != w ==> WaitOf(a, u) == WaitOf(b, u)
  }

  lemma CallStepsKeepSameButFor(cfg: Config, a: State, b: State, step: Step, w: Caller)
    requires SameButFor(a, b, w) && IsCallStep(step)
    ensures SameButFor(Next(cfg, a, step), Next(cfg, b, step), w)
  {
    forall u | u != w ensures WaitOf(Next(cfg, a, step), u) == WaitOf(Next(cfg, b, step), u) {
      assert WaitOf(a, u) == WaitOf(b, u);
    }
  }

  /** A caller's step to or from singleflight depends on its own wait and on what all share. */
  lemma FlightStepIsLocal(cfg: Config, a: State, b: State, step: Step)
    requires SameShared(a, b) && (step.Join? || step.Cancel? || step.Receive?)
    requires WaitOf(a, step.w) == WaitOf(b, step.w)
    ensures SameShared(Next(cfg, a, step), Next(cfg, b, step))
    ensures WaitOf(Next(cfg, a, step), step.w) == WaitOf(Next(cfg, b, step), step.w)
  {
  }

  /** So does a step that hands out an entry or none. */
  lemma ServingStepIsLocal(cfg: Config, a: State, b: State, step: Step)
    requires SameShared(a, b) && (step.ReadBack? || step.Rebuild? || step.GiveUp? || step.Hit?)
    requires WaitOf(a, step.w) == WaitOf(b, step.w)
    ensures SameShared(Next(cfg, a, step), Next(cfg, b, step))
    ensures WaitOf(Next(cfg, a, step), step.w) == WaitOf(Next(cfg, b, step), step.w)
  {
  }

  lemma OthersWaitOn(cfg: Config, s: State, step: Step, u: Caller)
    requires !IsCallStep(step) && (step.Evict? || step.w != u)
    ensures WaitOf(Next(cfg, s, step), u) == WaitOf(s, u)
  {
  }

  lemma OthersKeepSameButFor(cfg: Config, a: State, b: State, step: Step, w: Caller)
    requires SameButFor(a, b, w) && !StepsFor(step, w) && !IsCallStep(step)
    ensures SameButFor(Next(cfg, a, step), Next(cfg, b, step), w)
  {
    if !step.Evict? {
      if step.Join? || step.Cancel? || step.Receive? {
        FlightStepIsLocal(cfg, a, b, step);
      } else {
        ServingStepIsLocal(cfg, a, b, step);
      }
    }
    forall u | u != w ensures WaitOf(Next(cfg, a, step), u) == WaitOf(Next(cfg, b, step), u) {
      if step.Evict? || step.w != u {
        OthersWaitOn(cfg, a, step, u);
        OthersWaitOn(cfg, b, step, u);
      }
    }
  }

  lemma NextKeepsSameButFor(cfg: Config, a: State, b: State, step: Step, w: Caller)
    requires SameButFor(a, b, w) && !StepsFor(step, w)
    ensures SameButFor(Next(cfg, a, step), Next(cfg, b, step), w)
  {
    if IsCallStep(step) {
      CallStepsKeepSameButFor(cfg, a, b, step, w);
    } else {
      OthersKeepSameButFor(cfg, a, b, step, w);
    }
  }

  lemma {:induction false} OneMoreStep(cfg: Config, steps: seq<Step>, step: Step)
    ensures Run(cfg, steps + [step]) == Next(cfg, Run(cfg, steps), step)
  {
    assert (steps + [step])[..|steps|] == steps;
  }

  /**
   A cancelled wait is invisible to everybody else: the run in which w cancels and leaves has
   the same calls, storage, and answers to the others as the run in which w had stayed.
   */
  lemma {:induction false} CancelIsInvisible(cfg: Config, before: seq<Step>, after: seq<Step>, w: Caller)
    requires forall i :: 0 <= i < |after| ==> !StepsFor(after[i], w)
    ensures SameButFor(Run(cfg, before + [Cancel(w)] + after), Run(cfg, before + after), w)
    decreases |after|
  {
    if after == [] {
      assert before + [Cancel(w)] + after == before + [Cancel(w)] && before + after == before;
      OneMoreStep(cfg, before, Cancel(w));
    } else {
      var rest, last := after[..|after| - 1], after[|after| - 1];
      CancelIsInvisible(cfg, before, rest, w);
      assert before + [Cancel(w)] + after == (before + [Cancel(w)] + rest) + [last];
      assert before + after == (before + rest) + [last];
      OneMoreStep(cfg, before + [Cancel(w)] + rest, last);
      OneMoreStep(cfg, before + rest, last);
      NextKeepsSameButFor(cfg, Run(cfg, before + [Cancel(w)] + rest), Run(cfg, before + rest), last, w);
    }
  }

  // ---------- Callers that stay ----------

  /** Some call of the key is under way. */
  ghost predicate UnderWay(s: State, key: Key) {
    exists c: nat :: c < |s.calls| && s.calls[c].Active() && s.calls[c].key == key
  }

  /** The caller waits for a call of the key. */
  ghost predicate WaitsOn(s: State, w: Caller, key: Key) {
    var wait := WaitOf(s, w);
    wait.Waiting? && wait.call < |s.calls| && s.calls[wait.call].key == key
  }

  /**
   Whoever asks for a key waits for a call of that key that is under way: the one that was
   already there, or else a new one, whose callback is started on the spot.
   */
  lemma {:induction false} JoinAttaches(cfg: Config, steps: seq<Step>, w: Caller, key: Key)
    requires WaitOf(Run(cfg, steps), w).Away?
    ensures var s' := Next(cfg, Run(cfg, steps), Join(w, key));
            WaitsOn(s', w, key) && s'.calls[WaitOf(s', w).call].Active()
    ensures var s, s' := Run(cfg, steps), Next(cfg, Run(cfg, steps), Join(w, key));
            if UnderWay(s, key) then s'.calls == s.calls
            else s'.calls == s.calls + [Call(key, w, Calling, 0, true)]
  {
    var s := Run(cfg, steps);
    FlightInvHolds(cfg, steps);
    if key in s.flight {
      assert FlightOk(s, s.flight[key]);
      assert UnderWay(s, key);
    } else {
      forall c: nat | c < |s.calls| && s.calls[c].key == key ensures !s.calls[c].Active() {
        assert FlightOk(s, c);
      }
    }
  }

  lemma OthersKeepWaitsOn(cfg: Config, s: State, step: Step, w: Caller, key: Key)
    requires WaitsOn(s, w, key) && !StepsFor(step, w)
    ensures WaitsOn(Next(cfg, s, step), w, key) && WaitOf(Next(cfg, s, step), w) == WaitOf(s, w)
  {
    if IsCallStep(step) {
      if step.c < |s.calls| {
        StageShape(cfg, s.calls[step.c], step);
      }
    } else {
      OthersWaitOn(cfg, s, step, w);
      WaiterStepData(cfg, s, step);
    }
  }

  lemma {:induction false} WaiterIsNotLost(cfg: Config, before: seq<Step>, after: seq<Step>, w: Caller, key: Key)
    requires WaitsOn(Run(cfg, before), w, key)
    requires forall i :: 0 <= i < |after| ==> !StepsFor(after[i], w)
    ensures WaitsOn(Run(cfg, before + after), w, key)
    ensures WaitOf(Run(cfg, before + after), w) == WaitOf(Run(cfg, before), w)
    decreases |after|
  {
    if after == [] {
      assert before + after == before;
    } else {
      var rest, last := after[..|after| - 1], after[|after| - 1];
      WaiterIsNotLost(cfg, before, rest, w, key);
      assert before + after == (before + rest) + [last];
      OneMoreStep(cfg, before + rest, last);
      OthersKeepWaitsOn(cfg, Run(cfg, before + rest), last, w, key);
    }
  }

  /** Once its call has landed a cold miss is handed an entry of the key it asked for, or nothing after an error. */
  lemma ReceiveThenRead(cfg: Config, s: State, w: Caller, key: Key)
    requires WaitsOn(s, w, key) && s.calls[WaitOf(s, w).call].phase.Landed? && w !in cfg.background
    ensures var received := Next(cfg, s, Receive(w));
            if s.calls[WaitOf(s, w).call].Failed() then received == Rest(s, w)
            else key in s.storage ==>
              Next(cfg, received, ReadBack(w)) == Rest(s, w).(served := s.served + {Served(key, s.storage[key])})
  {
    var c := WaitOf(s, w).call;
    var received := Next(cfg, s, Receive(w));
    if s.calls[c].Succeeded() {
      assert received == s.(waits := s.waits[w := Reading(c)]);
      if key in s.storage {
        var served := Next(cfg, received, ReadBack(w));
        assert served == Serve(received, w, key, s.storage[key]);
        assert s.waits[w := Reading(c)][w := Away] == s.waits[w := Away];
      }
    }
  }

  /**
   A caller that asks for a key while nothing stops it is never lost, whatever the others do,
   and once its call has landed well it reads an entry of the key it asked for.
   */
  lemma {:induction false} JoinerIsAnswered(cfg: Config, before: seq<Step>, after: seq<Step>, w: Caller, key: Key)
    requires WaitOf(Run(cfg, before), w).Away? && w !in cfg.background
    requires forall i :: 0 <= i < |after| ==> !StepsFor(after[i], w)
    ensures var s := Run(cfg, before + [Join(w, key)] + after);
            && WaitsOn(s, w, key)
            && (s.calls[WaitOf(s, w).call].phase.Landed? && s.calls[WaitOf(s, w).call].Succeeded()
                && key in s.storage ==>
                  Next(cfg, Next(cfg, s, Receive(w)), ReadBack(w))
                  == Rest(s, w).(served := s.served + {Served(key, s.storage[key])}))
  {
    JoinAttaches(cfg, before, w, key);
    OneMoreStep(cfg, before, Join(w, key));
    WaiterIsNotLost(cfg, before + [Join(w, key)], after, w, key);
    var s := Run(cfg, before + [Join(w, key)] + after);
    if s.calls[WaitOf(s, w).call].phase.Landed? {
      ReceiveThenRead(cfg, s, w, key);
    }
  }

  /** A background refresh whose call has landed is done, however it ended, and is handed nothing. */
  lemma BackgroundIsDone(cfg: Config, s: State, w: Caller, key: Key)
    requires WaitsOn(s, w, key) && s.calls[WaitOf(s, w).call].phase.Landed? && w in cfg.background
    ensures Next(cfg, s, Receive(w)) == Rest(s, w)
  {
  }

  /** A callback that has ended is at work no more; if its call had given up on it, nothing else changes. */
  lemma CallbackEnds(cfg: Config, s: State, c: nat, step: Step)
    requires c < |s.calls| && s.calls[c].running && (step == CallbackFails(c) || (step.CallbackGives? && step.c == c))
    ensures !Next(cfg, s, step).calls[c].running
    ensures !s.calls[c].phase.Calling? ==>
              Next(cfg, s, step) == s.(calls := s.calls[c := s.calls[c].(running := false)])
  {
  }

  lemma {:induction false} AwayStaysAway(cfg: Config, before: seq<Step>, after: seq<Step>, w: Caller)
    requires WaitOf(Run(cfg, before), w).Away?
    requires forall i :: 0 <= i < |after| ==> !StepsFor(after[i], w)
    ensures WaitOf(Run(cfg, before + after), w).Away?
    decreases |after|
  {
    if after == [] {
      assert before + after == before;
    } else {
      var rest, last := after[..|after| - 1], after[|after| - 1];
      AwayStaysAway(cfg, before, rest, w);
      assert before + after == (before + rest) + [last];
      OneMoreStep(cfg, before + rest, last);
      if !IsCallStep(last) {
        OthersWaitOn(cfg, Run(cfg, before + rest), last, w);
      }
    }
  }

  /** A waiting caller that cancels waits no more, from then on; a background refresh has nothing to cancel. */
  lemma {:induction false} CancelEndsTheWait(cfg: Config, before: seq<Step>, after: seq<Step>, w: Caller)
    requires WaitOf(Run(cfg, before), w).Waiting?
    requires forall i :: 0 <= i < |after| ==> !StepsFor(after[i], w)
    ensures WaitOf(Run(cfg, before + [Cancel(w)] + after), w).Away? <==> w !in cfg.background
  {
    OneMoreStep(cfg, before, Cancel(w));
    if w !in cfg.background {
      AwayStaysAway(cfg, before + [Cancel(w)], after, w);
    } else {
      var s := Run(cfg, before);
      FlightInvHolds(cfg, before);
      assert WaitOk(s, w) && Next(cfg, s, Cancel(w)) == s;
      WaiterIsNotLost(cfg, before + [Cancel(w)], after, w, s.calls[WaitOf(s, w).call].key);
    }
  }

  /** Once its result has arrived a caller can no longer cancel: the read-back is not tied to its context. */
  lemma OnlyWaitersCancel(cfg: Config, s: State, w: Caller)
    requires !WaitOf(s, w).Waiting?
    ensures Next(cfg, s, Cancel(w)) == s
  {
  }

  /** The call times out, singleflight lets go, and the caller leaves without an entry. */
  function TimeOutAlone(cfg: Config, s: State, w: Caller, c: nat): State {
    Next(cfg, Next(cfg, Next(cfg, Next(cfg, s, Fail(c)), Land(c)), Receive(w)), GiveUp(w))
  }

  /** No callback, however long it takes, can hold a caller: from every point of every run it gets away. */
  lemma {:induction false} EveryWaitCanEnd(cfg: Config, steps: seq<Step>, w: Caller)
    requires !WaitOf(Run(cfg, steps), w).Away?
    ensures WaitOf(TimeOutAlone(cfg, Run(cfg, steps), w, WaitOf(Run(cfg, steps), w).call), w).Away?
  {
    var s := Run(cfg, steps);
    var c := WaitOf(s, w).call;
    FlightInvHolds(cfg, steps);
    assert WaitOk(s, w);
    CallStepIsStaged(cfg, s, Fail(c));
    var failed := Next(cfg, s, Fail(c));
    CallStepIsStaged(cfg, failed, Land(c));
    GetsAway(cfg, Next(cfg, failed, Land(c)), w, c);
  }

  lemma GetsAway(cfg: Config, s: State, w: Caller, c: nat)
    requires c < |s.calls| && s.calls[c].phase.Landed? && (WaitOf(s, w) == Waiting(c) || WaitOf(s, w) == Reading(c))
    ensures WaitOf(Next(cfg, Next(cfg, s, Receive(w)), GiveUp(w)), w).Away?
  {
  }

  /** Storage drops a key and nothing else, whenever it likes. */
  lemma EvictDropsOneKey(cfg: Config, s: State, key: Key)
    ensures var s' := Next(cfg, s, Evict(key));
            && key !in s'.storage
            && (forall k :: k != key ==> (k in s'.storage <==> k in s.storage))
            && (forall k :: k in s'.storage ==> s'.storage[k] == s.storage[k])
            && s' == s.(storage := s'.storage)
  {
  }
}
