/**
 The circuit breaker as a machine over events. A request is an atomic begin, which admits
 or rejects it, and an atomic end, which records its outcome; any number may be between
 the two. The per-key breakers are a bounded table with its order of recent use.
 */
module Breaker {
  import opened Machine

  datatype Config = Config(
    failureThreshold: int, successThreshold: int, timeout: int, maxHalfOpen: int, maxKeys: int)
  {
    predicate Valid() {
      && 0 < failureThreshold <= MAX_INT32 && 0 < successThreshold <= MAX_INT32
      && 0 < timeout && 0 < maxHalfOpen <= MAX_INT32 && 0 < maxKeys
    }

    /** NewCircuitBreaker replaces every setting that is not positive. */
    function WithDefaults(): (c: Config)
      requires failureThreshold <= MAX_INT32 && successThreshold <= MAX_INT32 && maxHalfOpen <= MAX_INT32
      ensures c.Valid()
      ensures if 0 < failureThreshold then c.failureThreshold == failureThreshold else c.failureThreshold == 5
      ensures if 0 < successThreshold then c.successThreshold == successThreshold else c.successThreshold == 2
      ensures if 0 < timeout then c.timeout == timeout else c.timeout == 30 * SECOND
      ensures if 0 < maxHalfOpen then c.maxHalfOpen == maxHalfOpen else c.maxHalfOpen == 3
      ensures if 0 < maxKeys then c.maxKeys == maxKeys else c.maxKeys == 10000
    {
      Config(if failureThreshold <= 0 then 5 else failureThreshold,
             if successThreshold <= 0 then 2 else successThreshold,
             if timeout <= 0 then 30 * SECOND else timeout,
             if maxHalfOpen <= 0 then 3 else maxHalfOpen,
             if maxKeys <= 0 then 10000 else maxKeys)
    }
  }

  datatype Circuit = Closed | Open | HalfOpen

  datatype KeyRecord = KeyRecord(failures: int, lastFailure: int)

  /** The circuit with the counters and the clock stamp that drive it. */
  datatype Core = Core(circuit: Circuit, failures: int, successes: int, lastFailure: int)

  /** `recency` lists the keys of the records, the most recently used one first. */
  datatype KeyTable = KeyTable(records: map<Key, KeyRecord>, recency: seq<Key>)

  const EMPTY := KeyTable(map[], [])

  datatype State = State(core: Core, halfOpen: int, table: KeyTable)

  const INIT := State(Core(Closed, 0, 0, 0), 0, EMPTY)

  // ---------- The per-key table ----------

  function IndexOf(r: seq<Key>, key: Key): (i: nat)
    requires key in r
    ensures i < |r| && r[i] == key
  {
    if r[0] == key then 0 else 1 + IndexOf(r[1..], key)
  }

  function ToFront(r: seq<Key>, key: Key): seq<Key>
    requires key in r
  {
    [key] + r[..IndexOf(r, key)] + r[IndexOf(r, key) + 1..]
  }

  /** A failure of a tracked key counts up; a new key goes to the front and may push out the last. */
  function KeyFailure(c: Config, t: KeyTable, key: Key, now: int): KeyTable {
    if key in t.records && key in t.recency then
      KeyTable(t.records[key := KeyRecord(Inc32(t.records[key].failures), now)], ToFront(t.recency, key))
    else if |t.recency| < c.maxKeys || t.recency == [] then
      KeyTable(t.records[key := KeyRecord(1, now)], [key] + t.recency)
    else
      var last := |t.recency| - 1;
      KeyTable((t.records - {t.recency[last]})[key := KeyRecord(1, now)], [key] + t.recency[..last])
  }

  function ClearFailures(t: KeyTable, key: Key): KeyTable
    requires key in t.records
  {
    t.(records := t.records[key := t.records[key].(failures := 0)])
  }

  function ResetKey(t: KeyTable, key: Key): KeyTable {
    if key in t.records && key in t.recency then ClearFailures(t, key).(recency := ToFront(t.recency, key))
    else t
  }

  // ---------- Requests ----------

  function CanExecute(c: Config, s: Core, now: int): (Core, bool) {
    match s.circuit
    case Closed => (s, true)
    case Open =>
      if now - s.lastFailure > c.timeout then (s.(circuit := HalfOpen, successes := 0), true)
      else (s, false)
    case HalfOpen => (s, true)
  }

  function CanExecuteKey(c: Config, t: KeyTable, key: Key, now: int): (KeyTable, bool) {
    if key in t.records && t.records[key].failures >= c.failureThreshold then
      if now - t.records[key].lastFailure > c.timeout then (ClearFailures(t, key), true)
      else (t, false)
    else (t, true)
  }

  datatype Verdict = CircuitRejects | KeyRejects | SlotRejects | Admitted(slot: bool)

  /** Execute up to the call of the engine. A rejected request may still have moved the breaker. */
  function Begin(c: Config, s: State, key: Key, now: int): (State, Verdict) {
    var (core, ok) := CanExecute(c, s.core, now);
    var s := s.(core := core);
    if !ok then (s, CircuitRejects)
    else
      var (table, ok) := CanExecuteKey(c, s.table, key, now);
      var s := s.(table := table);
      if !ok then (s, KeyRejects)
      else if s.core.circuit.HalfOpen? then
        var current := Inc32(s.halfOpen);
        if current > c.maxHalfOpen then (s.(halfOpen := Dec32(current)), SlotRejects)
        else (s.(halfOpen := current), Admitted(true))
      else (s, Admitted(false))
  }

  function CircuitFailure(c: Config, s: Core, now: int): Core {
    var failures := Inc32(s.failures);
    if s.circuit.Closed? && failures >= c.failureThreshold then Core(Open, failures, s.successes, now)
    else if s.circuit.HalfOpen? then Core(Open, 0, s.successes, now)
    else Core(s.circuit, failures, s.successes, now)
  }

  function CircuitSuccess(c: Config, s: Core): Core {
    match s.circuit
    case HalfOpen =>
      var successes := Inc32(s.successes);
      if successes >= c.successThreshold then s.(circuit := Closed, failures := 0, successes := 0)
      else s.(successes := successes)
    case Closed => s.(failures := 0)
    case Open => s
  }

  function RecordFailure(c: Config, s: State, key: Key, now: int): State {
    s.(core := CircuitFailure(c, s.core, now), table := KeyFailure(c, s.table, key, now))
  }

  function RecordSuccess(c: Config, s: State, key: Key): State {
    s.(core := CircuitSuccess(c, s.core), table := ResetKey(s.table, key))
  }

  /** Execute after the call of the engine; `slot` says whether the request holds a probe slot. */
  function End(c: Config, s: State, key: Key, now: int, ok: bool, slot: bool): State {
    var s := if ok then RecordSuccess(c, s, key) else RecordFailure(c, s, key, now);
    if slot then s.(halfOpen := Dec32(s.halfOpen)) else s
  }

  function Reset(s: State): State {
    State(Core(Closed, 0, 0, s.core.lastFailure), 0, EMPTY)
  }

  // ---------- Runs ----------

  datatype Event =
    | BeginEvent(key: Key, now: int)
    | EndEvent(key: Key, now: int, ok: bool, slot: bool)
    | ResetEvent(now: int)
  {
    predicate Fails() { EndEvent? && !ok }
    predicate Succeeds() { EndEvent? && ok }
  }

  type History = seq<Event>

  ghost predicate Ordered(h: History) {
    forall i, j :: 0 <= i < j < |h| ==> h[i].now <= h[j].now
  }

  function Next(c: Config, s: State, e: Event): State {
    match e
    case BeginEvent(key, now) => Begin(c, s, key, now).0
    case EndEvent(key, now, ok, slot) => End(c, s, key, now, ok, slot)
    case ResetEvent(_) => Reset(s)
  }

  function Run(c: Config, h: History): State {
    if h == [] then INIT else Next(c, Run(c, h[..|h| - 1]), h[|h| - 1])
  }

  function NextCore(c: Config, s: Core, e: Event): Core {
    match e
    case BeginEvent(_, now) => CanExecute(c, s, now).0
    case EndEvent(_, now, ok, _) => if ok then CircuitSuccess(c, s) else CircuitFailure(c, s, now)
    case ResetEvent(_) => Core(Closed, 0, 0, s.lastFailure)
  }

  /** The circuit's own run: keys and probe slots decide who is admitted but never move it. */
  function CoreRun(c: Config, h: History): Core {
    if h == [] then INIT.core else NextCore(c, CoreRun(c, h[..|h| - 1]), h[|h| - 1])
  }

  lemma {:induction false} CoreOfRun(c: Config, h: History)
    ensures Run(c, h).core == CoreRun(c, h)
  {
    if h != [] {
      CoreOfRun(c, h[..|h| - 1]);
    }
  }

  function CircuitAfter(c: Config, h: History): Circuit {
    CoreRun(c, h).circuit
  }

  lemma CoreRunSnoc(c: Config, h: History, e: Event)
    ensures CoreRun(c, h + [e]) == NextCore(c, CoreRun(c, h), e)
  {
  }

  // ---------- The closed circuit ----------

  /** The failures recorded from event i on. */
  function Failures(h: History, i: nat): nat {
    if |h| <= i then 0 else Failures(h[..|h| - 1], i) + if h[|h| - 1].Fails() then 1 else 0
  }

  function Successes(h: History, i: nat): nat {
    if |h| <= i then 0 else Successes(h[..|h| - 1], i) + if h[|h| - 1].Succeeds() then 1 else 0
  }

  /** A request succeeded or the breaker was reset: the count of failures starts afresh. */
  predicate Clears(e: Event) {
    e.Succeeds() || e.ResetEvent?
  }

  ghost predicate StaysIn(c: Config, h: History, i: nat, circuit: Circuit) {
    forall j :: i <= j <= |h| ==> CircuitAfter(c, h[..j]) == circuit
  }

  /** From event i on the circuit was closed and nothing cleared it, and i is as early as can be. */
  ghost predicate ClosedSpan(c: Config, h: History, i: nat) {
    && i <= |h| && StaysIn(c, h, i, Closed)
    && (forall j :: i <= j < |h| ==> !Clears(h[j]))
    && (i > 0 ==> CircuitAfter(c, h[..i - 1]) != Closed || Clears(h[i - 1]))
  }

  lemma ClosedSpanIsUnique(c: Config, h: History, i: nat, j: nat)
    requires ClosedSpan(c, h, i) && ClosedSpan(c, h, j)
    ensures i == j
  {
  }

  lemma SpanGrows(c: Config, h: History, i: nat, circuit: Circuit)
    requires h != [] && i < |h| && StaysIn(c, h[..|h| - 1], i, circuit)
    requires CircuitAfter(c, h) == circuit
    ensures StaysIn(c, h, i, circuit)
  {
    var h' := h[..|h| - 1];
    forall j | i <= j <= |h|
      ensures CircuitAfter(c, h[..j]) == circuit
    {
      if j < |h| {
        assert h[..j] == h'[..j];
      } else {
        assert h[..j] == h;
      }
    }
  }

  /**
   While the circuit is closed, its counter is the number of failures recorded since it was
   closed or last saw a success, and is below the threshold.
   */
  lemma {:induction false} ClosedCountsItsFailures(c: Config, h: History) returns (i: nat)
    requires c.Valid() && CircuitAfter(c, h).Closed?
    ensures ClosedSpan(c, h, i)
    ensures CoreRun(c, h).failures == Failures(h, i) < c.failureThreshold
  {
    if h == [] {
      return 0;
    }
    var h', e := h[..|h| - 1], h[|h| - 1];
    if CircuitAfter(c, h').Closed? && !Clears(e) {
      i := ClosedCountsItsFailures(c, h');
      SpanGrows(c, h, i, Closed);
      assert i > 0 ==> h[..i - 1] == h'[..i - 1];
    } else {
      i := |h|;
      assert h[..|h|] == h;
    }
  }

  lemma {:induction false} ClosedHasNoSuccesses(c: Config, h: History)
    requires c.Valid() && CircuitAfter(c, h).Closed?
    ensures CoreRun(c, h).successes == 0
  {
    if h != [] && CircuitAfter(c, h[..|h| - 1]).Closed? {
      ClosedHasNoSuccesses(c, h[..|h| - 1]);
    }
  }

  /** A closed circuit opens on one event only: the failure that completes the threshold. */
  lemma {:induction false} OpensExactlyAtTheThreshold(c: Config, h: History, i: nat, e: Event)
    requires c.Valid() && CircuitAfter(c, h).Closed? && ClosedSpan(c, h, i)
    ensures CircuitAfter(c, h + [e]) != Closed <==> e.Fails() && Failures(h, i) + 1 == c.failureThreshold
    ensures CircuitAfter(c, h + [e]) != Closed ==> CircuitAfter(c, h + [e]) == Open
  {
    CoreRunSnoc(c, h, e);
    var k := ClosedCountsItsFailures(c, h);
    ClosedSpanIsUnique(c, h, i, k);
  }

  // ---------- The half-open circuit ----------

  /** The circuit became half-open with event i - 1 and has been so since. */
  ghost predicate HalfOpenSpan(c: Config, h: History, i: nat) {
    0 < i <= |h| && StaysIn(c, h, i, HalfOpen) && CircuitAfter(c, h[..i - 1]) != HalfOpen
  }

  lemma {:induction false} HalfOpenCountsItsSuccesses(c: Config, h: History) returns (i: nat)
    requires c.Valid() && CircuitAfter(c, h).HalfOpen?
    ensures HalfOpenSpan(c, h, i)
    ensures Failures(h, i) == 0
    ensures CoreRun(c, h).successes == Successes(h, i) < c.successThreshold
  {
    var h', e := h[..|h| - 1], h[|h| - 1];
    if CircuitAfter(c, h').HalfOpen? {
      i := HalfOpenCountsItsSuccesses(c, h');
      SpanGrows(c, h, i, HalfOpen);
      assert h[..i - 1] == h'[..i - 1];
    } else {
      i := |h|;
      assert h[..|h|] == h;
    }
  }

  lemma HalfOpenSpanIsUnique(c: Config, h: History, i: nat, j: nat)
    requires HalfOpenSpan(c, h, i) && HalfOpenSpan(c, h, j)
    ensures i == j
  {
  }

  /**
   A half-open circuit closes on the success that completes the threshold, all successes
   counted since it became half-open with no failure among them; any failure opens it.
   */
  lemma {:induction false} ClosesExactlyAtTheThreshold(c: Config, h: History, i: nat, e: Event)
    requires c.Valid() && CircuitAfter(c, h).HalfOpen? && HalfOpenSpan(c, h, i)
    ensures CircuitAfter(c, h + [e]) == Closed <==>
              e.ResetEvent? || (e.Succeeds() && Successes(h, i) + 1 == c.successThreshold)
    ensures CircuitAfter(c, h + [e]) == Open <==> e.Fails()
    ensures e.Fails() ==> CoreRun(c, h + [e]).failures == 0 && CoreRun(c, h + [e]).lastFailure == e.now
  {
    CoreRunSnoc(c, h, e);
    var k := HalfOpenCountsItsSuccesses(c, h);
    HalfOpenSpanIsUnique(c, h, i, k);
  }

  // ---------- The cool-down ----------

  lemma {:induction false} LastFailureIsTheLatest(c: Config, h: History)
    requires Ordered(h)
    ensures forall i :: 0 <= i < |h| && h[i].Fails() ==> h[i].now <= CoreRun(c, h).lastFailure
  {
    if h != [] {
      LastFailureIsTheLatest(c, h[..|h| - 1]);
    }
  }

  lemma {:induction false} HalfOpenHasCooledDown(c: Config, h: History)
    requires Ordered(h) && CircuitAfter(c, h).HalfOpen?
    ensures h[|h| - 1].now - CoreRun(c, h).lastFailure > c.timeout
  {
    var h', e := h[..|h| - 1], h[|h| - 1];
    if CircuitAfter(c, h').HalfOpen? {
      HalfOpenHasCooledDown(c, h');
    }
  }

  /** A circuit that is not closed admits nothing until every recorded failure is more than timeout ago. */
  lemma {:induction false} AdmissionNeedsCoolDown(c: Config, h: History, key: Key, now: int)
    requires Ordered(h) && (forall i :: 0 <= i < |h| ==> h[i].now <= now)
    requires Run(c, h).core.circuit != Closed && Begin(c, Run(c, h), key, now).1.Admitted?
    ensures forall i :: 0 <= i < |h| && h[i].Fails() ==> now - h[i].now > c.timeout
  {
    CoreOfRun(c, h);
    LastFailureIsTheLatest(c, h);
    if CircuitAfter(c, h).HalfOpen? {
      HalfOpenHasCooledDown(c, h);
    }
  }

  lemma {:induction false} OpenDatesFromAFailure(c: Config, h: History) returns (i: nat)
    requires CircuitAfter(c, h).Open?
    ensures i < |h| && h[i].Fails() && h[i].now == CoreRun(c, h).lastFailure
  {
    var h', e := h[..|h| - 1], h[|h| - 1];
    if e.Fails() {
      i := |h| - 1;
    } else {
      i := OpenDatesFromAFailure(c, h');
    }
  }

  /** The circuit turns a request away exactly when it is open and some failure is no more than timeout ago. */
  lemma CircuitRejectionIsDeserved(c: Config, h: History, key: Key, now: int)
    requires Ordered(h)
    ensures Begin(c, Run(c, h), key, now).1.CircuitRejects? <==>
              Run(c, h).core.circuit.Open? && exists i :: 0 <= i < |h| && h[i].Fails() && now - h[i].now <= c.timeout
  {
    CoreOfRun(c, h);
    LastFailureIsTheLatest(c, h);
    if Run(c, h).core.circuit.Open? {
      var i := OpenDatesFromAFailure(c, h);
      assert h[i].Fails();
    }
  }

  /** Failure f lies before i, where the circuit is open: at j it is open still, or f is more than timeout ago. */
  lemma {:induction false} StaysShut(c: Config, h: History, f: nat, i: nat, j: nat)
    requires Ordered(h) && f < i <= j <= |h| && h[f].Fails()
    requires CircuitAfter(c, h[..i]).Open?
    requires forall x :: i <= x < j ==> !h[x].ResetEvent?
    ensures (CircuitAfter(c, h[..j]).Open? && h[f].now <= CoreRun(c, h[..j]).lastFailure)
            || (i < j && h[j - 1].now - h[f].now > c.timeout)
    decreases j
  {
    if i == j {
      LastFailureIsTheLatest(c, h[..i]);
      assert h[..i][f] == h[f];
    } else {
      StaysShut(c, h, f, i, j - 1);
      assert h[..j][..j - 1] == h[..j - 1];
      assert h[f].now <= h[j - 1].now;
    }
  }

  /**
   Once the circuit is open, and as long as nobody resets it, every request admitted at any
   later point comes strictly more than timeout after each failure recorded before it opened.
   */
  lemma {:induction false} NoAdmissionBeforeTimeout(c: Config, h: History, f: nat, i: nat, j: nat)
    requires Ordered(h) && f < i <= j < |h| && h[f].Fails() && h[j].BeginEvent?
    requires CircuitAfter(c, h[..i]).Open?
    requires forall x :: i <= x < j ==> !h[x].ResetEvent?
    requires Begin(c, Run(c, h[..j]), h[j].key, h[j].now).1.Admitted?
    ensures h[j].now - h[f].now > c.timeout
  {
    StaysShut(c, h, f, i, j);
    CoreOfRun(c, h[..j]);
  }

  // ---------- Probe slots ----------

  /** What a step adds to the slots that requests hold; an end says whether its request held one. */
  function SlotChange(c: Config, s: State, e: Event): int {
    match e
    case BeginEvent(key, now) => if Begin(c, s, key, now).1 == Admitted(true) then 1 else 0
    case EndEvent(_, _, _, slot) => if slot then -1 else 0
    case ResetEvent(_) => 0
  }

  /** The probe slots held by requests that have begun and not ended. */
  function SlotsTaken(c: Config, h: History): int {
    if h == [] then 0
    else SlotsTaken(c, h[..|h| - 1]) + SlotChange(c, Run(c, h[..|h| - 1]), h[|h| - 1])
  }

  /** The slots that were taken when the breaker was last reset. */
  function SlotsForgotten(c: Config, h: History): int {
    if h == [] then 0
    else if h[|h| - 1].ResetEvent? then SlotsTaken(c, h[..|h| - 1])
    else SlotsForgotten(c, h[..|h| - 1])
  }

  /** Ends give back no slot that was not taken, and there are fewer than 2^31 goroutines. */
  ghost predicate SlotsMatch(c: Config, h: History) {
    && 0 <= SlotsTaken(c, h) < MAX_INT32
    && (h != [] ==> SlotsMatch(c, h[..|h| - 1]))
  }

  lemma {:induction false} ForgottenInRange(c: Config, h: History)
    requires SlotsMatch(c, h)
    ensures 0 <= SlotsForgotten(c, h) < MAX_INT32
  {
    if h != [] && !h[|h| - 1].ResetEvent? {
      ForgottenInRange(c, h[..|h| - 1]);
    }
  }

  lemma NextCountsSlots(c: Config, s: State, e: Event)
    requires MIN_INT32 < s.halfOpen < MAX_INT32 && !e.ResetEvent?
    ensures Next(c, s, e).halfOpen == s.halfOpen + SlotChange(c, s, e)
    ensures SlotChange(c, s, e) == 1 ==> s.halfOpen < c.maxHalfOpen
  {
  }

  /**
   The probe counter in every run, with the circuit deciding who is counted: it is the slots
   taken less those that were taken at the last Reset, so at most that many more than
   maxHalfOpen are taken.
   */
  lemma {:induction false} ResetRaisesTheCap(c: Config, h: History)
    requires c.Valid() && SlotsMatch(c, h)
    ensures Run(c, h).halfOpen == SlotsTaken(c, h) - SlotsForgotten(c, h) <= c.maxHalfOpen
  {
    if h != [] {
      var h', e := h[..|h| - 1], h[|h| - 1];
      ResetRaisesTheCap(c, h');
      ForgottenInRange(c, h');
      if !e.ResetEvent? {
        NextCountsSlots(c, Run(c, h'), e);
      }
    }
  }

  /** A half-open circuit refuses a slot exactly when all are taken, those forgotten not counted. */
  lemma {:induction false} SlotRejectionIsDeserved(c: Config, h: History, key: Key, now: int)
    requires c.Valid() && SlotsMatch(c, h)
    ensures var s := Run(c, h);
            Begin(c, s, key, now).1.SlotRejects? <==>
              && CanExecute(c, s.core, now).0.circuit.HalfOpen? && CanExecute(c, s.core, now).1
              && CanExecuteKey(c, s.table, key, now).1
              && SlotsTaken(c, h) >= c.maxHalfOpen + SlotsForgotten(c, h)
  {
    ResetRaisesTheCap(c, h);
    ForgottenInRange(c, h);
  }

  /** Nothing of the history lies after an instant. */
  ghost predicate OrderedBy(h: History, now: int) {
    Ordered(h) && forall i :: 0 <= i < |h| ==> h[i].now <= now
  }

  lemma Extend(c: Config, h: History, e: Event) returns (h': History)
    requires SlotsMatch(c, h) && OrderedBy(h, e.now)
    requires 0 <= SlotsTaken(c, h) + SlotChange(c, Run(c, h), e) < MAX_INT32
    ensures SlotsMatch(c, h') && OrderedBy(h', e.now)
    ensures Run(c, h') == Next(c, Run(c, h), e)
    ensures SlotsTaken(c, h') == SlotsTaken(c, h) + SlotChange(c, Run(c, h), e)
  {
    h' := h + [e];
    assert h'[..|h|] == h;
  }

  /** A failure opens the circuit, and after the timeout a request takes the only slot. */
  lemma OneProbe(c: Config, key: Key, other: Key) returns (h: History)
    requires c == Config(1, 1, 1, 1, 10) && key != other
    ensures SlotsMatch(c, h) && SlotsTaken(c, h) == 1 && OrderedBy(h, 3)
    ensures Run(c, h).core == Core(HalfOpen, 1, 0, 1)
  {
    h := Extend(c, [], BeginEvent(key, 1));
    h := Extend(c, h, EndEvent(key, 1, false, false));
    h := Extend(c, h, BeginEvent(other, 3));
  }

  /** A Reset comes under that request, which then ends: the counter is at minus one. */
  lemma OneForgotten(c: Config, key: Key, other: Key) returns (h: History)
    requires c == Config(1, 1, 1, 1, 10) && key != other
    ensures SlotsMatch(c, h) && SlotsTaken(c, h) == 0 && OrderedBy(h, 3)
    ensures Run(c, h) == State(Core(Closed, 0, 0, 1), -1, EMPTY)
  {
    h := OneProbe(c, key, other);
    h := Extend(c, h, ResetEvent(3));
    h := Extend(c, h, EndEvent(other, 3, true, true));
  }

  /** The next failure opens the circuit again. */
  lemma Reopened(c: Config, key: Key, other: Key) returns (h: History)
    requires c == Config(1, 1, 1, 1, 10) && key != other
    ensures SlotsMatch(c, h) && SlotsTaken(c, h) == 0 && OrderedBy(h, 3)
    ensures var s := Run(c, h); s.core == Core(Open, 1, 0, 3) && s.halfOpen == -1 && other !in s.table.records
  {
    h := OneForgotten(c, key, other);
    h := Extend(c, h, BeginEvent(key, 3));
    h := Extend(c, h, EndEvent(key, 3, false, false));
  }

  /** With one slot, the circuit reopens, cools down, and lets two probes in at once. */
  lemma TwoProbesOnOneSlot(key: Key, other: Key) returns (c: Config, h: History)
    requires key != other
    ensures c.Valid() && c.maxHalfOpen == 1 && Ordered(h) && SlotsMatch(c, h)
    ensures Run(c, h).core.circuit.HalfOpen? && SlotsTaken(c, h) == 2
  {
    c := Config(1, 1, 1, 1, 10);
    h := Reopened(c, key, other);
    var e := BeginEvent(other, 5);
    assert Begin(c, Run(c, h), other, 5).1 == Admitted(true);
    h := Extend(c, h, e);
    assert Run(c, h).halfOpen == 0 && Run(c, h).core.circuit.HalfOpen? && other !in Run(c, h).table.records;
    h := Extend(c, h, e);
  }

  // ---------- Per-key rejections ----------

  /** The recorded outcomes of one key, oldest first. */
  function Outcomes(h: History, key: Key): seq<Event> {
    if h == [] then []
    else Outcomes(h[..|h| - 1], key)
         + if h[|h| - 1].EndEvent? && h[|h| - 1].key == key then [h[|h| - 1]] else []
  }

  /** The last n of these outcomes are there and are all failures. */
  ghost predicate LastAllFail(o: seq<Event>, n: int) {
    n <= |o| && forall i :: 0 <= i < |o| && |o| - n <= i ==> o[i].Fails()
  }

  /** A key's record never counts more than its unbroken run of failures, and is dated by the last one. */
  ghost predicate RecordOk(o: seq<Event>, r: KeyRecord) {
    && LastAllFail(o, r.failures)
    && (0 < r.failures ==> r.lastFailure == o[|o| - 1].now)
  }

  ghost predicate RecordsOk(h: History, t: KeyTable) {
    forall key :: key in t.records ==> RecordOk(Outcomes(h, key), t.records[key])
  }

  /** The ways an event can change the key table. */
  lemma TableStep(c: Config, s: State, e: Event)
    ensures var t, t' := s.table, Next(c, s, e).table;
            match e
            case BeginEvent(key, now) => t' == t || (key in t.records && t' == ClearFailures(t, key))
            case EndEvent(key, now, ok, _) => t' == if ok then ResetKey(t, key) else KeyFailure(c, t, key, now)
            case ResetEvent(_) => t' == EMPTY
  {
  }

  /** One more outcome, or none, of a key: its record stays truthful. */
  lemma OutcomesSnoc(h: History, e: Event, key: Key)
    ensures Outcomes(h + [e], key) == Outcomes(h, key) + if e.EndEvent? && e.key == key then [e] else []
  {
  }

  lemma FailureExtendsRecord(o: seq<Event>, t: KeyTable, e: Event)
    requires e.Fails()
    requires e.key in t.records ==> RecordOk(o, t.records[e.key])
    ensures RecordOk(o + [e], KeyRecord(1, e.now))
    ensures e.key in t.records ==> RecordOk(o + [e], KeyRecord(Inc32(t.records[e.key].failures), e.now))
  {
  }

  /** What one event can do to one key's record. */
  ghost predicate Evolves(t: KeyTable, t': KeyTable, e: Event, key: Key) {
    key in t'.records ==>
      if e.Fails() && e.key == key then
        t'.records[key] == KeyRecord(if key in t.records then Inc32(t.records[key].failures) else 1, e.now)
      else
        && key in t.records
        && (t'.records[key] == t.records[key] || t'.records[key].failures == 0)
        && (e.EndEvent? && e.key == key ==> t'.records[key].failures == 0)
  }

  lemma TableEvolves(c: Config, s: State, e: Event, key: Key)
    requires forall k :: k in s.table.records ==> k in s.table.recency
    ensures Evolves(s.table, Next(c, s, e).table, e, key)
  {
  }

  lemma RecordStep(h: History, t: KeyTable, t': KeyTable, e: Event, key: Key)
    requires RecordsOk(h, t) && key in t'.records && Evolves(t, t', e, key)
    ensures RecordOk(Outcomes(h + [e], key), t'.records[key])
  {
    OutcomesSnoc(h, e, key);
    var o := Outcomes(h, key);
    assert key in t.records ==> RecordOk(o, t.records[key]);
    if e.Fails() && e.key == key {
      FailureExtendsRecord(o, t, e);
    } else if !(e.EndEvent? && e.key == key) {
      assert o + [] == o;
    }
  }

  lemma {:induction false} RecordsAreOk(c: Config, h: History)
    requires c.Valid()
    ensures RecordsOk(h, Run(c, h).table)
  {
    if h != [] {
      var h', e := h[..|h| - 1], h[|h| - 1];
      RecordsAreOk(c, h');
      RecencyIsOk(c, h');
      assert h' + [e] == h;
      forall key | key in Run(c, h).table.records
        ensures RecordOk(Outcomes(h, key), Run(c, h).table.records[key])
      {
        TableEvolves(c, Run(c, h'), e, key);
        RecordStep(h', Run(c, h').table, Run(c, h).table, e, key);
      }
    }
  }

  lemma KeyRejection(c: Config, s: State, key: Key, now: int)
    requires Begin(c, s, key, now).1.KeyRejects?
    ensures key in s.table.records && s.table.records[key].failures >= c.failureThreshold
    ensures now - s.table.records[key].lastFailure <= c.timeout
  {
  }

  /**
   A request turned away by its key finds that key's latest outcomes all failures, at least
   failureThreshold of them, the last one no more than timeout ago.
   */
  lemma {:induction false} KeyRejectionIsDeserved(c: Config, h: History, key: Key, now: int)
    requires c.Valid()
    requires Begin(c, Run(c, h), key, now).1.KeyRejects?
    ensures var o := Outcomes(h, key);
            && LastAllFail(o, c.failureThreshold)
            && c.failureThreshold <= |o| && now - o[|o| - 1].now <= c.timeout
  {
    RecordsAreOk(c, h);
    KeyRejection(c, Run(c, h), key, now);
    RecordAtThreshold(c, h, Run(c, h).table, key);
  }

  lemma RecordAtThreshold(c: Config, h: History, t: KeyTable, key: Key)
    requires c.Valid() && RecordsOk(h, t) && key in t.records && t.records[key].failures >= c.failureThreshold
    ensures var o := Outcomes(h, key);
            && LastAllFail(o, c.failureThreshold) && c.failureThreshold <= |o|
            && o[|o| - 1].now == t.records[key].lastFailure
  {
  }

  /** The failures of one key recorded from event i on. */
  function KeyFailures(h: History, i: nat, key: Key): nat {
    if |h| <= i then 0
    else KeyFailures(h[..|h| - 1], i, key) + if h[|h| - 1].Fails() && h[|h| - 1].key == key then 1 else 0
  }

  /** From event i on the key was tracked, saw no success, and no request of it came after a cool-down. */
  ghost predicate Troubled(c: Config, h: History, i: nat, key: Key) {
    && i <= |h|
    && (forall j :: i <= j <= |h| ==> key in Run(c, h[..j]).table.records)
    && (forall j :: i <= j < |h| && h[j].Succeeds() ==> h[j].key != key)
    && (forall j :: i <= j < |h| && h[j].BeginEvent? && h[j].key == key ==>
          h[j].now - Run(c, h[..j]).table.records[key].lastFailure <= c.timeout)
  }

  lemma TroubledBefore(c: Config, h: History, i: nat, key: Key)
    requires Troubled(c, h, i, key) && i < |h|
    ensures var h', e := h[..|h| - 1], h[|h| - 1];
            && Troubled(c, h', i, key) && h'[..i] == h[..i]
            && key in Run(c, h').table.records && key in Run(c, h).table.records
            && (e.Succeeds() ==> e.key != key)
            && (e.BeginEvent? && e.key == key ==> e.now - Run(c, h').table.records[key].lastFailure <= c.timeout)
  {
    var h' := h[..|h| - 1];
    assert forall j :: 0 <= j <= |h'| ==> h[..j] == h'[..j];
    assert h'[..|h'|] == h' && h[..|h|] == h;
  }

  /** Over such a stretch the key's breaker counts every failure, so the threshold is reached in time. */
  lemma {:induction false} KeyCountsEveryFailure(c: Config, h: History, i: nat, key: Key)
    requires c.Valid() && Troubled(c, h, i, key)
    requires 0 <= Run(c, h[..i]).table.records[key].failures
    requires Run(c, h[..i]).table.records[key].failures + KeyFailures(h, i, key) <= MAX_INT32
    ensures key in Run(c, h).table.records
    ensures Run(c, h).table.records[key].failures
            == Run(c, h[..i]).table.records[key].failures + KeyFailures(h, i, key)
  {
    assert h[..|h|] == h;
    if i < |h| {
      var h', e := h[..|h| - 1], h[|h| - 1];
      TroubledBefore(c, h, i, key);
      KeyCountsEveryFailure(c, h', i, key);
      RecencyIsOk(c, h');
      TroubledStep(c, Run(c, h'), e, key);
    }
  }

  lemma TroubledStep(c: Config, s: State, e: Event, key: Key)
    requires key in s.table.records && key in Next(c, s, e).table.records
    requires forall k :: k in s.table.records ==> k in s.table.recency
    requires e.Succeeds() ==> e.key != key
    requires e.BeginEvent? && e.key == key ==> e.now - s.table.records[key].lastFailure <= c.timeout
    requires 0 <= s.table.records[key].failures < MAX_INT32 || !e.Fails() || e.key != key
    ensures Next(c, s, e).table.records[key].failures
            == s.table.records[key].failures + if e.Fails() && e.key == key then 1 else 0
  {
    TableStep(c, s, e);
  }

  // ---------- Exactly when a key is turned away ----------

  /** The instant of the key's latest recorded outcome. */
  function LastOutcomeTime(h: History, key: Key): int {
    var o := Outcomes(h, key);
    if o == [] then 0 else o[|o| - 1].now
  }

  /** The request comes through the circuit more than timeout after the key's latest outcome. */
  predicate ComesLate(c: Config, h: History, e: Event, key: Key) {
    e.BeginEvent? && e.key == key && !Begin(c, Run(c, h), key, e.now).1.CircuitRejects?
    && e.now - LastOutcomeTime(h, key) > c.timeout
  }

  /**
   The failures that count against a key: those since it was first heard of, since its last
   success, or since a request of it came late with the threshold reached. It is read off the
   outcomes; of the table it uses only which keys are tracked.
   */
  function KeyCount(c: Config, h: History, key: Key): nat {
    if h == [] || key !in Run(c, h).table.records then 0
    else
      var h', e := h[..|h| - 1], h[|h| - 1];
      var n := KeyCount(c, h', key);
      if e.Fails() && e.key == key then n + 1
      else if e.Succeeds() && e.key == key then 0
      else if n >= c.failureThreshold && ComesLate(c, h', e, key) then 0
      else n
  }

  /** The count never leaves 32 bits. */
  ghost predicate KeyCountFits(c: Config, h: History, key: Key) {
    KeyCount(c, h, key) <= MAX_INT32 && (h != [] ==> KeyCountFits(c, h[..|h| - 1], key))
  }

  /** What an event does to the failures on a key's record. */
  lemma RecordAfter(c: Config, s: State, e: Event, key: Key)
    requires forall k :: k in s.table.records ==> k in s.table.recency
    requires key in Next(c, s, e).table.records
    ensures var r, r' := s.table.records, Next(c, s, e).table.records[key];
            if e.Fails() && e.key == key then r'.failures == if key in r then Inc32(r[key].failures) else 1
            else
              && key in r
              && r'.failures ==
                   if e.Succeeds() && e.key == key then 0
                   else if e.BeginEvent? && e.key == key && !Begin(c, s, key, e.now).1.CircuitRejects?
                           && r[key].failures >= c.failureThreshold && e.now - r[key].lastFailure > c.timeout then 0
                   else r[key].failures
  {
  }

  /** A tracked key's record carries the count, and the instant of the last failure that counts. */
  lemma {:induction false} RecordIsTheCount(c: Config, h: History, key: Key)
    requires c.Valid() && KeyCountFits(c, h, key) && key in Run(c, h).table.records
    ensures Run(c, h).table.records[key].failures == KeyCount(c, h, key)
    ensures KeyCount(c, h, key) > 0 ==> Run(c, h).table.records[key].lastFailure == LastOutcomeTime(h, key)
  {
    var h', e := h[..|h| - 1], h[|h| - 1];
    RecordsAreOk(c, h);
    RecencyIsOk(c, h');
    RecordAfter(c, Run(c, h'), e, key);
    if key in Run(c, h').table.records {
      RecordIsTheCount(c, h', key);
    }
  }

  lemma KeyVerdict(c: Config, s: State, key: Key, now: int)
    ensures Begin(c, s, key, now).1.KeyRejects? <==>
              && !Begin(c, s, key, now).1.CircuitRejects?
              && key in s.table.records && s.table.records[key].failures >= c.failureThreshold
              && now - s.table.records[key].lastFailure <= c.timeout
  {
  }

  /**
   A request that the circuit lets through is turned away by its key if and only if the
   failures that count against the key have reached the threshold and the last is no more
   than timeout ago.
   */
  lemma {:induction false} KeyRejectsExactly(c: Config, h: History, key: Key, now: int)
    requires c.Valid() && KeyCountFits(c, h, key)
    ensures Begin(c, Run(c, h), key, now).1.KeyRejects? <==>
              && !Begin(c, Run(c, h), key, now).1.CircuitRejects?
              && KeyCount(c, h, key) >= c.failureThreshold
              && now - LastOutcomeTime(h, key) <= c.timeout
  {
    KeyVerdict(c, Run(c, h), key, now);
    if key in Run(c, h).table.records {
      RecordIsTheCount(c, h, key);
    }
  }

  /** A key at the threshold whose last failure is long enough ago is let through, and its count starts afresh. */
  lemma {:induction false} KeyCoolsDown(c: Config, h: History, key: Key, now: int)
    requires c.Valid() && KeyCountFits(c, h, key) && KeyCount(c, h, key) >= c.failureThreshold
    requires now - LastOutcomeTime(h, key) > c.timeout && !Begin(c, Run(c, h), key, now).1.CircuitRejects?
    ensures !Begin(c, Run(c, h), key, now).1.KeyRejects?
    ensures var h' := h + [BeginEvent(key, now)];
            KeyCount(c, h', key) == 0 && key in Run(c, h').table.records && Run(c, h').table.records[key].failures == 0
  {
    KeyRejectsExactly(c, h, key, now);
    RecordIsTheCount(c, h, key);
    var h' := h + [BeginEvent(key, now)];
    assert h'[..|h|] == h;
    TableStep(c, Run(c, h), BeginEvent(key, now));
    CooledRecord(c, Run(c, h), key, now);
  }

  lemma CooledRecord(c: Config, s: State, key: Key, now: int)
    requires key in s.table.records && s.table.records[key].failures >= c.failureThreshold
    requires now - s.table.records[key].lastFailure > c.timeout && !Begin(c, s, key, now).1.CircuitRejects?
    ensures Begin(c, s, key, now).0.table == ClearFailures(s.table, key)
  {
  }

  /** A key in trouble whose failures have reached the threshold, the last one recently, is turned away. */
  lemma {:induction false} TroubledKeyIsRejected(c: Config, h: History, i: nat, key: Key, now: int)
    requires c.Valid() && Troubled(c, h, i, key)
    requires 0 <= Run(c, h[..i]).table.records[key].failures
    requires c.failureThreshold
             <= Run(c, h[..i]).table.records[key].failures + KeyFailures(h, i, key) <= MAX_INT32
    requires now - LastOutcomeTime(h, key) <= c.timeout && !Begin(c, Run(c, h), key, now).1.CircuitRejects?
    ensures Begin(c, Run(c, h), key, now).1.KeyRejects?
  {
    KeyCountsEveryFailure(c, h, i, key);
    RecordsAreOk(c, h);
    RecordAtThreshold(c, h, Run(c, h).table, key);
    KeyVerdict(c, Run(c, h), key, now);
  }

  /** Right after a Reset every key is admitted, at any time, without a slot. */
  lemma {:induction false} ResetAdmitsEveryKey(c: Config, h: History, key: Key, at: int, now: int)
    requires c.Valid()
    ensures Begin(c, Run(c, h + [ResetEvent(at)]), key, now).1 == Admitted(false)
    ensures KeyCount(c, h + [ResetEvent(at)], key) == 0
  {
    assert (h + [ResetEvent(at)])[..|h|] == h;
  }

  // ---------- The order of recent use ----------

  /** One past the event that last recorded an outcome for the key; 0 if none did. */
  function LastTouch(h: History, key: Key): (n: nat)
    ensures n <= |h|
  {
    if h == [] then 0
    else if h[|h| - 1].EndEvent? && h[|h| - 1].key == key then |h|
    else LastTouch(h[..|h| - 1], key)
  }

  ghost predicate Descending(h: History, r: seq<Key>) {
    forall i, j :: 0 <= i < j < |r| ==> LastTouch(h, r[j]) < LastTouch(h, r[i])
  }

  /** The list names each key of the table once, by descending time of its last outcome. */
  ghost predicate RecencyOk(c: Config, h: History, t: KeyTable) {
    && |t.recency| <= c.maxKeys
    && (forall key :: key in t.records <==> key in t.recency)
    && Descending(h, t.recency)
  }

  /** A recorded outcome of a key that is tracked afterwards makes it the most recent one. */
  lemma OutcomeGoesFirst(c: Config, s: State, e: Event)
    requires forall key :: key in s.table.records <==> key in s.table.recency
    requires e.EndEvent? && e.key in Next(c, s, e).table.records
    ensures Next(c, s, e).table.recency != [] && Next(c, s, e).table.recency[0] == e.key
  {
  }

  /** A list without the touched key stays descending, and takes the touched key at its head. */
  lemma TouchedGoesFirst(h: History, e: Event, r: seq<Key>)
    requires Descending(h, r) && e.EndEvent? && e.key !in r
    ensures Descending(h + [e], [e.key] + r)
  {
  }

  lemma ToFrontKeeps(h: History, e: Event, r: seq<Key>)
    requires Descending(h, r) && e.EndEvent? && e.key in r
    ensures Descending(h + [e], ToFront(r, e.key))
    ensures |ToFront(r, e.key)| == |r|
    ensures forall key :: key in r <==> key in ToFront(r, e.key)
  {
  }

  lemma {:induction false} NextKeepsRecency(c: Config, h: History, s: State, e: Event)
    requires c.Valid() && RecencyOk(c, h, s.table)
    ensures RecencyOk(c, h + [e], Next(c, s, e).table)
  {
    TableStep(c, s, e);
    var r := s.table.recency;
    if !e.EndEvent? || (e.ok && e.key !in r) {
      UntouchedStaysDescending(h, e, r);
    } else if e.key in r {
      ToFrontKeeps(h, e, r);
    } else if |r| < c.maxKeys {
      TouchedGoesFirst(h, e, r);
      assert forall key :: key in [e.key] + r <==> key == e.key || key in r;
    } else {
      EvictionKeeps(c, h, s.table, e);
    }
  }

  lemma UntouchedStaysDescending(h: History, e: Event, r: seq<Key>)
    requires Descending(h, r) && (e.EndEvent? ==> e.key !in r)
    ensures Descending(h + [e], r)
  {
  }

  lemma EvictionKeeps(c: Config, h: History, t: KeyTable, e: Event)
    requires c.Valid() && RecencyOk(c, h, t) && |t.recency| == c.maxKeys
    requires e.EndEvent? && e.key !in t.recency
    ensures RecencyOk(c, h + [e], KeyFailure(c, t, e.key, e.now))
  {
  }

  lemma {:induction false} RecencyIsOk(c: Config, h: History)
    requires c.Valid()
    ensures RecencyOk(c, h, Run(c, h).table)
  {
    if h != [] {
      var h', e := h[..|h| - 1], h[|h| - 1];
      RecencyIsOk(c, h');
      NextKeepsRecency(c, h', Run(c, h'), e);
      assert h' + [e] == h;
    }
  }

  /** What a failure drops, if anything, is the last key of a full list. */
  lemma FailureDropsTheLast(c: Config, t: KeyTable, key: Key, now: int, victim: Key)
    requires forall k :: k in t.records <==> k in t.recency
    requires victim in t.records && victim !in KeyFailure(c, t, key, now).records
    ensures key !in t.records && c.maxKeys <= |t.recency| && victim == t.recency[|t.recency| - 1]
  {
  }

  /** Only a failing key that is new to a full table pushes a key out: the one least recently heard of. */
  lemma {:induction false} EvictsTheLeastRecent(c: Config, h: History, e: Event, victim: Key, other: Key)
    requires c.Valid() && !e.ResetEvent?
    requires victim in Run(c, h).table.records && victim !in Run(c, h + [e]).table.records
    requires other in Run(c, h).table.records && other != victim
    ensures e.Fails() && e.key !in Run(c, h).table.records && |Run(c, h).table.recency| == c.maxKeys
    ensures LastTouch(h, victim) < LastTouch(h, other)
  {
    RunSnoc(c, h, e);
    RecencyIsOk(c, h);
    EvictionFrom(c, h, Run(c, h), e, victim, other);
  }

  lemma RunSnoc(c: Config, h: History, e: Event)
    ensures Run(c, h + [e]) == Next(c, Run(c, h), e)
  {
  }

  lemma {:induction false} EvictionFrom(c: Config, h: History, s: State, e: Event, victim: Key, other: Key)
    requires RecencyOk(c, h, s.table) && !e.ResetEvent?
    requires victim in s.table.records && victim !in Next(c, s, e).table.records
    requires other in s.table.records && other != victim
    ensures e.Fails() && e.key !in s.table.records && |s.table.recency| == c.maxKeys
    ensures LastTouch(h, victim) < LastTouch(h, other)
  {
    OnlyFailuresDrop(c, s, e, victim);
    FailureDropsTheLast(c, s.table, e.key, e.now, victim);
    LastIsTheOldest(h, s.table.recency, other);
  }

  lemma OnlyFailuresDrop(c: Config, s: State, e: Event, victim: Key)
    requires !e.ResetEvent? && victim in s.table.records && victim !in Next(c, s, e).table.records
    ensures e.Fails() && Next(c, s, e).table == KeyFailure(c, s.table, e.key, e.now)
  {
  }

  lemma LastIsTheOldest(h: History, r: seq<Key>, other: Key)
    requires Descending(h, r) && other in r && other != r[|r| - 1]
    ensures LastTouch(h, r[|r| - 1]) < LastTouch(h, other)
  {
  }

  /**
   A failing key is tracked from then on, as the most recent one; every other key stays,
   but for the last one of a full table when the failing key is new to it.
   */
  lemma {:induction false} FailureTracksItsKey(c: Config, h: History, e: Event, other: Key)
    requires c.Valid() && e.Fails() && other != e.key
    ensures var t, t' := Run(c, h).table, Run(c, h + [e]).table;
            && e.key in t'.records && t'.recency != [] && t'.recency[0] == e.key
            && t'.records[e.key].lastFailure == e.now
            && (other in t'.records <==>
                  other in t.records
                  && (e.key in t.records || |t.recency| < c.maxKeys || other != t.recency[|t.recency| - 1]))
            && (other in t'.records ==> t'.records[other] == t.records[other])
  {
    RunSnoc(c, h, e);
    RecencyIsOk(c, h);
    TableStep(c, Run(c, h), e);
    OutcomeGoesFirst(c, Run(c, h), e);
  }
}
