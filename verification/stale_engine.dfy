/**
 The engine object: Execute, syncRefresh, safeCall and tryAsyncRefresh as the code runs
 them when nothing interrupts, over the sharded tracker, the counter and storage. What the
 outside world contributes (the callback's answer, failures of the plug-in parts, the
 clock, the deadline) comes in as arguments. Each method computes a function that is proved
 to describe the protocol's steps, taken one after the other.
 */
module StaleEngines {
  import opened Machine
  import opened CacheEntries
  import opened Timeouts
  import opened RefreshTrackers
  import opened SyncRefreshes
  import T = LeaseTable
  import K = CachedClock
  import C = RefreshClaims
  import F = Flights

  /** A stopped engine launches nothing; a running one does what the claim protocol does alone. */
  function AsyncOutcome(
      stopped: bool, m: T.Table, count: int, key: Key, looked: int, claimed: int, ttl: int, limit: int)
    : (T.Table, int, bool)
  {
    if stopped then (m, count, false) else C.RefreshOutcome(m, count, key, looked, claimed, ttl, limit)
  }

  function StatusOf(p: Phase): string {
    match p case Fresh => "hit" case Stale => "stale" case Expired => "expired"
  }

  /** A request that finds its key goes through Hit, one that does not through the synchronous refresh. */
  function ExecuteAlone(cfg: F.Config, s: F.State, t: Caller, key: Key, ownTTL: Option<CacheTTL>, readable: bool,
                        answers: bool, w: World, again: World): F.State
  {
    if key == [] || !readable then s
    else if key in s.storage then F.Next(cfg, s, F.Hit(t, key))
    else SyncRefreshAlone(cfg, s, t, key, ownTTL, answers, w, again)
  }

  function ExecuteReply(cfg: F.Config, storage: map<Key, Entry>, key: Key, ownTTL: Option<CacheTTL>, readable: bool,
                        nowMs: int, answers: bool, w: World, again: World): Reply
  {
    if key == [] || !readable then Error
    else if key in storage then Reply(storage[key], StatusOf(PhaseAt(storage[key].times, nowMs)))
    else MissReply(cfg, storage, key, ownTTL, answers, w, again)
  }

  function ExecuteStorage(cfg: F.Config, storage: map<Key, Entry>, key: Key, ownTTL: Option<CacheTTL>, readable: bool,
                          w: World): map<Key, Entry>
  {
    if key == [] || !readable || key in storage then storage else SafeCallStorage(cfg, storage, key, ownTTL, w)
  }

  /** What Execute replies and stores is what the protocol's steps hand out and store. */
  lemma {:induction false} ExecuteIsItsSteps(
      cfg: F.Config, s: F.State, t: Caller, key: Key, ownTTL: Option<CacheTTL>, readable: bool, nowMs: int,
      answers: bool, w: World, again: World)
    requires F.WaitOf(s, t).Away? && t !in cfg.background && key !in s.flight
    requires SaneWorld(w) && SaneWorld(again)
    ensures var s' := ExecuteAlone(cfg, s, t, key, ownTTL, readable, answers, w, again);
            var reply := ExecuteReply(cfg, s.storage, key, ownTTL, readable, nowMs, answers, w, again);
            && s'.storage == ExecuteStorage(cfg, s.storage, key, ownTTL, readable, w)
            && s'.served == s.served + Handed(key, reply)
            && s'.flight == s.flight && F.WaitOf(s', t).Away?
  {
    if key != [] && readable {
      if key in s.storage {
        assert F.Next(cfg, s, F.Hit(t, key)) == F.Serve(s, t, key, s.storage[key]);
      } else {
        SyncRefreshIsItsSteps(cfg, s, t, key, ownTTL, answers, w, again);
      }
    }
  }

  /** An entry that the constructor stamped is served with the status of its age; the three statuses differ. */
  lemma {:induction false} StatusIsTheAge(
      cfg: F.Config, storage: map<Key, Entry>, key: Key, ownTTL: Option<CacheTTL>, nowMs: int, answers: bool,
      w: World, again: World, created: int, ttl: int, staleTTL: int)
    requires key != [] && key in storage && storage[key].times == Stamp(created, ttl, staleTTL)
    requires ClockInRange(created) && IsInt64(ttl) && IsInt64(staleTTL)
    ensures var reply := ExecuteReply(cfg, storage, key, ownTTL, true, nowMs, answers, w, again);
            var stale, total := StaleMillis(ttl, staleTTL), TotalMillis(ttl);
            && reply.Reply? && reply.entry == storage[key]
            && (reply.status == "hit" <==> nowMs <= created + stale)
            && (reply.status == "stale" <==> created + stale < nowMs <= created + total)
            && (reply.status == "expired" <==> created + total < nowMs)
  {
    PhasesAreIntervals(created, ttl, staleTTL, nowMs);
    assert "hit"[0] == 'h' && "stale"[0] == 's' && "expired"[0] == 'e';
  }

  /**
   What callers of Execute are told: whatever races on the cached clock, at creation and at
   lookup, the status in the reply is right to within ten milliseconds of the clock.
   */
  lemma {:induction false} StatusWithinTenMilliseconds(
      clock: int, steps: seq<K.Step>, i: nat, j: nat, ttl: int, staleTTL: int,
      cfg: F.Config, storage: map<Key, Entry>, key: Key, ownTTL: Option<CacheTTL>, answers: bool,
      w: World, again: World)
    requires clock > 0 && i < |K.Run(clock, steps).done| && j < |K.Run(clock, steps).done|
    requires IsInt64(ttl) && IsInt64(staleTTL)
    requires K.Run(clock, steps).clock <= LAST_SAFE_NOW
    requires key != [] && key in storage
    requires storage[key].times == Stamp(K.Run(clock, steps).done[i].result, ttl, staleTTL)
    ensures var created, lookedUp := K.Run(clock, steps).done[i], K.Run(clock, steps).done[j];
            var reply := ExecuteReply(cfg, storage, key, ownTTL, true, lookedUp.result, answers, w, again);
            var stale, total := StaleMillis(ttl, staleTTL), TotalMillis(ttl);
            && reply.Reply?
            && (reply.status == "hit" ==> lookedUp.now <= created.now + stale + K.UPDATE_INTERVAL)
            && (reply.status != "hit" ==> created.now + stale - K.UPDATE_INTERVAL < lookedUp.now)
            && (reply.status != "expired" ==> lookedUp.now <= created.now + total + K.UPDATE_INTERVAL)
            && (reply.status == "expired" ==> created.now + total - K.UPDATE_INTERVAL < lookedUp.now)
  {
    var created, lookedUp := K.Run(clock, steps).done[i], K.Run(clock, steps).done[j];
    K.ResultWithinInterval(clock, steps, i);
    K.ResultWithinInterval(clock, steps, j);
    K.InvHolds(clock, steps);
    assert K.CallOk(K.Run(clock, steps).done, created, K.Run(clock, steps).clock);
    StatusIsTheAge(cfg, storage, key, ownTTL, lookedUp.result, answers, w, again, created.result, ttl, staleTTL);
  }

  /** A genuine storage stays genuine, and so is the entry of every reply. */
  lemma {:induction false} ExecuteReplyIsGenuine(
      cfg: F.Config, accepted: set<(Key, Value)>, storage: map<Key, Entry>, key: Key, ownTTL: Option<CacheTTL>,
      readable: bool, nowMs: int, answers: bool, w: World, again: World)
    requires GenuineStorage(cfg, accepted, storage) && SaneWorld(w) && SaneWorld(again)
    ensures GenuineStorage(cfg, Heard(accepted, key, w), ExecuteStorage(cfg, storage, key, ownTTL, readable, w))
    ensures var reply := ExecuteReply(cfg, storage, key, ownTTL, readable, nowMs, answers, w, again);
            reply.Reply? ==> F.Genuine(cfg, Heard(accepted, key, w), key, reply.entry)
  {
    F.MoreAccepted(cfg, accepted, Heard(accepted, key, w));
    MissReplyIsGenuine(cfg, accepted, storage, key, ownTTL, answers, w, again);
  }

  class StaleEngine {
    const cfg: F.Config
    const maxConcurrentRefreshes: int
    const refreshTimeout: int
    const tracker: RefreshTracker
    var currentRefreshes: int
    var storage: map<Key, Entry>
    var stopped: bool

    ghost predicate Valid()
      reads this, tracker, tracker.shards
    {
      && tracker.Valid()
      && 0 < maxConcurrentRefreshes && 0 < refreshTimeout <= MAX_INT64
      && MIN_INT32 <= currentRefreshes <= MAX_INT32
    }

    /** Settings that are not positive fall back to the defaults. */
    constructor (cfg: F.Config, maxConcurrentRefreshes: int, refreshTimeout: int, trackerTTL: int)
      requires refreshTimeout <= MAX_INT64
      ensures Valid() && fresh(tracker) && fresh(tracker.shards)
      ensures tracker.leases == map[] && currentRefreshes == 0 && storage == cfg.initial && !stopped
      ensures this.cfg == cfg
      ensures this.maxConcurrentRefreshes == if maxConcurrentRefreshes <= 0 then 1000 else maxConcurrentRefreshes
      ensures this.refreshTimeout == if refreshTimeout <= 0 then 30 * SECOND else refreshTimeout
      ensures tracker.ttl == if trackerTTL <= 0 then DefaultRefreshTrackerTTL(this.refreshTimeout) else trackerTTL
    {
      var timeout := if refreshTimeout <= 0 then 30 * SECOND else refreshTimeout;
      this.cfg := cfg;
      this.maxConcurrentRefreshes := if maxConcurrentRefreshes <= 0 then 1000 else maxConcurrentRefreshes;
      this.refreshTimeout := timeout;
      tracker := new RefreshTracker(if trackerTTL <= 0 then DefaultRefreshTrackerTTL(timeout) else trackerTTL);
      currentRefreshes, storage, stopped := 0, cfg.initial, false;
    }

    /** Schedules a background refresh; `looked` and `claimed` are the clock at Get and at TrySet. */
    method TryAsyncRefresh(key: Key, looked: int, claimed: int) returns (launched: bool)
      requires Valid()
      modifies this`currentRefreshes, tracker`leases, tracker.shards
      ensures Valid()
      ensures (tracker.leases, currentRefreshes, launched)
              == AsyncOutcome(stopped, old(tracker.leases), old(currentRefreshes), key, looked, claimed,
                              tracker.ttl, maxConcurrentRefreshes)
      ensures stopped ==> !launched
      ensures launched <==>
                && !old(stopped)
                && !T.Held(old(tracker.leases), key, looked) && !T.Held(old(tracker.leases), key, claimed)
                && (old(currentRefreshes) < maxConcurrentRefreshes || old(currentRefreshes) == MAX_INT32)
      ensures launched ==>
                && tracker.leases == old(tracker.leases)[key := claimed + tracker.ttl]
                && currentRefreshes == Inc32(old(currentRefreshes))
      ensures !launched ==> currentRefreshes == old(currentRefreshes)
      ensures !launched && (old(stopped) || T.Held(old(tracker.leases), key, looked)
                            || T.Held(old(tracker.leases), key, claimed)) ==>
                tracker.leases == old(tracker.leases)
      ensures !launched ==> tracker.leases == old(tracker.leases) || tracker.leases == old(tracker.leases) - {key}
    {
      if stopped {
        return false;
      }
      var refreshing := tracker.Get(key, looked);
      if refreshing {
        return false;
      }
      var won := tracker.TrySet(key, claimed);
      if !won {
        return false;
      }
      currentRefreshes := Inc32(currentRefreshes);
      var newCount := currentRefreshes;
      if newCount > maxConcurrentRefreshes {
        currentRefreshes := Dec32(currentRefreshes);
        tracker.Delete(key);
        assert tracker.leases == old(tracker.leases) - {key};
        return false;
      }
      return true;
    }

    /** The deferred block of the refresh goroutine: it undoes what a launch left behind. */
    method FinishRefresh(key: Key)
      requires Valid()
      modifies this`currentRefreshes, tracker`leases, tracker.shards
      ensures Valid()
      ensures tracker.leases == old(tracker.leases) - {key}
      ensures currentRefreshes == Dec32(old(currentRefreshes))
    {
      tracker.Delete(key);
      currentRefreshes := Dec32(currentRefreshes);
    }

    /** One refresh attempt; `storeTimeout` is what the store was given, if it was reached. */
    method SafeCall(key: Key, ownTTL: Option<CacheTTL>, w: World) returns (outcome: F.Outcome, storeTimeout: int)
      requires Valid()
      modifies this`storage
      ensures Valid()
      ensures outcome == SafeCallOutcome(cfg, key, ownTTL, w)
      ensures storage == SafeCallStorage(cfg, old(storage), key, ownTTL, w)
      ensures outcome.Ok? ==>
                storeTimeout == StoreTimeout(|cfg.marshal(outcome.raw)|, refreshTimeout, w.remaining)
      ensures outcome.Ok? <==> Works(ownTTL, w)
      ensures outcome.Ok? ==> outcome.raw == cfg.transform(key, w.upstream.value)
      ensures outcome.Ok? && w.stores && ownTTL.Some? ==>
                var (total, freshTTL) := ToEngineTTLs(ownTTL);
                storage == old(storage)[key := F.Entry(key, cfg.marshal(outcome.raw), Stamp(w.now, total, freshTTL))]
      ensures outcome.Ok? && w.stores && ownTTL.None? ==>
                var (total, freshTTL) := w.calculated.value;
                storage == old(storage)[key := F.Entry(key, cfg.marshal(outcome.raw), Stamp(w.now, total, freshTTL))]
      ensures outcome.Err? || !w.stores ==> storage == old(storage)
    {
      storeTimeout := 0;
      if !w.upstream.Gives? {
        return F.Err, storeTimeout;
      }
      var raw := w.upstream.value;
      if !w.transforms {
        return F.Err, storeTimeout;
      }
      raw := cfg.transform(key, raw);
      if !w.marshals {
        return F.Err, storeTimeout;
      }
      var ttls := TTLs(ownTTL, w.calculated);
      if ttls.None? {
        return F.Err, storeTimeout;
      }
      var entry := BuildEntry(cfg, key, raw, w.now, ttls.value);
      var entrySize := |entry.value|;
      var base := 800 * MILLISECOND;
      if refreshTimeout < base {
        base := refreshTimeout;
      }
      var budget := Wrap64(Quot(refreshTimeout, MILLISECOND) - Quot(base, MILLISECOND));
      var extra := 0;
      if entrySize > 1024 && budget > 0 {
        extra := Wrap64(Quot(entrySize, 1024) * 200);
        if extra > budget {
          extra := budget;
        }
      }
      storeTimeout := Wrap64(base + Wrap64(extra * MILLISECOND));
      if w.remaining <= 0 {
        return F.Err, storeTimeout;
      }
      if storeTimeout > w.remaining {
        storeTimeout := w.remaining;
      }
      if w.stores {
        storage := storage[key := entry];
      }
      return F.Ok(raw), storeTimeout;
    }

    /**
     The rest of syncRefresh once the shared call has ended: `answers` says whether storage
     answers the read-back, `again` what rebuilding meets. A fallback is for errors of the
     refresh alone; without one the caller is told what the protocol's steps hand out.
     */
    method FinishSyncRefresh(key: Key, ownTTL: Option<CacheTTL>, fallback: Option<Entry>, outcome: F.Outcome,
                             answers: bool, again: World) returns (reply: Reply)
      ensures reply == if outcome.Err? && fallback.Some? then Reply(fallback.value, "fallback")
                       else SyncReply(cfg, Answer(storage, key, answers), key, ownTTL, outcome, again)
      ensures outcome.Err? && fallback.None? ==> reply.Error?
      ensures outcome.Ok? && answers && key in storage ==> reply == Reply(storage[key], "miss")
      ensures outcome.Ok? && !(answers && key in storage) ==>
                && (reply.Reply? <==> again.marshals && (ownTTL.Some? || again.calculated.Some?))
                && (reply.Reply? ==> reply.status == "miss" && reply.entry.value == cfg.marshal(outcome.raw))
    {
      if outcome.Err? {
        if fallback.Some? {
          return Reply(fallback.value, "fallback");
        }
        return Error;
      }
      if answers && key in storage {
        return Reply(storage[key], "miss");
      }
      if !again.marshals {
        return Error;
      }
      var ttls := TTLs(ownTTL, again.calculated);
      if ttls.None? {
        return Error;
      }
      return Reply(BuildEntry(cfg, key, outcome.raw, again.now, ttls.value), "miss");
    }

    /**
     One request of a caller that meets no other; `readable` says whether storage could be
     read, `nowMs` is the cached clock, and `again` what rebuilding would meet. A cold miss
     refreshes at once, an aged entry is served as it is and may launch a refresh, a fresh
     one changes nothing.
     */
    method Execute(key: Key, ownTTL: Option<CacheTTL>, readable: bool, nowMs: int, looked: int, claimed: int,
                   answers: bool, w: World, again: World) returns (reply: Reply, launched: bool)
      requires Valid()
      modifies this`currentRefreshes, this`storage, tracker`leases, tracker.shards
      ensures Valid()
      ensures reply == ExecuteReply(cfg, old(storage), key, ownTTL, readable, nowMs, answers, w, again)
      ensures storage == ExecuteStorage(cfg, old(storage), key, ownTTL, readable, w)
      ensures forall accepted :: GenuineStorage(cfg, accepted, old(storage)) && SaneWorld(w) && SaneWorld(again) ==>
                && GenuineStorage(cfg, Heard(accepted, key, w), storage)
                && (reply.Reply? ==> F.Genuine(cfg, Heard(accepted, key, w), key, reply.entry))
      ensures (tracker.leases, currentRefreshes, launched)
              == if readable && key != [] && key in old(storage) && PhaseAt(old(storage)[key].times, nowMs) != Fresh
                 then AsyncOutcome(stopped, old(tracker.leases), old(currentRefreshes), key, looked, claimed,
                                   tracker.ttl, maxConcurrentRefreshes)
                 else (old(tracker.leases), old(currentRefreshes), false)
      ensures key == [] || !readable ==> reply.Error? && storage == old(storage)
      ensures key != [] && readable && key in old(storage) ==>
                && reply.Reply? && reply.entry == old(storage)[key] && storage == old(storage)
                && (reply.status == "expired" <==> PhaseAt(old(storage)[key].times, nowMs) == Expired)
                && (reply.status == "stale" <==> PhaseAt(old(storage)[key].times, nowMs) == Stale)
                && (reply.status == "hit" <==> PhaseAt(old(storage)[key].times, nowMs) == Fresh)
      ensures key != [] && readable && key !in old(storage) ==>
                && (reply.Reply? <==> Works(ownTTL, w) && ((answers && w.stores)
                                      || (again.marshals && (ownTTL.Some? || again.calculated.Some?))))
                && (reply.Reply? ==> reply.status == "miss"
                                     && reply.entry.value == cfg.marshal(cfg.transform(key, w.upstream.value)))
      ensures launched <==>
                && key != [] && readable && key in old(storage) && PhaseAt(old(storage)[key].times, nowMs) != Fresh
                && !old(stopped)
                && !T.Held(old(tracker.leases), key, looked) && !T.Held(old(tracker.leases), key, claimed)
                && (old(currentRefreshes) < maxConcurrentRefreshes || old(currentRefreshes) == MAX_INT32)
      ensures launched ==>
                && tracker.leases == old(tracker.leases)[key := claimed + tracker.ttl]
                && currentRefreshes == Inc32(old(currentRefreshes))
    {
      forall accepted | GenuineStorage(cfg, accepted, storage) && SaneWorld(w) && SaneWorld(again)
        ensures GenuineStorage(cfg, Heard(accepted, key, w), ExecuteStorage(cfg, storage, key, ownTTL, readable, w))
        ensures var told := ExecuteReply(cfg, storage, key, ownTTL, readable, nowMs, answers, w, again);
                told.Reply? ==> F.Genuine(cfg, Heard(accepted, key, w), key, told.entry)
      {
        ExecuteReplyIsGenuine(cfg, accepted, storage, key, ownTTL, readable, nowMs, answers, w, again);
      }
      launched := false;
      assert "hit"[0] == 'h' && "stale"[0] == 's' && "expired"[0] == 'e';
      if key == [] || !readable {
        return Error, launched;
      }
      if key !in storage {
        var outcome, _ := SafeCall(key, ownTTL, w);
        reply := FinishSyncRefresh(key, ownTTL, None, outcome, answers, again);
        return reply, launched;
      }
      var entry := storage[key];
      if IsExpiredAt(entry.times.expiresAfter, nowMs) {
        launched := TryAsyncRefresh(key, looked, claimed);
        return Reply(entry, "expired"), launched;
      }
      if IsStaleAt(entry.times.staleAfter, nowMs) {
        launched := TryAsyncRefresh(key, looked, claimed);
        return Reply(entry, "stale"), launched;
      }
      return Reply(entry, "hit"), launched;
    }
  }
}
