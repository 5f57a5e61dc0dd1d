/** Cache entries: the TTL arithmetic that stamps them, their phases and their clones. */
module CacheEntries {
  import opened Machine

  // ---------- From configured seconds to durations ----------

  /** The caller's TTL settings, in seconds; each field is a 64-bit `int`. */
  datatype CacheTTL = CacheTTL(freshSeconds: int, staleSeconds: int, expiredSeconds: int) {
    predicate IsInt64s() {
      IsInt64(freshSeconds) && IsInt64(staleSeconds) && IsInt64(expiredSeconds)
    }
  }

  datatype Option<T> = None | Some(value: T)

  const MIN_TTL := 5 * SECOND

  /** The total lifetime and the fresh period, as the code computes them before clamping. */
  function TotalDuration(c: CacheTTL): int {
    Wrap64(Wrap64(Wrap64(c.freshSeconds + c.staleSeconds) + c.expiredSeconds) * SECOND)
  }

  function FreshDuration(c: CacheTTL): int {
    Wrap64(c.freshSeconds * SECOND)
  }

  function ToEngineTTLs(c: Option<CacheTTL>): (int, int) {
    if c.None? then (10 * 24 * 3600 * SECOND, 5 * SECOND)
    else
      var freshTTL := FreshDuration(c.value);
      var total := TotalDuration(c.value);
      var total := if total < MIN_TTL then MIN_TTL else total;
      var freshTTL := if freshTTL < 0 then 0 else freshTTL;
      (total, if freshTTL > total then total else freshTTL)
  }

  // ---------- The constructor's clamps and timestamps ----------

  datatype Times = Times(createdAt: int, staleAfter: int, expiresAfter: int)

  function ClampTTL(ttl: int): int {
    if ttl < MIN_TTL then MIN_TTL else ttl
  }

  /** `ttl` has been clamped already. */
  function ClampStaleTTL(ttl: int, staleTTL: int): int {
    var s := if staleTTL < 0 then ttl - 60 * SECOND else staleTTL;
    var s := if s < 0 then SECOND else s;
    if s > ttl then ttl else s
  }

  function Stamp(now: int, ttl: int, staleTTL: int): Times {
    var total := ClampTTL(ttl);
    var freshTTL := ClampStaleTTL(total, staleTTL);
    Times(now, Wrap64(now + Quot(freshTTL, MILLISECOND)), Wrap64(now + Quot(total, MILLISECOND)))
  }

  /** The longest `time.Duration` in whole milliseconds: a clock this far from the top cannot wrap. */
  const LAST_SAFE_NOW := MAX_INT64 - MAX_INT64 / MILLISECOND

  predicate ClockInRange(now: int) {
    0 < now <= LAST_SAFE_NOW
  }

  /** The stale and total periods in force, in milliseconds. */
  function StaleMillis(ttl: int, staleTTL: int): int {
    Quot(ClampStaleTTL(ClampTTL(ttl), staleTTL), MILLISECOND)
  }

  function TotalMillis(ttl: int): int {
    Quot(ClampTTL(ttl), MILLISECOND)
  }

  /** Whatever durations the calculator answers, the three instants are in order and do not wrap. */
  lemma StampIsInOrder(now: int, ttl: int, staleTTL: int)
    requires ClockInRange(now) && IsInt64(ttl) && IsInt64(staleTTL)
    ensures var t := Stamp(now, ttl, staleTTL);
            && t == Times(now, now + StaleMillis(ttl, staleTTL), now + TotalMillis(ttl))
            && now <= t.staleAfter <= t.expiresAfter <= MAX_INT64
            && t.expiresAfter - t.createdAt >= 5000
  {
  }

  /** A negative fresh period means one minute before the end, or one second for an entry that lives less. */
  lemma NegativeStaleTTL(now: int, ttl: int, staleTTL: int)
    requires ClockInRange(now) && IsInt64(ttl) && MIN_INT64 <= staleTTL < 0
    ensures var t := Stamp(now, ttl, staleTTL);
            t.staleAfter == if ttl >= 60 * SECOND then t.expiresAfter - 60_000 else t.createdAt + 1000
  {
    StampIsInOrder(now, ttl, staleTTL);
  }

  /**
   For every setting, wrap-around included, what ToEngineTTLs answers passes the
   constructor untouched; no settings at all mean five fresh seconds out of ten days.
   */
  lemma EngineTTLsNeedNoClamp(c: Option<CacheTTL>)
    ensures var (ttl, freshTTL) := ToEngineTTLs(c);
            ClampTTL(ttl) == ttl && ClampStaleTTL(ttl, freshTTL) == freshTTL && IsInt64(ttl) && IsInt64(freshTTL)
    ensures c.None? ==> forall now :: ClockInRange(now) ==>
              Stamp(now, ToEngineTTLs(c).0, ToEngineTTLs(c).1) == Times(now, now + 5000, now + 864_000_000)
  {
  }

  /** Settings that do not overflow mean what they say, in milliseconds. */
  lemma InRangeTTLsAreExact(c: CacheTTL, now: int)
    requires ClockInRange(now) && c.IsInt64s()
    requires 0 <= c.freshSeconds && 0 <= c.staleSeconds && 0 <= c.expiredSeconds
    requires 5 <= c.freshSeconds + c.staleSeconds + c.expiredSeconds <= MAX_INT64 / SECOND
    ensures var (ttl, freshTTL) := ToEngineTTLs(Some(c));
            Stamp(now, ttl, freshTTL)
            == Times(now, now + 1000 * c.freshSeconds,
                     now + 1000 * (c.freshSeconds + c.staleSeconds + c.expiredSeconds))
  {
  }

  /**
   The calculator that EngineConfig.SetDefaults builds skips ToEngineTTLs' clamps. It
   stamps the same instants exactly when the fresh period is not negative, or when the
   constructor's own fallback of one minute before the end happens to land on zero too.
   */
  lemma UnclampedCalculatorAgrees(c: CacheTTL, now: int)
    requires ClockInRange(now)
    ensures var (ttl, freshTTL) := ToEngineTTLs(Some(c));
            Stamp(now, TotalDuration(c), FreshDuration(c)) == Stamp(now, ttl, freshTTL)
            <==> FreshDuration(c) >= 0 || 60 * SECOND <= TotalDuration(c) < 60 * SECOND + MILLISECOND
  {
  }

  // ---------- Phases ----------

  datatype Phase = Fresh | Stale | Expired

  predicate IsExpiredAt(expiresAfter: int, now: int) {
    expiresAfter != 0 && expiresAfter < now
  }

  predicate IsStaleAt(staleAfter: int, now: int) {
    staleAfter != 0 && staleAfter < now
  }

  /** The order in which Execute asks: expiry first, then staleness. */
  function PhaseAt(t: Times, now: int): Phase {
    if IsExpiredAt(t.expiresAfter, now) then Expired
    else if IsStaleAt(t.staleAfter, now) then Stale
    else Fresh
  }

  function Rank(p: Phase): nat {
    match p case Fresh => 0 case Stale => 1 case Expired => 2
  }

  /** Whatever is in storage, even with unset or inverted instants, an entry only ages. */
  lemma PhaseNeverGoesBack(t: Times, now: int, later: int)
    requires now <= later
    ensures Rank(PhaseAt(t, now)) <= Rank(PhaseAt(t, later))
  {
  }

  /** An instant that is not set never comes, and only then: the phase it would begin is not reached at any time. */
  lemma {:induction false} UnsetInstantsNeverCome(t: Times)
    ensures (forall now :: PhaseAt(t, now) != Expired) <==> t.expiresAfter == 0
    ensures (forall now :: PhaseAt(t, now) != Stale)
            <==> t.staleAfter == 0 || (t.expiresAfter != 0 && t.expiresAfter <= t.staleAfter)
    ensures (forall now :: PhaseAt(t, now) == Fresh) <==> t.staleAfter == 0 && t.expiresAfter == 0
  {
    if t.expiresAfter != 0 {
      assert PhaseAt(t, t.expiresAfter + 1) == Expired;
    }
    if t.staleAfter != 0 && !(t.expiresAfter != 0 && t.expiresAfter <= t.staleAfter) {
      assert PhaseAt(t, t.staleAfter + 1) == Stale;
    }
    if t.staleAfter != 0 {
      assert PhaseAt(t, t.staleAfter + 1) != Fresh;
    }
  }

  /** For an entry the constructor stamped, the phases are three consecutive intervals. */
  lemma PhasesAreIntervals(created: int, ttl: int, staleTTL: int, now: int)
    requires ClockInRange(created) && IsInt64(ttl) && IsInt64(staleTTL)
    ensures var t := Stamp(created, ttl, staleTTL);
            && (PhaseAt(t, now) == Fresh <==> now <= created + StaleMillis(ttl, staleTTL))
            && (PhaseAt(t, now) == Stale <==>
                  created + StaleMillis(ttl, staleTTL) < now <= created + TotalMillis(ttl))
            && (PhaseAt(t, now) == Expired <==> created + TotalMillis(ttl) < now)
  {
  }

  // ---------- The entry object ----------

  class CacheEntry {
    var key: Key
    var value: array?<bv8>   // null is the nil slice
    var createdAt: int
    var expiresAfter: int
    var staleAfter: int
    var isShared: bool
    var status: string

    constructor WithTTL(key: Key, value: array?<bv8>, ttl: int, staleTTL: int, now: int)
      ensures this.key == key && this.value == value
      ensures GetTimes() == Stamp(now, ttl, staleTTL)
      ensures !isShared && status == "MISS"
    {
      var total, freshTTL := ttl, staleTTL;
      if total < 5 * SECOND {
        total := 5 * SECOND;
      }
      if freshTTL < 0 {
        freshTTL := total - 60 * SECOND;
      }
      if freshTTL < 0 {
        freshTTL := SECOND;
      }
      if freshTTL > total {
        freshTTL := total;
      }
      this.key := key;
      this.value := value;
      createdAt := now;
      expiresAfter := Wrap64(now + Quot(total, MILLISECOND));
      staleAfter := Wrap64(now + Quot(freshTTL, MILLISECOND));
      isShared := false;
      status := "MISS";
    }

    function GetTimes(): Times
      reads this
    {
      Times(createdAt, staleAfter, expiresAfter)
    }

    /** A clone is a new object over new bytes; it differs in status and the shared flag alone. */
    static method CloneWithStatus(e: CacheEntry?, status: string) returns (clone: CacheEntry?)
      ensures e == null <==> clone == null
      ensures e != null ==>
                && fresh(clone)
                && clone.key == e.key && clone.GetTimes() == e.GetTimes()
                && clone.status == status && !clone.isShared
                && (e.value == null <==> clone.value == null)
                && (e.value != null ==> fresh(clone.value) && clone.value[..] == e.value[..])
    {
      if e == null {
        return null;
      }
      clone := new CacheEntry.Copy(e);
      clone.status := status;
      clone.isShared := false;
      if e.value != null {
        var n := e.value.Length;
        var bytes := new bv8[n];
        for i := 0 to n
          invariant bytes[..i] == e.value[..i]
          invariant fresh(clone) && fresh(bytes)
          invariant clone.value == e.value
          invariant clone.key == e.key && clone.GetTimes() == e.GetTimes()
          invariant clone.status == status && !clone.isShared
        {
          bytes[i] := e.value[i];
        }
        clone.value := bytes;
        assert bytes[..n] == bytes[..] && e.value[..n] == e.value[..];
      }
    }

    /** Go's struct assignment: a shallow copy. */
    constructor Copy(e: CacheEntry)
      ensures key == e.key && value == e.value && GetTimes() == e.GetTimes()
      ensures isShared == e.isShared && status == e.status
    {
      key, value := e.key, e.value;
      createdAt, expiresAfter, staleAfter := e.createdAt, e.expiresAfter, e.staleAfter;
      isShared, status := e.isShared, e.status;
    }
  }
}

/** How far the cached clock can shift the phase in which an entry is served. */
module ServingBounds {
  import opened Machine
  import opened CachedClock
  import opened CacheEntries

  /**
   An entry is stamped with the result of call i and looked up with the result of call j,
   both under arbitrary interleaving. Measured by the clock values the two calls really
   read, every phase boundary is met to within ten milliseconds, on either side.
   */
  lemma {:induction false} ServedWithinTenMilliseconds(
      clock: int, steps: seq<Step>, i: nat, j: nat, ttl: int, staleTTL: int)
    requires clock > 0 && i < |Run(clock, steps).done| && j < |Run(clock, steps).done|
    requires IsInt64(ttl) && IsInt64(staleTTL)
    requires Run(clock, steps).clock <= LAST_SAFE_NOW
    ensures var created, lookedUp := Run(clock, steps).done[i], Run(clock, steps).done[j];
            var phase := PhaseAt(Stamp(created.result, ttl, staleTTL), lookedUp.result);
            var stale, total := StaleMillis(ttl, staleTTL), TotalMillis(ttl);
            && (phase == Fresh ==> lookedUp.now <= created.now + stale + UPDATE_INTERVAL)
            && (phase != Fresh ==> created.now + stale - UPDATE_INTERVAL < lookedUp.now)
            && (phase != Expired ==> lookedUp.now <= created.now + total + UPDATE_INTERVAL)
            && (phase == Expired ==> created.now + total - UPDATE_INTERVAL < lookedUp.now)
  {
    InvHolds(clock, steps);
    var s := Run(clock, steps);
    assert CallOk(s.done, s.done[i], s.clock) && CallOk(s.done, s.done[j], s.clock);
    StampIsInOrder(s.done[i].result, ttl, staleTTL);
    PhasesAreIntervals(s.done[i].result, ttl, staleTTL, s.done[j].result);
  }
}
