# Verified model of the swre cache engine

This Dafny project models the stale-while-revalidate engine of swre and proves what its
design relies on under full interleaving. It has four parts.

* **Refresh tracker** (`lease_table.dfy`, `refresh_tracker.dfy`). The tracker as one table from
  key to expiry, with theorems over all runs, and the 16-shard object updated in place, each
  of whose methods is proved to act on that table.
* **Clock and entries** (`cached_clock.dfy`, `cache_entry.dfy`, `timeouts.dfy`). The cached clock as
  a machine over single loads, clock reads, compare-and-swaps and returns; the TTL arithmetic
  in 64-bit integers; and the bound that connects the two.
* **Circuit breaker** (`breaker.dfy`, `circuit_breaker.dfy`, `slots.dfy`). The breaker as a machine
  over begin, end and reset events; the object with its map and LRU list of breaker objects;
  and the probe-slot counter at the granularity of single atomic adds.
* **Refresh engine** (`refresh_claims.dfy`, `flights.dfy`, `engine.dfy`,
  `sync_refresh.dfy`, `stale_engine.dfy`). The
  claim, count, launch and release protocol; singleflight and the stages of safeCall with
  cancelling callers and failing storage; their product; and the engine object, whose methods
  compute functions proved to describe the protocol's steps when nothing interrupts.

A run is any sequence of steps: a step whose caller is not ready for it changes nothing, so
each theorem over all sequences is a theorem over all interleavings. Callback,
transformer, serializer and TTL calculator are arbitrary functions that may fail at any
moment; a panic, a time-out and a shutdown are failures of the stage they hit. Storage is a map
whose Set may fail without effect and which may drop any entry at any time. The clock never goes
back. Singleflight and the LRU library are taken by their contracts. The number of goroutines is
taken to be below 2^31, so that the 32-bit counters are compared as the code means them.

## Where code and documentation differ

The model follows the code.

* Package and Execute comments promise a single upstream call per key at any time (swr.go:5,
  swr.go:346-348). A callback outlives a safeCall that timed out, so two callbacks of a key can run at once
  (`Flights.TwoCallbacksCanRun`). The promise breaks exactly when a call of the key is started while
  the callback of a failed safeCall of it still runs (`Flights.SingleUpstreamAfter` for a step,
  `Flights.SingleUpstreamExactly` for a run), and holds as long as no time-out or shutdown hits a
  running callback of the key (`Flights.SingleUpstreamWithoutTimeouts`).
* For the same reason maxConcurrentRefreshes bounds the safeCalls of background refreshes, not
  their callbacks (`Engine.BackgroundCallbacksExceedTheLimit`). These exceed it exactly when a
  background call starts with that many running (`Engine.CallbackLimitAfter`,
  `Engine.CallbackLimitExactly`), which needs an abandoned callback
  (`Engine.CallbackLimitWithoutTimeouts`).
* A comment in syncRefresh takes the result to be persisted already (swr.go:481-482). When its Set
  failed, the read-back can give an older entry (`SyncRefreshes.OlderEntryAfterLostWrite`); it is new
  exactly when that call or a later one has written the key (`Flights.ReadBackIsNewExactly`).
* The package comment caps refresh goroutines at one per key (swr.go:17). A key gets a second
  holder exactly when it is claimed while the marker of a holder has run out
  (`RefreshClaims.SecondClaimNeedsAnOverstayer`, `RefreshClaims.OneOwnerExactly`). Then one caller can
  delete another's marker (`RefreshClaims.ClaimBesideCostsAMarker`,
  `RefreshClaims.OverstayerDeletesAnothersMarker`), and otherwise it cannot
  (`RefreshClaims.DeleteFindsOwnMarkerOrNone`). No marker is ever left behind
  (`RefreshClaims.QuietEngineIsClean`).
* The architecture notes (docs/architecture.md) close the breaker after one success and refresh expired entries in
  the foreground; the code needs successThreshold successes and refreshes in the background.
* Reset zeroes the probe counter under requests that will still decrement it, after which one
  probe too many can get in: exactly when some request is pending and there are more callers than
  slots (`ProbeSlots.ResetKeepsCapExactlyWhenQuiet`). With the circuit in the state, the cap is raised
  by the slots taken at the Reset (`Breaker.ResetRaisesTheCap`, `Breaker.TwoProbesOnOneSlot`).

## Model

| member | source | states |
|---|---|---|
| `LeaseTable.SweepsAreInvisible` | refresh_tracker.go:203-230 | in any run at non-decreasing times every answer of TrySet and Get equals the answer of the run with all sweeps erased, the instant now == expiry included |
| `LeaseTable.UnsweptHaveTheirTurnAhead` | refresh_tracker.go:185-192 | a marker older than the first tick survives only while its shard's turn in the round has not come |
| `LeaseTable.SixteenTicksClearTheTable` | refresh_tracker.go:185-216 | after 16 round-robin ticks, with claims and deletes interleaved at will, every marker left expires no earlier than the first tick |
| `LeaseTable.SweepsSpareTheLiving` | refresh_tracker.go:208-215 | no run of sweeps and claims drops or shortens an undeleted marker that has not strictly run out |
| `LeaseTable.LeasesAreSpaced` | refresh_tracker.go:110-128 | two wins of one key without a Delete of it in between are at least ttl apart, whatever else happens |
| `LeaseTable.HeldMeansRecentWin` | refresh_tracker.go:110-162 | in every run a key counts as being refreshed if and only if some win of it, not deleted since, is less than ttl old; Get answers exactly that and TrySet wins exactly otherwise |
| `RefreshTrackers.Fnv32a` | refresh_tracker.go:89-96 | the hashing loop computes the recursive FNV-1a |
| `RefreshTrackers.RefreshTracker.constructor` | refresh_tracker.go:60-82 | 16 distinct empty shards; a ttl that is not positive becomes five minutes |
| `RefreshTrackers.RefreshTracker.GetShard` | refresh_tracker.go:84-87 | the shard returned is the only one that can hold the key |
| `RefreshTrackers.RefreshTracker.TrySet` | refresh_tracker.go:110-128 | answer and effect are those of the single table, and each key stays in its shard |
| `RefreshTrackers.RefreshTracker.Delete` | refresh_tracker.go:131-136 | removes the key from the single table and nothing else |
| `RefreshTrackers.RefreshTracker.Get` | refresh_tracker.go:152-162 | answers as the single table does and changes nothing |
| `RefreshTrackers.RefreshTracker.CleanupShard` | refresh_tracker.go:203-216 | the loop removes exactly the strictly expired markers of one shard |
| `RefreshTrackers.RefreshTracker.Tick` | refresh_tracker.go:187-192 | a tick sweeps the current shard and moves on modulo 16 |
| `RefreshTrackers.RefreshTracker.CleanupExpired` | refresh_tracker.go:226-230 | leaves exactly the markers that had not strictly expired when their shard read the clock |
| `RefreshTrackers.RefreshTracker.Size` | refresh_tracker.go:252-260 | the sum over the shards is the number of keys of the single table |
| `CachedClock.NextKeepsInv` | cache.go:112-131 | every load, clock read, compare-and-swap and return, of any caller in any order, keeps the cell at or below the clock and every pending result within ten milliseconds |
| `CachedClock.CellOnlyMovesForward` | cache.go:125-127 | over all interleavings the shared cell only ever moves strictly forward and never passes the clock |
| `CachedClock.SuccessfulSwapIncreases` | cache.go:125-127 | a compare-and-swap that succeeds strictly increases the cell |
| `CachedClock.ResultWithinInterval` | cache.go:119-130 | every result r of a call that read c satisfies c-10 <= r <= c and is positive |
| `CachedClock.LaterCallAtMostTenBehind` | cache.go:112-131 | a call that begins after another returned is at most ten milliseconds behind it |
| `CachedClock.TenBehindHappens` | cache.go:112-131 | a reachable state in which two calls that do not overlap go back by exactly ten milliseconds |
| `CacheEntries.StampIsInOrder` | cache.go:245-277 | for all durations createdAt <= staleAfter <= expiresAfter, at least 5000 ms of life, and no 64-bit overflow while the clock is in range |
| `CacheEntries.NegativeStaleTTL` | cache.go:254-263 | a negative fresh period turns stale one minute before the end, or after one second when the entry lives less than a minute |
| `CacheEntries.EngineTTLsNeedNoClamp` | swr.go:293-314 | whatever the settings, overflow included, the result of ToEngineTTLs passes the constructor's clamps unchanged; no settings mean five fresh seconds out of ten days |
| `CacheEntries.InRangeTTLsAreExact` | swr.go:293-314 | settings that do not overflow give exactly the configured milliseconds |
| `CacheEntries.UnclampedCalculatorAgrees` | types.go:150-166 | the calculator built without clamps stamps the same instants if and only if the fresh duration is not negative or the total is one minute to within a millisecond |
| `CacheEntries.PhaseNeverGoesBack` | cache.go:134-141 | for any stored entry the phase chosen by Execute never goes back as time advances |
| `CacheEntries.UnsetInstantsNeverCome` | cache.go:134-141 | an instant of zero never comes, and only then: the phase it would begin is reached at no time |
| `CacheEntries.PhasesAreIntervals` | cache.go:134-141 | for constructed entries fresh, stale and expired are exactly three consecutive intervals |
| `CacheEntries.CacheEntry.WithTTL` | cache.go:245-277 | the constructor's reassignments produce the specified instants, status MISS, not shared |
| `CacheEntries.CacheEntry.CloneWithStatus` | cache.go:210-229 | a clone is a new object over new equal bytes, differing in status and the shared flag alone; nil gives nil |
| `ServingBounds.ServedWithinTenMilliseconds` | cache.go:134-141 | for creation and lookup through the cached clock under any interleaving, each phase boundary is met to within ten milliseconds of real reads, on both sides |
| `Timeouts.MarkerOutlivesRefresh` | swr.go:229-235 | the default marker outlives the refresh time-out if and only if doubling it does not overflow, and then lasts twice as long, or five minutes if that is more |
| `Timeouts.StoreTimeoutIsExact` | swr.go:630-656 | the 64-bit computation never wraps and equals the intended time-out in exact arithmetic |
| `Timeouts.StoreTimeoutIsBounded` | swr.go:630-656 | the store time-out is positive and within both the refresh time-out and the time remaining |
| `Timeouts.StoreTimeoutIsMonotone` | swr.go:636-656 | a larger entry or a later deadline never gets less time |
| `ProbeSlots.HalfOpenCapHolds` | circuit_breaker.go:131-138 | in every interleaving of add, check and release the counter is the number of pending requests and at most maxHalfOpenReqs are inside, provided Reset only runs when none is pending |
| `ProbeSlots.TurnedAwayOnlyAboveTheCap` | circuit_breaker.go:131-136 | a request is turned away if and only if its add found maxHalfOpenReqs or more requests pending |
| `ProbeSlots.ResetKeepsCountExactlyWhenQuiet` | circuit_breaker.go:272-277 | a Reset keeps the counter truthful if and only if no request is pending |
| `ProbeSlots.UnquietResetBreaksTheCap` | circuit_breaker.go:272-277 | with more callers than maxHalfOpenReqs, a Reset under any pending request has a continuation without further Resets in which more than maxHalfOpenReqs probes are inside |
| `ProbeSlots.ResetKeepsCapExactlyWhenQuiet` | circuit_breaker.go:272-277 | after a Reset the cap holds in every continuation without another Reset if and only if nothing was pending or there are no more callers than slots |
| `ProbeSlots.ResetUnderAProbeBreaksTheCap` | circuit_breaker.go:272-277 | a reachable state in which a Reset under a pending probe has let two probes in with one slot |
| `Breaker.Config.WithDefaults` | circuit_breaker.go:68-83 | setting by setting, a positive value is kept and any other becomes its default, and the result is valid |
| `Breaker.CoreOfRun` | circuit_breaker.go:174-256 | in every run the circuit depends on outcomes and times only, never on keys or probe slots |
| `Breaker.ClosedSpanIsUnique` | circuit_breaker.go:252-255 | the stretch over which a closed circuit counts is determined by the history alone |
| `Breaker.ClosedCountsItsFailures` | circuit_breaker.go:221-233 | while closed, the counter is the number of failures since closing or the last success, and is below the threshold |
| `Breaker.OpensExactlyAtTheThreshold` | circuit_breaker.go:226-228 | a closed circuit opens if and only if the event is the failure that completes the threshold |
| `Breaker.HalfOpenCountsItsSuccesses` | circuit_breaker.go:238-251 | while half-open, the counter is the number of successes since it became so, below the threshold, with no failure among them |
| `Breaker.ClosesExactlyAtTheThreshold` | circuit_breaker.go:229-251 | a half-open circuit closes if and only if the event is a reset or the success completing the threshold, and opens if and only if it is a failure, which starts the count of failures afresh |
| `Breaker.AdmissionNeedsCoolDown` | circuit_breaker.go:174-197 | a circuit that is not closed admits nothing until every recorded failure is strictly more than timeout ago |
| `Breaker.NoAdmissionBeforeTimeout` | circuit_breaker.go:174-197 | after opening and without Reset, every later admission comes strictly more than timeout after each failure recorded before |
| `Breaker.CircuitRejectionIsDeserved` | circuit_breaker.go:181-189 | the circuit turns a request away if and only if it is open and some recorded failure is at most timeout ago |
| `Breaker.ResetRaisesTheCap` | circuit_breaker.go:115-150 | with the circuit deciding who takes a slot, the counter in every run is the slots taken less those taken at the last Reset, so that at most maxHalfOpenReqs plus those are ever taken |
| `Breaker.SlotRejectionIsDeserved` | circuit_breaker.go:131-136 | a request is refused a slot if and only if circuit and key admit it in half-open and maxHalfOpenReqs slots are taken beyond those the last Reset forgot |
| `Breaker.TwoProbesOnOneSlot` | circuit_breaker.go:272-277 | a run of the whole breaker in which, after a Reset under a probe, the circuit reopens, cools down and lets two probes in with one slot |
| `Breaker.KeyRejectionIsDeserved` | circuit_breaker.go:199-219 | a per-key rejection means that key's latest failureThreshold or more outcomes are all failures, the last at most timeout ago |
| `Breaker.KeyRejectsExactly` | circuit_breaker.go:199-219 | a request that passes the circuit is turned away by its key if and only if the failures that count against the key have reached the threshold, the last one at most timeout ago |
| `Breaker.TroubledKeyIsRejected` | circuit_breaker.go:199-219 | a key with failureThreshold failures, no success or cool-down among them and the last one recent, is turned away |
| `Breaker.KeyCoolsDown` | circuit_breaker.go:208-216 | a key at the threshold whose last failure is more than timeout ago is let through and its count starts afresh |
| `Breaker.RecordIsTheCount` | circuit_breaker.go:291-329 | a tracked key's breaker holds the number of failures since it was first heard of, last succeeded or last cooled down, dated by the last one |
| `Breaker.ResetAdmitsEveryKey` | circuit_breaker.go:273-288 | right after a Reset every key is admitted, and no failure counts against it |
| `Breaker.KeyCountsEveryFailure` | circuit_breaker.go:291-313 | while a key stays tracked, without success or cooled-down request, its breaker counts every failure |
| `Breaker.NextKeepsRecency` | circuit_breaker.go:291-329 | every event keeps the list and the table on the same keys, within the bound, ordered by last outcome |
| `Breaker.RecencyIsOk` | circuit_breaker.go:291-329 | in every run the list names each key of the table once, at most maxKeyBreakers of them, by descending time of last failure or reset |
| `Breaker.EvictsTheLeastRecent` | circuit_breaker.go:303-312 | a key leaves the table only when a new key fails with the table full, and it is the one least recently failed or reset |
| `Breaker.FailureTracksItsKey` | circuit_breaker.go:291-313 | a failing key is tracked from then on as the most recent; every other key stays unchanged, but for the last of a full table when the failing key is new |
| `CircuitBreakers.LruCache.Add` | circuit_breaker.go:94-99 | contract of the LRU library: front insertion, the last key of a full cache is dropped and reported |
| `CircuitBreakers.CircuitBreaker.constructor` | circuit_breaker.go:68-112 | a closed breaker with empty, agreeing stores |
| `CircuitBreakers.CircuitBreaker.CanExecute` | circuit_breaker.go:174-197 | moves the circuit as specified and leaves the key table alone |
| `CircuitBreakers.CircuitBreaker.CanExecuteKey` | circuit_breaker.go:199-219 | answers and clears a cooled-down key as specified |
| `CircuitBreakers.CircuitBreaker.Begin` | circuit_breaker.go:115-138 | the first half of Execute, including what a rejected request leaves changed |
| `CircuitBreakers.CircuitBreaker.End` | circuit_breaker.go:137-149 | the second half of Execute with the deferred release |
| `CircuitBreakers.CircuitBreaker.RecordFailure` | circuit_breaker.go:221-236 | computes the failure step of the machine on circuit and keys, both stores agreeing |
| `CircuitBreakers.CircuitBreaker.RecordSuccess` | circuit_breaker.go:238-256 | computes the success step of the machine, both stores agreeing |
| `CircuitBreakers.CircuitBreaker.RecordKeyFailure` | circuit_breaker.go:291-313 | map and LRU hold the same breaker objects for the same keys again when the mutex is released, eviction callback included |
| `CircuitBreakers.CircuitBreaker.ResetKeyBreaker` | circuit_breaker.go:316-329 | zeroes the key's failures and makes it the most recent, both stores agreeing |
| `CircuitBreakers.CircuitBreaker.Reset` | circuit_breaker.go:273-288 | closed, all counters zero, both stores empty, the last failure time kept |
| `CircuitBreakers.CircuitBreaker.Execute` | circuit_breaker.go:115-150 | an uninterrupted request is a begin followed, if admitted, by an end |
| `RefreshClaims.NextKeepsCountInv` | swr.go:713-757 | every step of any caller keeps counter, tickets, launched refreshes and ledgers consistent |
| `RefreshClaims.RefreshCapHolds` | swr.go:723-732 | in every interleaving the counter is the number of callers between add and subtract, and at most maxConcurrentRefreshes refreshes are launched even while the counter overshoots |
| `RefreshClaims.BacksOutOnlyAtTheLimit` | swr.go:723-732 | a claim backs out if and only if its add found maxConcurrentRefreshes or more callers counted |
| `RefreshClaims.LosersGoHome` | swr.go:713-718 | a claim is lost if and only if the key's marker has not run out, and then nothing but the caller's own position changes |
| `RefreshClaims.EveryCallerGetsOut` | swr.go:713-757 | from every point of every run a caller's own steps take it back, having undone each of its claims and adds |
| `RefreshClaims.EveryExitUndoesBoth` | swr.go:713-757 | a caller that is back has undone every claim and every add exactly once, whichever way it left |
| `RefreshClaims.MarkersAreOwned` | swr.go:702-756 | in every run, late refreshes included, a marker in the tracker belongs to a caller whose own Delete is still to come |
| `RefreshClaims.QuietEngineIsClean` | swr.go:745-762 | in every run, when every caller is back the counter is zero and the tracker is empty |
| `RefreshClaims.SecondClaimNeedsAnOverstayer` | swr.go:713-718 | after any run with one holder at a time, a step gives the key a second holder if and only if it claims the key while the holder's marker has run out, however long ago and whether swept or not |
| `RefreshClaims.OneOwnerExactly` | swr.go:17 | throughout a run the key has at most one holder if and only if no claim of it is ever made beside a marker that has run out |
| `RefreshClaims.DeleteFindsOwnMarkerOrNone` | swr.go:723-756 | in such runs each unconditional Delete, deferred or backing out, finds its caller's own marker or none |
| `RefreshClaims.ClaimBesideCostsAMarker` | swr.go:723-756 | after such a claim the overstayer needs only to finish, and its Delete removes the claimer's live marker |
| `RefreshClaims.NextKeepsExclusive` | swr.go:702-762 | from a state prompt on a key every step keeps at most one holder of that key, and its marker in the tracker is that holder's |
| `RefreshClaims.ClaimsAreExclusive` | swr.go:702-762 | if the claims of a key are released before their markers expire, the key has at most one holder and the tracker holds that holder's marker or none, whatever other keys do |
| `RefreshClaims.TrackerIsTheHolders` | swr.go:702-762 | if that is so for every key, the tracker is exactly the holders' markers, one holder per key |
| `RefreshClaims.DeleteRemovesOwnMarker` | swr.go:723-756 | in a run prompt on the key, each unconditional Delete, the deferred one and the one backing out over the limit, removes the caller's own marker and no other |
| `RefreshClaims.OverstayerDeletesAnothersMarker` | swr.go:755-756 | a reachable state in which an overstaying refresh has deleted the live marker of another |
| `RefreshClaims.TrackerRunsAsLeaseTable` | swr.go:702-756 | in every interleaving the tracker's operations form a run of the lease table at non-decreasing times |
| `RefreshClaims.UninterruptedRefresh` | swr.go:692-741 | the protocol steps of one caller alone have the outcome the engine object computes |
| `RefreshClaims.UninterruptedFinish` | swr.go:745-756 | return, release and uncount in order remove the marker and take the count back, as FinishRefresh does |
| `Flights.NextKeepsFlightInv` | swr.go:465-473 | every step keeps exactly the active calls registered, one per key, and background leaders waiting for their call |
| `Flights.OneSafeCallPerKey` | swr.go:465-467 | with cold misses and background refreshes interleaving and callers cancelling, at most one safeCall per key is under way |
| `Flights.JoinAttaches` | swr.go:465-467 | whoever asks for a key waits for a call of that key under way: the one already there, or else a new one whose callback is started |
| `Flights.JoinerIsAnswered` | swr.go:465-486 | a caller that joins is never lost, whatever others do, and once its call has landed well it reads the stored entry of the key it asked for |
| `Flights.BackgroundIsDone` | swr.go:764-775 | a background refresh whose call has landed is done and is handed nothing |
| `Flights.EveryWaitCanEnd` | swr.go:551-590 | from every point of every run the time-out of its call lets a waiting caller get away |
| `Flights.CallbackEnds` | swr.go:562-576 | a callback that ends after its call has given up on it changes nothing but being at work |
| `Flights.StageKeepsCallOk` | swr.go:581-671 | each stage of safeCall works on the accepted callback value of its own key, transformed and marshalled |
| `Flights.EverythingServedIsGenuine` | swr.go:478-509 | every entry stored or returned for a key, on hit, read-back and rebuild, is initial content or Marshal(Transform(v)) of an accepted callback value of that key |
| `Flights.FailureWritesNothing` | swr.go:583-672 | a safeCall that returns an error has never written storage |
| `Flights.StorageIsTheLastWrite` | swr.go:661-671 | storage holds for each key its last successful write or its initial entry |
| `Flights.ReadBackIsAtLeastAsNew` | swr.go:481-486 | if the Set of the refresh a caller waited for succeeded, the entry it reads back is what that refresh wrote or a later write of the key |
| `Flights.ReadBackIsNewExactly` | swr.go:481-486 | the entry a waiter on a call reads back is from that call or a later one if and only if one of those has written the key; otherwise it is an earlier call's or the initial entry |
| `Flights.SingleUpstreamAfter` | swr.go:465-590 | a step breaks the promise of one upstream call per key if and only if it starts a call of the key while the callback of a failed safeCall of it still runs |
| `Flights.SingleUpstreamExactly` | swr.go:346-348 | throughout a run each moment has one upstream call for the key if and only if no call of it is ever started beside such an abandoned callback |
| `Flights.SingleUpstreamWithoutTimeouts` | swr.go:346-348 | if no time-out or shutdown hits a call of the key whose callback still runs, there is one upstream call for it at the end of every run |
| `Flights.SecondCallbackNeedsAnAbandonedOne` | swr.go:562-590 | of two callbacks of one key running at once, one belongs to a safeCall that has already failed |
| `Flights.TwoCallbacksCanRun` | swr.go:562-590 | a reachable state with two running callbacks of one key, after a time-out |
| `Flights.CancelIsInvisible` | swr.go:461-464 | a caller's cancellation changes nothing for calls, storage and every other caller |
| `Flights.CancelEndsTheWait` | swr.go:508-512 | a waiting caller that cancels waits no more, whatever happens later; a background refresh cannot cancel |
| `Flights.OnlyWaitersCancel` | swr.go:483 | a caller whose result has arrived can no longer cancel |
| `Engine.RunProjects` | swr.go:741-766 | every run of the whole engine is a run of the claim protocol and a run of the flights |
| `Engine.ForegroundRunsFreely` | swr.go:349-416 | every run of cold misses and hits through singleflight alone is also a run of the engine |
| `Engine.NextKeepsLink` | swr.go:764-767 | a background refresh waits only while launched, for a call of its own key |
| `Engine.BackgroundLoadIsCapped` | swr.go:723-766 | background refreshes never have more than maxConcurrentRefreshes safeCalls in flight |
| `Engine.BackgroundCallbacksAreCapped` | swr.go:723-766 | the running callbacks that background refreshes started, less those whose safeCall has failed, never exceed maxConcurrentRefreshes |
| `Engine.CallbackLimitAfter` | swr.go:723-766 | a step takes the running callbacks of background refreshes above maxConcurrentRefreshes if and only if it starts a background call with that many running, and then a callback of a failed safeCall is among them |
| `Engine.CallbackLimitExactly` | swr.go:723-766 | throughout a run those callbacks stay within maxConcurrentRefreshes if and only if no background call is ever started with that many running |
| `Engine.CallbackLimitWithoutTimeouts` | swr.go:562-590 | if no time-out or shutdown hits a running callback of a background refresh, the callbacks stay within the limit throughout |
| `Engine.BackgroundCallbacksExceedTheLimit` | swr.go:562-590 | a reachable state with two such callbacks running under a limit of one, after a time-out |
| `Engine.OneBackgroundRefreshPerKey` | swr.go:685-691 | unless the key was claimed beside a marker that had run out, at most one background refresh of it waits upstream, its marker in the tracker or run out; in prompt runs the marker is there |
| `Engine.EngineIsSafe` | swr.go:346-348 | with both protocols interleaved, one safeCall per key and only genuine entries stored or handed out |
| `SyncRefreshes.SafeCallIsItsStages` | swr.go:527-672 | safeCall run alone equals the stages of its call in order, with the same result and storage, unnoticed by waiters |
| `SyncRefreshes.SyncRefreshIsItsSteps` | swr.go:455-509 | joining, the stages, landing, receiving and then reading back, rebuilding or giving up, in order, hand out exactly the entry of the cold-miss reply, leave safeCall's storage and no trace in singleflight |
| `SyncRefreshes.SucceedsExactly` | swr.go:527-672 | safeCall succeeds if and only if every stage does, where the calculator counts only for a key without settings of its own |
| `SyncRefreshes.OwnSettingsWin` | swr.go:617-625 | for a key with settings of its own the calculator's answer or failure makes no difference, and the stored entry has the lifetimes of the settings |
| `SyncRefreshes.CalculatorDecidesOtherwise` | swr.go:617-625 | without settings a failing calculator fails the call, and otherwise the stored entry has the lifetimes it answered |
| `SyncRefreshes.RebuiltLifetimes` | swr.go:492-509 | a rebuilt entry carries the result's bytes and the lifetimes of the same rule, and fails if and only if serializing or the rule does |
| `SyncRefreshes.AnsweringStorageWins` | swr.go:483-486 | when storage answers the caller is handed what is stored, whatever rebuilding would meet |
| `SyncRefreshes.MissReplyIsGenuine` | swr.go:478-509 | what a synchronous refresh stores and returns is genuine whenever storage was: only an accepted value of that key, transformed and marshalled |
| `SyncRefreshes.OlderEntryAfterLostWrite` | swr.go:481-486 | a reachable state in which a refresh has succeeded, its Set has failed, and the read-back hands out what an earlier refresh stored |
| `StaleEngines.ExecuteIsItsSteps` | swr.go:349-416 | what Execute replies and stores is what the protocol hands out and stores, on a hit, on a miss and on an error |
| `StaleEngines.ExecuteReplyIsGenuine` | swr.go:349-416 | a genuine storage stays genuine and every reply's entry is genuine |
| `StaleEngines.StatusIsTheAge` | swr.go:369-416 | a stamped entry is served as hit, stale or expired if and only if the cached clock lies in the corresponding period |
| `StaleEngines.StatusWithinTenMilliseconds` | swr.go:369-416 | whatever races on the cached clock at creation and at lookup, the status told to the caller is right to within ten milliseconds, on both sides |
| `StaleEngines.StaleEngine.constructor` | swr.go:170-227 | positive settings are kept, others become their defaults, marker life included; empty tracker, zero count |
| `StaleEngines.StaleEngine.TryAsyncRefresh` | swr.go:692-741 | a stopped engine launches nothing; a running one launches if and only if no marker is held at either look and the count is below the limit (or wraps), and then holds the marker and has counted one more |
| `StaleEngines.StaleEngine.FinishRefresh` | swr.go:745-756 | the deferred block removes the marker and takes the count back |
| `StaleEngines.StaleEngine.SafeCall` | swr.go:527-672 | result, stored entry with its bytes and lifetimes, and store time-out for every combination of failures |
| `StaleEngines.StaleEngine.FinishSyncRefresh` | swr.go:473-509 | a fallback replaces errors of the refresh only; an answering storage wins; otherwise the entry is rebuilt from the result |
| `StaleEngines.StaleEngine.Execute` | swr.go:349-416 | which entry with which status is served in each phase and on a miss, when a refresh is launched and what it leaves, when nothing changes, and that served entries are genuine whenever storage was |

## Left out

- Breaker interleavings inside one begin or one end: a request is an atomic begin and an atomic end; only the probe counter is modelled at single atomic operations.
- Circuit decisions within ProbeSlots: an add may come at any time, although the code adds only while half-open; the breaker machine has both, with a request's begin as one step.
- ProbeSlots.HalfOpenCapHolds: does not cover a Reset while requests are pending, because the cap is false there, as the lemmas beside it show.
- RefreshTrackers.RefreshTracker.Size: counts while no other operation runs; the shard-by-shard snapshot under concurrent updates has no exact meaning.
- RefreshClaims steps do not look at the shutdown flag: the runs modelled include all those a shutdown would cut short; the engine object does look at it.
- Flights does not model the fallback argument of syncRefresh, which Execute never passes; the engine object does.
- Real timers, contexts and goroutine scheduling: replaced by failure, cancel and clock steps at any moment.
- Object sharing of served entries: protocol states hold entries as values; that clones share nothing is proved on the entry object.
- Parsing of the key argument beyond the empty key, nil callbacks and nil engines: immediate errors without state.
- ExecuteGeneric, GetCacheEntry, IsExpired, IsStale, NewCacheEntry: thin wrappers over what is modelled.
- Shutdown's polling loop: a best-effort wait without a guarantee.
- Saturation of time.Since at its maximum duration and clocks that go back.
- Badger storage, serializers, compression, loggers, metrics and the marshal buffer pool: no behaviour the properties depend on.
