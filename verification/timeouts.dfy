/** The engine's two computed time-outs, in the 64-bit arithmetic the code uses. */
module Timeouts {
  import opened Machine
  import opened RefreshTrackers

  // ---------- How long a refresh marker lives ----------

  function DefaultRefreshTrackerTTL(refreshTimeout: int): int {
    var ttl := Wrap64(refreshTimeout * 2);
    if ttl < MIN_REFRESH_TRACKER_TTL then MIN_REFRESH_TRACKER_TTL else ttl
  }

  /**
   The default marker outlives the refresh it guards exactly when doubling the refresh
   time-out does not overflow; in that case it lasts twice as long, or five minutes if that is more.
   */
  lemma MarkerOutlivesRefresh(refreshTimeout: int)
    requires 0 < refreshTimeout <= MAX_INT64
    ensures refreshTimeout < DefaultRefreshTrackerTTL(refreshTimeout) <==> refreshTimeout <= MAX_INT64 / 2
    ensures refreshTimeout <= MAX_INT64 / 2 ==> 2 * refreshTimeout <= DefaultRefreshTrackerTTL(refreshTimeout)
    ensures 300 * SECOND <= DefaultRefreshTrackerTTL(refreshTimeout)
    ensures DefaultRefreshTrackerTTL(refreshTimeout) > 300 * SECOND ==>
              DefaultRefreshTrackerTTL(refreshTimeout) == 2 * refreshTimeout
  {
  }

  // ---------- How long a store may take ----------

  const BASE_STORE_TIMEOUT := 800 * MILLISECOND

  /** The base time-out and the extra milliseconds granted for size, before the deadline is looked at. */
  function BaseTimeout(refreshTimeout: int): int {
    if refreshTimeout < BASE_STORE_TIMEOUT then refreshTimeout else BASE_STORE_TIMEOUT
  }

  function ExtraMillis(entrySize: int, refreshTimeout: int): int {
    var budget := Wrap64(Quot(refreshTimeout, MILLISECOND) - Quot(BaseTimeout(refreshTimeout), MILLISECOND));
    if entrySize > 1024 && budget > 0 then
      var extra := Wrap64(Quot(entrySize, 1024) * 200);
      if extra > budget then budget else extra
    else 0
  }

  function StoreTimeout(entrySize: int, refreshTimeout: int, remaining: int): int {
    var timeout := Wrap64(BaseTimeout(refreshTimeout)
                          + Wrap64(ExtraMillis(entrySize, refreshTimeout) * MILLISECOND));
    if timeout > remaining then remaining else timeout
  }

  function Min(x: int, y: int): int {
    if x < y then x else y
  }

  /**
   What the store time-out is meant to be, in exact arithmetic: 800 ms and 200 ms per whole
   KiB of a large entry, but no more than the refresh time-out allows in whole milliseconds
   above the base, and no more than is left of the deadline.
   */
  function IdealStoreTimeout(entrySize: nat, refreshTimeout: nat, remaining: int): int {
    var extra := if entrySize > 1024 then entrySize / 1024 * 200 else 0;
    var room := refreshTimeout / MILLISECOND - 800;
    var timeout := if room <= 0 then Min(refreshTimeout, BASE_STORE_TIMEOUT)
                   else BASE_STORE_TIMEOUT + Min(extra, room) * MILLISECOND;
    Min(timeout, remaining)
  }

  /** No operation of the computation wraps, so it gives the intended time-out. */
  lemma StoreTimeoutIsExact(entrySize: int, refreshTimeout: int, remaining: int)
    requires 0 <= entrySize <= MAX_INT64 && 0 < refreshTimeout <= MAX_INT64
    ensures StoreTimeout(entrySize, refreshTimeout, remaining)
            == IdealStoreTimeout(entrySize, refreshTimeout, remaining)
  {
  }

  lemma StoreTimeoutIsBounded(entrySize: int, refreshTimeout: int, remaining: int)
    requires 0 <= entrySize <= MAX_INT64 && 0 < refreshTimeout <= MAX_INT64 && 0 < remaining
    ensures 0 < StoreTimeout(entrySize, refreshTimeout, remaining) <= remaining
    ensures StoreTimeout(entrySize, refreshTimeout, remaining) <= refreshTimeout
  {
  }

  /** A larger entry, or a later deadline, never gets less time. */
  lemma StoreTimeoutIsMonotone(small: int, large: int, refreshTimeout: int, remaining: int, later: int)
    requires 0 <= small <= large <= MAX_INT64 && 0 < refreshTimeout <= MAX_INT64 && remaining <= later
    ensures StoreTimeout(small, refreshTimeout, remaining) <= StoreTimeout(large, refreshTimeout, later)
  {
  }
}
