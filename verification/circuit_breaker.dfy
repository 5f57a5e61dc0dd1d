/**
 The circuit breaker updated in place. Each method computes the step of the same name on
 the machine of module Breaker, and keeps the two stores of per-key breakers in agreement.
 */
module CircuitBreakers {
  import opened Machine
  import opened B = Breaker

  ghost predicate NoDuplicates(r: seq<Key>) {
    forall i, j :: 0 <= i < j < |r| ==> r[i] != r[j]
  }

  lemma ToFrontPermutes(r: seq<Key>, key: Key)
    requires NoDuplicates(r) && key in r
    ensures NoDuplicates(ToFront(r, key)) && |ToFront(r, key)| == |r|
    ensures forall k :: k in r <==> k in ToFront(r, key)
  {
  }

  class KeyBreaker {
    const key: Key
    var failures: int
    var lastFailureTime: int

    constructor (key: Key, failures: int, lastFailureTime: int)
      ensures this.key == key && this.failures == failures && this.lastFailureTime == lastFailureTime
    {
      this.key, this.failures, this.lastFailureTime := key, failures, lastFailureTime;
    }
  }

  /** The contract of the LRU cache the breaker uses; `order` has the most recent key first. */
  class LruCache {
    const size: nat
    var items: map<Key, KeyBreaker>
    var order: seq<Key>

    ghost predicate Valid()
      reads this
    {
      0 < size && |order| <= size && NoDuplicates(order) && forall key :: key in items <==> key in order
    }

    constructor (size: nat)
      requires 0 < size
      ensures Valid() && this.size == size && items == map[] && order == []
    {
      this.size, items, order := size, map[], [];
    }

    method Get(key: Key) returns (kb: KeyBreaker?)
      requires Valid()
      modifies this
      ensures Valid() && items == old(items)
      ensures kb == if key in items then items[key] else null
      ensures order == if key in items then ToFront(old(order), key) else old(order)
    {
      if key in items {
        ToFrontPermutes(order, key);
        order := ToFront(order, key);
        return items[key];
      }
      return null;
    }

    /** Adds a new key at the front; a full cache drops its last key and reports it. */
    method Add(key: Key, kb: KeyBreaker) returns (evicted: seq<Key>)
      requires Valid() && key !in items
      modifies this
      ensures Valid()
      ensures |old(order)| < size ==>
                evicted == [] && order == [key] + old(order) && items == old(items)[key := kb]
      ensures |old(order)| == size ==>
                && evicted == [old(order)[size - 1]]
                && order == [key] + old(order)[..size - 1]
                && items == (old(items) - {old(order)[size - 1]})[key := kb]
    {
      evicted := [];
      if |order| == size {
        var victim := order[size - 1];
        evicted := [victim];
        assert order == order[..size - 1] + [victim];
        order := order[..size - 1];
        items := items - {victim};
      }
      order := [key] + order;
      items := items[key := kb];
    }

    method Purge() returns (evicted: seq<Key>)
      requires Valid()
      modifies this
      ensures Valid() && items == map[] && order == [] && evicted == old(order)
    {
      evicted := order;
      items, order := map[], [];
    }
  }

  class CircuitBreaker {
    const config: Config
    var state: Circuit
    var failures: int
    var successes: int
    var lastFailureTime: int
    var halfOpenRequests: int
    var keyBreakers: map<Key, KeyBreaker>
    ghost var records: map<Key, KeyRecord>   // what the breakers in keyBreakers hold
    const keyBreakerLRU: LruCache

    /** Both stores hold the same breaker object for the same keys, within the bound. */
    ghost predicate Valid()
      reads this`keyBreakers, this`records, keyBreakerLRU, keyBreakers.Values
    {
      && config.Valid() && keyBreakerLRU.Valid() && keyBreakerLRU.size == config.maxKeys
      && keyBreakers == keyBreakerLRU.items
      && records.Keys == keyBreakers.Keys
      && (forall key :: key in keyBreakers ==>
            && keyBreakers[key].key == key
            && records[key] == KeyRecord(keyBreakers[key].failures, keyBreakers[key].lastFailureTime))
    }

    ghost function CoreView(): Core
      reads this`state, this`failures, this`successes, this`lastFailureTime
    {
      Core(state, failures, successes, lastFailureTime)
    }

    ghost function TableView(): KeyTable
      reads this`records, keyBreakerLRU
    {
      KeyTable(records, keyBreakerLRU.order)
    }

    ghost function View(): State
      reads this, keyBreakerLRU
    {
      State(CoreView(), halfOpenRequests, TableView())
    }

    constructor (raw: Config)
      requires raw.failureThreshold <= MAX_INT32 && raw.successThreshold <= MAX_INT32 && raw.maxHalfOpen <= MAX_INT32
      ensures Valid() && View() == INIT && config == raw.WithDefaults()
      ensures fresh(keyBreakerLRU)
    {
      var c := raw.WithDefaults();
      config := c;
      state, failures, successes, lastFailureTime, halfOpenRequests := Closed, 0, 0, 0, 0;
      keyBreakers, records := map[], map[];
      keyBreakerLRU := new LruCache(c.maxKeys);
    }

    method CanExecute(now: int) returns (ok: bool)
      requires Valid()
      modifies this`state, this`successes
      ensures Valid()
      ensures (CoreView(), ok) == B.CanExecute(config, old(CoreView()), now)
      ensures TableView() == old(TableView())
    {
      match state
      case Closed => return true;
      case HalfOpen => return true;
      case Open =>
        if now - lastFailureTime > config.timeout {
          state := HalfOpen;
          successes := 0;
          return true;
        }
        return false;
    }

    method CanExecuteKey(key: Key, now: int) returns (ok: bool)
      requires Valid()
      modifies this`records, keyBreakers.Values
      ensures Valid()
      ensures (TableView(), ok) == B.CanExecuteKey(config, old(TableView()), key, now)
    {
      if key !in keyBreakers {
        return true;
      }
      var kb := keyBreakers[key];
      if kb.failures >= config.failureThreshold {
        if now - kb.lastFailureTime > config.timeout {
          Store(key, 0, kb.lastFailureTime);
          return true;
        }
        return false;
      }
      return true;
    }

    /** Stores into one key's breaker, which no other key shares. */
    method Store(key: Key, failures: int, lastFailureTime: int)
      requires Valid() && key in keyBreakers
      modifies this`records, keyBreakers[key]
      ensures Valid() && records == old(records)[key := KeyRecord(failures, lastFailureTime)]
    {
      var kb := keyBreakers[key];
      kb.failures, kb.lastFailureTime := failures, lastFailureTime;
      records := records[key := KeyRecord(failures, lastFailureTime)];
    }

    /** Execute up to the call of the engine. */
    method Begin(key: Key, now: int) returns (verdict: Verdict)
      requires Valid()
      modifies this`state, this`successes, this`halfOpenRequests, this`records, keyBreakers.Values
      ensures Valid()
      ensures (View(), verdict) == B.Begin(config, old(View()), key, now)
    {
      var ok := CanExecute(now);
      if !ok {
        return CircuitRejects;
      }
      ok := CanExecuteKey(key, now);
      if !ok {
        return KeyRejects;
      }
      if state == HalfOpen {
        var current := Inc32(halfOpenRequests);
        halfOpenRequests := current;
        if current > config.maxHalfOpen {
          halfOpenRequests := Dec32(halfOpenRequests);
          return SlotRejects;
        }
        return Admitted(true);
      }
      return Admitted(false);
    }

    /** Execute after the call of the engine, the deferred release of the slot included. */
    method End(key: Key, now: int, ok: bool, slot: bool)
      requires Valid()
      modifies this, keyBreakerLRU, keyBreakers.Values
      ensures Valid() && fresh(keyBreakers.Values - old(keyBreakers.Values))
      ensures View() == B.End(config, old(View()), key, now, ok, slot)
    {
      if !ok {
        RecordFailure(key, now);
      } else {
        RecordSuccess(key);
      }
      if slot {
        halfOpenRequests := Dec32(halfOpenRequests);
      }
    }

    method RecordFailure(key: Key, now: int)
      requires Valid()
      modifies this, keyBreakerLRU, keyBreakers.Values
      ensures Valid() && fresh(keyBreakers.Values - old(keyBreakers.Values))
      ensures View() == B.RecordFailure(config, old(View()), key, now)
    {
      TripOnFailure(now);
      RecordKeyFailure(key, now);
    }

    /** The first half of RecordFailure: the global circuit. */
    method TripOnFailure(now: int)
      modifies this`state, this`failures, this`lastFailureTime
      ensures CoreView() == CircuitFailure(config, old(CoreView()), now)
    {
      failures := Inc32(failures);
      var count := failures;
      lastFailureTime := now;
      if state == Closed && count >= config.failureThreshold {
        state := Open;
      } else if state == HalfOpen {
        state := Open;
        failures := 0;
      }
    }

    method RecordSuccess(key: Key)
      requires Valid()
      modifies this, keyBreakerLRU, keyBreakers.Values
      ensures Valid() && keyBreakers == old(keyBreakers)
      ensures View() == B.RecordSuccess(config, old(View()), key)
    {
      ResetKeyBreaker(key);
      match state
      case HalfOpen =>
        successes := Inc32(successes);
        if successes >= config.successThreshold {
          state := Closed;
          failures := 0;
          successes := 0;
        }
      case Closed =>
        failures := 0;
      case Open =>
    }

    /** The callback of the LRU cache. */
    method OnEvict(key: Key)
      modifies this`keyBreakers
      ensures keyBreakers == old(keyBreakers) - {key}
    {
      keyBreakers := keyBreakers - {key};
    }

    /** Runs under the mutex: the stores differ in between and agree again at the end. */
    method RecordKeyFailure(key: Key, now: int)
      requires Valid()
      modifies this`keyBreakers, this`records, keyBreakerLRU, keyBreakers.Values
      ensures Valid() && fresh(keyBreakers.Values - old(keyBreakers.Values))
      ensures TableView() == KeyFailure(config, old(TableView()), key, now)
    {
      var found := keyBreakerLRU.Get(key);
      if found != null {
        assert found == keyBreakers[key] && found.failures == records[key].failures;
        Store(key, Inc32(found.failures), now);
        return;
      }
      AddKeyBreaker(key, now);
    }

    /** The rest of RecordKeyFailure, for a key without a breaker. */
    method AddKeyBreaker(key: Key, now: int)
      requires Valid() && key !in keyBreakers
      modifies this`keyBreakers, this`records, keyBreakerLRU
      ensures Valid() && fresh(keyBreakers.Values - old(keyBreakers.Values))
      ensures TableView() == KeyFailure(config, old(TableView()), key, now)
    {
      var kb := new KeyBreaker(key, 1, now);
      var evicted := keyBreakerLRU.Add(key, kb);
      if evicted != [] {
        OnEvict(evicted[0]);
        records := records - {evicted[0]};
      }
      assert keyBreakerLRU.items == keyBreakers[key := kb];
      keyBreakers := keyBreakers[key := kb];
      records := records[key := KeyRecord(1, now)];
    }

    method ResetKeyBreaker(key: Key)
      requires Valid()
      modifies this`records, keyBreakerLRU, keyBreakers.Values
      ensures Valid()
      ensures TableView() == ResetKey(old(TableView()), key)
    {
      if key in keyBreakers {
        var kb := keyBreakers[key];
        Store(key, 0, kb.lastFailureTime);
        assert TableView() == ClearFailures(old(TableView()), key);
        var _ := keyBreakerLRU.Get(key);
      }
    }

    method Reset()
      requires Valid()
      modifies this, keyBreakerLRU
      ensures Valid()
      ensures View() == B.Reset(old(View()))
    {
      state := Closed;
      failures := 0;
      successes := 0;
      halfOpenRequests := 0;
      keyBreakers, records := map[], map[];
      var evicted := keyBreakerLRU.Purge();
      for i := 0 to |evicted|
        invariant keyBreakers == map[]
        invariant View() == B.Reset(old(View())) && Valid()
      {
        OnEvict(evicted[i]);
      }
    }

    /** A request that nothing interrupts; `ok` is the outcome the engine would give it. */
    method Execute(key: Key, begun: int, ended: int, ok: bool) returns (verdict: Verdict)
      requires Valid()
      modifies this, keyBreakerLRU, keyBreakers.Values
      ensures Valid() && fresh(keyBreakers.Values - old(keyBreakers.Values))
      ensures var (s, v) := B.Begin(config, old(View()), key, begun);
              verdict == v && View() == if v.Admitted? then B.End(config, s, key, ended, ok, v.slot) else s
    {
      verdict := Begin(key, begun);
      if verdict.Admitted? {
        End(key, ended, ok, verdict.slot);
      }
    }
  }
}
