/** The sharded tracker, updated in place, and its refinement of a single lease table. */
module RefreshTrackers {
  import opened Machine
  import opened LeaseTable

  const MIN_REFRESH_TRACKER_TTL := 5 * 60 * SECOND

  method Fnv32a(key: Key) returns (hash: bv32)
    ensures hash == Fnv1a(key)
  {
    hash := 2166136261;
    for i := 0 to |key|
      invariant hash == Fnv1a(key[..i])
    {
      assert key[..i + 1][..i] == key[..i];
      hash := Mix(hash, key[i]);
    }
    assert key[..|key|] == key;
  }

  class RefreshShard {
    var entries: map<Key, int>

    constructor ()
      ensures entries == map[]
    {
      entries := map[];
    }
  }

  /** The keys of a table that belong to the first n shards. */
  ghost function KeysBelow(m: Table, n: nat): set<Key> {
    set key | key in m && ShardOf(key) < n
  }

  lemma OneMoreShard(m: Table, n: nat, here: set<Key>)
    requires forall key :: key in here <==> key in m && ShardOf(key) == n
    ensures |KeysBelow(m, n + 1)| == |KeysBelow(m, n)| + |here|
  {
    assert KeysBelow(m, n + 1) == KeysBelow(m, n) + here;
    assert KeysBelow(m, n) !! here;
  }

  class RefreshTracker {
    const ttl: int
    const shards: seq<RefreshShard>
    var shardIndex: nat       // where the cleanup goroutine's next tick sweeps
    ghost var leases: Table   // the single table the shards stand for

    ghost predicate Valid()
      reads this, shards
    {
      && |shards| == NUM_SHARDS
      && (forall i, j :: 0 <= i < NUM_SHARDS && 0 <= j < NUM_SHARDS && shards[i] == shards[j] ==> i == j)
      && shardIndex < NUM_SHARDS
      && (forall i, key :: 0 <= i < NUM_SHARDS ==>
            (key in shards[i].entries <==> key in leases && ShardOf(key) == i))
      && (forall i, key :: 0 <= i < NUM_SHARDS && key in shards[i].entries ==>
            shards[i].entries[key] == leases[key])
    }

    constructor (ttl: int)
      ensures Valid() && fresh(shards)
      ensures leases == map[] && shardIndex == 0
      ensures this.ttl == if ttl <= 0 then MIN_REFRESH_TRACKER_TTL else ttl
    {
      var all: seq<RefreshShard> := [];
      for i := 0 to NUM_SHARDS
        invariant |all| == i && fresh(all)
        invariant forall j :: 0 <= j < i ==> all[j].entries == map[]
        invariant forall j, k :: 0 <= j < k < i ==> all[j] != all[k]
      {
        var shard := new RefreshShard();
        all := all + [shard];
      }
      this.ttl := if ttl <= 0 then MIN_REFRESH_TRACKER_TTL else ttl;
      shards := all;
      shardIndex := 0;
      leases := map[];
    }

    /** The one shard that may hold `key`. */
    method GetShard(key: Key) returns (shard: RefreshShard)
      requires Valid()
      ensures shard == shards[ShardOf(key)]
      ensures forall i :: 0 <= i < NUM_SHARDS && key in shards[i].entries ==> shard == shards[i]
    {
      var hash := Fnv32a(key);
      shard := shards[(hash & 15) as nat];
    }

    method TrySet(key: Key, now: int) returns (won: bool)
      requires Valid()
      modifies this`leases, shards
      ensures Valid()
      ensures won == !Held(old(leases), key, now)
      ensures leases == LeaseTable.TrySet(old(leases), key, now, ttl)
    {
      var shard := GetShard(key);
      if key in shard.entries {
        if now < shard.entries[key] {
          return false;
        }
      }
      shard.entries := shard.entries[key := now + ttl];
      leases := leases[key := now + ttl];
      return true;
    }

    method Delete(key: Key)
      requires Valid()
      modifies this`leases, shards
      ensures Valid()
      ensures leases == LeaseTable.Delete(old(leases), key)
    {
      var shard := GetShard(key);
      shard.entries := shard.entries - {key};
      leases := leases - {key};
    }

    method Get(key: Key, now: int) returns (refreshing: bool)
      requires Valid()
      ensures refreshing == Held(leases, key, now)
    {
      var shard := GetShard(key);
      if key in shard.entries {
        return now < shard.entries[key];
      }
      return false;
    }

    method CleanupShard(index: nat, now: int)
      requires Valid() && index < NUM_SHARDS
      modifies this`leases, shards[index]
      ensures Valid()
      ensures leases == Sweep(old(leases), index, now)
    {
      var shard := shards[index];
      var unvisited := shard.entries.Keys;
      while unvisited != {}
        invariant leases == old(leases)
        invariant unvisited <= old(shard.entries).Keys
        invariant forall key :: key in shard.entries <==>
                    key in old(shard.entries) && (key in unvisited || now <= old(shard.entries)[key])
        invariant forall key :: key in shard.entries ==> shard.entries[key] == old(shard.entries)[key]
        decreases unvisited
      {
        var key :| key in unvisited;
        unvisited := unvisited - {key};
        if shard.entries[key] < now {
          shard.entries := shard.entries - {key};
        }
      }
      leases := Sweep(leases, index, now);
    }

    /** One round of the cleanup goroutine: a tick sweeps one shard and moves on to the next. */
    method Tick(now: int)
      requires Valid()
      modifies this, shards
      ensures Valid()
      ensures leases == Sweep(old(leases), old(shardIndex), now)
      ensures shardIndex == (old(shardIndex) + 1) % NUM_SHARDS
    {
      CleanupShard(shardIndex, now);
      shardIndex := (shardIndex + 1) % NUM_SHARDS;
    }

    /** All shards in turn; each one reads the clock for itself. */
    method CleanupExpired(clocks: seq<int>)
      requires Valid() && |clocks| == NUM_SHARDS
      modifies this`leases, shards
      ensures Valid()
      ensures leases == map key | key in old(leases) && clocks[ShardOf(key)] <= old(leases)[key] :: old(leases)[key]
    {
      for i := 0 to NUM_SHARDS
        invariant Valid()
        invariant leases == map key | key in old(leases)
                                      && !(ShardOf(key) < i && old(leases)[key] < clocks[ShardOf(key)])
                              :: old(leases)[key]
      {
        CleanupShard(i, clocks[i]);
      }
    }

    /** The number of markers, counted shard by shard while no other operation runs. */
    method Size() returns (total: nat)
      requires Valid()
      ensures total == |leases|
    {
      total := 0;
      for i := 0 to NUM_SHARDS
        invariant total == |KeysBelow(leases, i)|
      {
        OneMoreShard(leases, i, shards[i].entries.Keys);
        total := total + |shards[i].entries|;
      }
      assert KeysBelow(leases, NUM_SHARDS) == leases.Keys;
    }
  }
}
