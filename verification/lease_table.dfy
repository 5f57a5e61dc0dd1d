/**
 The refresh tracker as its callers see it: one table from key to the instant at which
 the marker of that key runs out. Shards appear only as the unit a sweep works on.
 Every operation of the tracker holds its shard's lock and reads the clock under it, so
 a concurrent execution is a sequence of operations stamped with non-decreasing times.
 */
module LeaseTable {
  import opened Machine

  type Table = map<Key, int>

  const NUM_SHARDS := 16

  /** One round of FNV-1a; multiplication of `bv32` values wraps as `uint32` does. */
  function Mix(hash: bv32, byte: bv8): bv32 {
    (hash ^ (byte as bv32)) * 16777619
  }

  function Fnv1a(key: Key): bv32 {
    if key == [] then 2166136261
    else Mix(Fnv1a(key[..|key| - 1]), key[|key| - 1])
  }

  function ShardOf(key: Key): (shard: nat)
    ensures shard < NUM_SHARDS
  {
    (Fnv1a(key) & 15) as nat
  }

  /** A published FNV-1a vector: the 32-bit hash of "foobar". */
  lemma Fnv1aOfFoobar()
    ensures Fnv1a([0x66, 0x6f, 0x6f, 0x62, 0x61, 0x72]) == 0xbf9cf968
    ensures ShardOf([0x66, 0x6f, 0x6f, 0x62, 0x61, 0x72]) == 8
  {
    var k: Key := [0x66, 0x6f, 0x6f, 0x62, 0x61, 0x72];
    assert k[..5] == [0x66, 0x6f, 0x6f, 0x62, 0x61];
    assert k[..5][..4] == [0x66, 0x6f, 0x6f, 0x62];
    assert k[..5][..4][..3] == [0x66, 0x6f, 0x6f];
    assert k[..5][..4][..3][..2] == [0x66, 0x6f];
    assert k[..5][..4][..3][..2][..1] == [0x66];
    assert k[..5][..4][..3][..2][..1][..0] == [];
    assert Fnv1a(k[..5][..4][..3][..2][..1]) == 0xe30c2799;
    assert Fnv1a(k[..5][..4][..3][..2]) == 0x6222e842;
    assert Fnv1a(k[..5][..4][..3]) == 0xa9f37ed7;
    assert Fnv1a(k[..5][..4]) == 0x3f5076ef;
    assert Fnv1a(k[..5]) == 0x39aaa18a;
  }

  // ---------- The operations on one table ----------

  predicate Held(m: Table, key: Key, now: int) {
    key in m && now < m[key]
  }

  function TrySet(m: Table, key: Key, now: int, ttl: int): Table {
    if Held(m, key, now) then m else m[key := now + ttl]
  }

  function Delete(m: Table, key: Key): Table {
    m - {key}
  }

  function Sweep(m: Table, shard: nat, now: int): Table {
    map key | key in m && !(ShardOf(key) == shard && m[key] < now) :: m[key]
  }

  // ---------- Runs ----------

  datatype Op = SetOp(key: Key) | DeleteOp(key: Key) | GetOp(key: Key) | SweepOp(shard: nat)
  datatype Event = Event(op: Op, now: int)
  type History = seq<Event>

  ghost predicate Ordered(h: History) {
    forall i, j :: 0 <= i < j < |h| ==> h[i].now <= h[j].now
  }

  function Step(m: Table, e: Event, ttl: int): Table {
    match e.op
    case SetOp(key) => TrySet(m, key, e.now, ttl)
    case DeleteOp(key) => Delete(m, key)
    case GetOp(_) => m
    case SweepOp(shard) => Sweep(m, shard, e.now)
  }

  function Run(m: Table, h: History, ttl: int): Table {
    if h == [] then m else Step(Run(m, h[..|h| - 1], ttl), h[|h| - 1], ttl)
  }

  /** What an operation tells its caller: TrySet and Get answer, the others do not. */
  function Answer(m: Table, e: Event): seq<bool> {
    match e.op
    case SetOp(key) => [!Held(m, key, e.now)]
    case GetOp(key) => [Held(m, key, e.now)]
    case _ => []
  }

  function Answers(m: Table, h: History, ttl: int): seq<bool> {
    if h == [] then []
    else Answers(m, h[..|h| - 1], ttl) + Answer(Run(m, h[..|h| - 1], ttl), h[|h| - 1])
  }

  /** The event at index i is a TrySet that won its key. */
  predicate Wins(m: Table, h: History, ttl: int, i: nat, key: Key)
    requires i < |h|
  {
    h[i].op == SetOp(key) && !Held(Run(m, h[..i], ttl), key, h[i].now)
  }

  // ---------- Sweeping is invisible ----------

  function WithoutSweeps(h: History): (r: History)
    ensures |r| <= |h|
  {
    if h == [] then []
    else WithoutSweeps(h[..|h| - 1]) + if h[|h| - 1].op.SweepOp? then [] else [h[|h| - 1]]
  }

  /** No operation at or after `now` can tell the two tables apart. */
  ghost predicate SameFrom(a: Table, b: Table, now: int) {
    forall key :: Held(a, key, now) || Held(b, key, now) ==> key in a && key in b && a[key] == b[key]
  }

  lemma SameLater(a: Table, b: Table, now: int, later: int)
    requires SameFrom(a, b, now) && now <= later
    ensures SameFrom(a, b, later)
  {
  }

  lemma StepKeepsSame(a: Table, b: Table, e: Event, ttl: int)
    requires SameFrom(a, b, e.now)
    ensures SameFrom(Step(a, e, ttl), if e.op.SweepOp? then b else Step(b, e, ttl), e.now)
    ensures !e.op.SweepOp? ==> Answer(a, e) == Answer(b, e)
  {
  }

  lemma {:induction false} SweepsKeepSame(m: Table, h: History, ttl: int, now: int)
    requires Ordered(h)
    requires h != [] ==> h[|h| - 1].now <= now
    ensures SameFrom(Run(m, h, ttl), Run(m, WithoutSweeps(h), ttl), now)
  {
    if h != [] {
      var h', e := h[..|h| - 1], h[|h| - 1];
      SweepsKeepSame(m, h', ttl, e.now);
      var w := WithoutSweeps(h');
      StepKeepsSame(Run(m, h', ttl), Run(m, w, ttl), e, ttl);
      if e.op.SweepOp? {
        assert WithoutSweeps(h) == w;
      } else {
        assert (w + [e])[..|w|] == w;
      }
      SameLater(Run(m, h, ttl), Run(m, WithoutSweeps(h), ttl), e.now, now);
    }
  }

  /**
   Every answer a caller gets in a run is the answer it would have got had no sweep run at
   all. Two runs that differ only in where sweeps were inserted therefore answer alike.
   */
  lemma {:induction false} SweepsAreInvisible(m: Table, h: History, ttl: int)
    requires Ordered(h)
    ensures Answers(m, h, ttl) == Answers(m, WithoutSweeps(h), ttl)
  {
    if h != [] {
      var h', e := h[..|h| - 1], h[|h| - 1];
      SweepsAreInvisible(m, h', ttl);
      SweepsKeepSame(m, h', ttl, e.now);
      var w := WithoutSweeps(h');
      StepKeepsSame(Run(m, h', ttl), Run(m, w, ttl), e, ttl);
      if e.op.SweepOp? {
        assert w == WithoutSweeps(h);
      } else {
        assert (w + [e])[..|w|] == w;
      }
    }
  }

  // ---------- The round-robin sweep ----------

  function Sweeps(h: History): (n: nat)
    ensures n <= |h|
  {
    if h == [] then 0
    else Sweeps(h[..|h| - 1]) + if h[|h| - 1].op.SweepOp? then 1 else 0
  }

  /** The sweeps of h visit the shards in cyclic order, the first one visiting `start`. */
  ghost predicate RoundRobin(h: History, start: nat) {
    h == [] ||
    (RoundRobin(h[..|h| - 1], start) &&
     (h[|h| - 1].op.SweepOp? ==> h[|h| - 1].op.shard == (start + Sweeps(h[..|h| - 1])) % NUM_SHARDS))
  }

  /** How many sweeps pass before the shard of `key` has its turn. */
  function Turn(key: Key, start: nat): (n: nat)
    requires start < NUM_SHARDS
    ensures n < NUM_SHARDS && (start + n) % NUM_SHARDS == ShardOf(key)
  {
    (ShardOf(key) + NUM_SHARDS - start) % NUM_SHARDS
  }

  lemma {:induction false} UnsweptHaveTheirTurnAhead(m: Table, h: History, ttl: int, start: nat, t0: int, key: Key)
    requires start < NUM_SHARDS && ttl >= 0
    requires RoundRobin(h, start)
    requires forall i :: 0 <= i < |h| ==> t0 <= h[i].now
    requires key in Run(m, h, ttl) && Run(m, h, ttl)[key] < t0
    ensures Sweeps(h) <= Turn(key, start)
  {
    if h != [] {
      UnsweptHaveTheirTurnAhead(m, h[..|h| - 1], ttl, start, t0, key);
    }
  }

  /**
   Sixteen consecutive ticks clear the table of everything that had run out before the
   first of them, whatever is claimed and released meanwhile: each marker still there
   expires no earlier than the first tick, so an older one is gone or was claimed again.
   */
  lemma {:induction false} SixteenTicksClearTheTable(m: Table, h: History, ttl: int, start: nat, t0: int)
    requires start < NUM_SHARDS && ttl >= 0
    requires RoundRobin(h, start) && Sweeps(h) >= NUM_SHARDS
    requires forall i :: 0 <= i < |h| ==> t0 <= h[i].now
    ensures forall key :: key in Run(m, h, ttl) ==> t0 <= Run(m, h, ttl)[key]
  {
    forall key | key in Run(m, h, ttl)
      ensures t0 <= Run(m, h, ttl)[key]
    {
      if Run(m, h, ttl)[key] < t0 {
        UnsweptHaveTheirTurnAhead(m, h, ttl, start, t0, key);
      }
    }
  }

  /** A marker that nobody deletes stays in the table for as long as it has not strictly run out. */
  lemma {:induction false} SweepsSpareTheLiving(m: Table, h: History, ttl: int, key: Key)
    requires Ordered(h) && ttl >= 0
    requires key in m
    requires forall i :: 0 <= i < |h| ==> h[i].op != DeleteOp(key) && h[i].now <= m[key]
    ensures key in Run(m, h, ttl) && m[key] <= Run(m, h, ttl)[key]
  {
    if h != [] {
      SweepsSpareTheLiving(m, h[..|h| - 1], ttl, key);
    }
  }

  // ---------- Spacing of leases ----------

  lemma {:induction false} LeaseLasts(m: Table, h: History, ttl: int, i: nat, n: nat, key: Key)
    requires Ordered(h) && i < n <= |h|
    requires Wins(m, h, ttl, i, key)
    requires forall x :: i < x < n ==> h[x].op != DeleteOp(key)
    ensures h[n - 1].now < h[i].now + ttl ==>
              key in Run(m, h[..n], ttl) && h[i].now + ttl <= Run(m, h[..n], ttl)[key]
    decreases n
  {
    assert h[..n][..n - 1] == h[..n - 1];
    if n > i + 1 {
      LeaseLasts(m, h, ttl, i, n - 1, key);
    }
  }

  /** Two wins of one key with no Delete of it between them are at least ttl apart. */
  lemma {:induction false} LeasesAreSpaced(m: Table, h: History, ttl: int, i: nat, j: nat, key: Key)
    requires Ordered(h) && i < j < |h|
    requires Wins(m, h, ttl, i, key) && Wins(m, h, ttl, j, key)
    requires forall x :: i < x < j ==> h[x].op != DeleteOp(key)
    ensures h[i].now + ttl <= h[j].now
  {
    LeaseLasts(m, h, ttl, i, j, key);
    assert h[j - 1].now <= h[j].now;
  }

  // ---------- What a marker means ----------

  /** The key was won at i and has not been deleted since. */
  ghost predicate WonAt(h: History, ttl: int, i: nat, key: Key) {
    i < |h| && Wins(map[], h, ttl, i, key) && forall x :: i < x < |h| ==> h[x].op != DeleteOp(key)
  }

  lemma {:induction false} MarkerComesFromAWin(h: History, ttl: int, key: Key) returns (i: nat)
    requires key in Run(map[], h, ttl)
    ensures WonAt(h, ttl, i, key) && Run(map[], h, ttl)[key] == h[i].now + ttl
  {
    var h', e := h[..|h| - 1], h[|h| - 1];
    if e.op == SetOp(key) && !Held(Run(map[], h', ttl), key, e.now) {
      i := |h| - 1;
    } else {
      i := MarkerComesFromAWin(h', ttl, key);
      assert h[..i] == h'[..i];
      assert forall x :: i < x < |h'| ==> h[x] == h'[x];
    }
  }

  /**
   In every run from an empty table a key counts as being refreshed exactly while some win
   of it, not deleted since, is less than ttl old; Get answers that, and TrySet wins otherwise.
   Sweeps and other keys play no part.
   */
  lemma {:induction false} HeldMeansRecentWin(h: History, ttl: int, key: Key, now: int)
    requires Ordered(h) && (h != [] ==> h[|h| - 1].now <= now)
    ensures Held(Run(map[], h, ttl), key, now) <==> exists i: nat :: WonAt(h, ttl, i, key) && now < h[i].now + ttl
    ensures var refreshing := exists i: nat :: WonAt(h, ttl, i, key) && now < h[i].now + ttl;
            && Answer(Run(map[], h, ttl), Event(GetOp(key), now)) == [refreshing]
            && Answer(Run(map[], h, ttl), Event(SetOp(key), now)) == [!refreshing]
  {
    if Held(Run(map[], h, ttl), key, now) {
      var i := MarkerComesFromAWin(h, ttl, key);
      assert WonAt(h, ttl, i, key);
    }
    if i: nat :| WonAt(h, ttl, i, key) && now < h[i].now + ttl {
      LeaseLasts(map[], h, ttl, i, |h|, key);
      assert h[..|h|] == h;
    }
  }
}
