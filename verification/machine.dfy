/** What all parts share: keys, callers, and the fixed-width integers of the Go runtime. */
module Machine {
  type Key = seq<bv8>   // a Go string is a sequence of bytes
  type Caller = nat     // a goroutine

  const MIN_INT32 := -0x8000_0000
  const MAX_INT32 := 0x7FFF_FFFF
  const MIN_INT64 := -0x8000_0000_0000_0000
  const MAX_INT64 := 0x7FFF_FFFF_FFFF_FFFF

  const MILLISECOND := 1_000_000
  const SECOND := 1_000_000_000

  predicate IsInt64(x: int) {
    MIN_INT64 <= x <= MAX_INT64
  }

  /** `atomic.Int32.Add(1)`. */
  function Inc32(x: int): int {
    if x == MAX_INT32 then MIN_INT32 else x + 1
  }

  /** `atomic.Int32.Add(-1)`. */
  function Dec32(x: int): int {
    if x == MIN_INT32 then MAX_INT32 else x - 1
  }

  /** Truncation of an exact result to 64 bits, two's complement. */
  function Wrap64(x: int): (r: int)
    ensures IsInt64(r)
    ensures IsInt64(x) ==> r == x
  {
    (x - MIN_INT64) % 0x1_0000_0000_0000_0000 + MIN_INT64
  }

  /** Go's integer division: it truncates toward zero. */
  function Quot(x: int, y: int): int
    requires y > 0
  {
    if x < 0 then -(-x / y) else x / y
  }

  /** Atomic adds go round in 32 bits, and each undoes the other. */
  lemma AddsGoRound(x: int)
    requires MIN_INT32 <= x <= MAX_INT32
    ensures MIN_INT32 <= Inc32(x) <= MAX_INT32 && (Inc32(x) - x - 1) % 0x1_0000_0000 == 0
    ensures MIN_INT32 <= Dec32(x) <= MAX_INT32 && (x - Dec32(x) - 1) % 0x1_0000_0000 == 0
    ensures Dec32(Inc32(x)) == x && Inc32(Dec32(x)) == x
  {
  }

  /** Truncation loses whole multiples of 2^64 and nothing else. */
  lemma {:induction false} WrapIsCongruent(x: int)
    ensures exists k :: Wrap64(x) == x + k * 0x1_0000_0000_0000_0000
  {
    var k := (x - MIN_INT64) / 0x1_0000_0000_0000_0000;
    assert Wrap64(x) == x + (-k) * 0x1_0000_0000_0000_0000;
  }

  /** Go's division of milliseconds loses less than one of them, and never away from zero. */
  lemma {:induction false} QuotTruncates(x: int)
    ensures x >= 0 ==> 0 <= x - Quot(x, MILLISECOND) * MILLISECOND < MILLISECOND
    ensures x <= 0 ==> -MILLISECOND < x - Quot(x, MILLISECOND) * MILLISECOND <= 0
  {
  }
}
