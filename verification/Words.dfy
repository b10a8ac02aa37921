/** Machine words and the position arithmetic shared by every model of the ring buffer. */
module Words {
  const POW32: nat := 0x1_0000_0000
  const POW64: nat := 0x1_0000_0000_0000_0000

  newtype byte = x: int | 0 <= x < 256

  /** The 64-bit index behind a running byte count. */
  function U64(n: nat): (idx: nat)
    ensures idx < POW64
  {
    n % POW64
  }

  /** `uint64_t` addition and subtraction, with wrap-around. */
  function Add64(a: nat, b: nat): (c: nat)
    requires a < POW64 && b < POW64
    ensures c < POW64
  {
    if a + b < POW64 then a + b else a + b - POW64
  }

  function Sub64(a: nat, b: nat): (c: nat)
    requires a < POW64 && b < POW64
    ensures c < POW64
  {
    if b <= a then a - b else a + POW64 - b
  }

  /** Truncation to `uint32_t`, and its subtraction. */
  function U32(x: nat): (y: nat)
    ensures y < POW32 && (x < POW32 ==> y == x)
  {
    x % POW32
  }

  function Sub32(a: nat, b: nat): (c: nat)
    requires a < POW32 && b < POW32
    ensures c < POW32
  {
    if b <= a then a - b else a + POW32 - b
  }

  function Min(a: nat, b: nat): nat { if a < b then a else b }

  /** `n % cap` by repeated subtraction, so that proofs about positions stay linear;
      PosIsRemainder identifies the two. */
  function Pos(n: nat, cap: nat): (p: nat)
    requires 0 < cap
    ensures p < cap
  {
    if n < cap then n else Pos(n - cap, cap)
  }

  /** The capacity divides 2^64: positions do not notice a 64-bit index wrapping. */
  ghost predicate DividesWordRange(cap: nat) {
    0 < cap && Pos(POW64, cap) == 0
  }

  /** Where byte `k` of a copy starting at position `pos` lands: up to the end of the
      buffer first, then on from its beginning. */
  function Wrap(pos: nat, k: nat, cap: nat): (j: nat)
    requires pos < cap && k <= cap
    ensures j < cap
  {
    if k < cap - pos then pos + k else k - (cap - pos)
  }

  lemma {:induction false} PosIsRemainder(n: nat, cap: nat)
    requires 0 < cap
    ensures Pos(n, cap) == n % cap
  {
    if n >= cap {
      PosIsRemainder(n - cap, cap);
      assert n == ((n - cap) / cap + 1) * cap + (n - cap) % cap;
      RemainderIsUnique(n, (n - cap) / cap + 1, (n - cap) % cap, cap);
    }
  }

  lemma RemainderIsUnique(x: int, q: int, r: int, d: int)
    requires 0 <= r < d && x == q * d + r
    ensures x % d == r
  {
    assert (q - x / d) * d == x % d - r;
    MulBounds(q - x / d, d);
  }

  lemma MulBounds(q: int, d: int)
    requires 0 < d
    ensures q >= 1 ==> q * d >= d
    ensures q <= -1 ==> q * d <= -d
  {
  }

  lemma {:induction false} PosAdd(n: nat, k: nat, cap: nat)
    requires 0 < cap && k <= cap
    ensures Pos(n + k, cap) == Wrap(Pos(n, cap), k, cap)
    decreases n
  {
    if n >= cap {
      PosAdd(n - cap, k, cap);
    } else if n + k >= cap {
      assert Pos(n + k - cap, cap) == n + k - cap;
    }
  }

  lemma {:induction false} PosAddMultiple(n: nat, m: nat, cap: nat)
    requires 0 < cap && Pos(m, cap) == 0
    ensures Pos(n + m, cap) == Pos(n, cap)
    decreases m
  {
    if m >= cap {
      PosAddMultiple(n, m - cap, cap);
    }
  }

  /** Within a window of `cap` consecutive numbers, positions do not repeat. */
  lemma PosDistinct(i: nat, j: nat, cap: nat)
    requires 0 < cap && i < j < i + cap
    ensures Pos(i, cap) != Pos(j, cap)
  {
    PosAdd(i, j - i, cap);
  }

  /** Reducing a count to a 64-bit index keeps its position when the capacity divides 2^64,
      and trivially while the count fits. */
  lemma {:induction false} IndexKeepsPosition(n: nat, cap: nat)
    requires 0 < cap
    requires DividesWordRange(cap) || n < POW64
    ensures Pos(U64(n), cap) == Pos(n, cap)
    decreases n
  {
    if n >= POW64 {
      assert U64(n) == U64(n - POW64);
      IndexKeepsPosition(n - POW64, cap);
      PosAddMultiple(n - POW64, POW64, cap);
    }
  }

  /** The slot a copy uses, in terms of the running byte count behind its index. */
  lemma SlotOfCount(n: nat, k: nat, cap: nat)
    requires 0 < cap && k <= cap
    requires DividesWordRange(cap) || n < POW64
    ensures Wrap(Pos(U64(n), cap), k, cap) == Pos(n + k, cap)
  {
    IndexKeepsPosition(n, cap);
    PosAdd(n, k, cap);
  }

  /** Advancing an index by `k` bytes moves its position as a copy of `k` bytes does. */
  lemma PositionAfter(idx: nat, k: nat, cap: nat)
    requires 0 < cap && k <= cap && k < POW64 && idx < POW64
    requires DividesWordRange(cap) || idx + k < POW64
    ensures Pos(Add64(idx, k), cap) == Wrap(Pos(idx, cap), k, cap)
  {
    PosAdd(idx, k, cap);
    if idx + k >= POW64 {
      PosAddMultiple(idx + k - POW64, POW64, cap);
    }
  }

  /** Index arithmetic follows the counts behind the indices, whatever wrapped. */
  lemma IndexArithmetic(a: nat, b: nat, k: nat)
    requires k < POW64
    ensures Add64(U64(a), k) == U64(a + k)
    ensures 0 <= a - b < POW64 ==> Sub64(U64(a), U64(b)) == a - b
  {
  }

  /** A wrapping counter follows the true count. */
  lemma CounterFollows(n: nat, k: nat)
    ensures U64(U64(n) + k) == U64(n + k) && U32(U32(n) + k) == U32(n + k)
  {
  }
}
