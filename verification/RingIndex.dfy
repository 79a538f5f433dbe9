/** 32-bit free-running ring indices: `head & mask` for a power-of-two capacity. */
module RingIndex {
  import opened Bytes

  const WRAP := 0x1_0000_0000

  function Pow2(k: nat): (p: nat)
    ensures p > 0
  {
    if k == 0 then 1 else 2 * Pow2(k - 1)
  }

  ghost predicate PowerOfTwo(n: nat) { exists k: nat :: Pow2(k) == n }

  /** Capacities the initialisers accept, as 32-bit words. */
  ghost predicate Capacity(cap: nat) { 0 < cap < WRAP && PowerOfTwo(cap) }

  /** A 32-bit difference of two free-running counters. */
  function Gap(head: u32, tail: u32): u32 {
    if tail <= head then head - tail else head - tail + WRAP
  }

  function Bump(i: u32, n: u32): u32 {
    if i + n < WRAP then i + n else i + n - WRAP
  }

  lemma AtLeastOnce(a: int, cap: int)
    requires a >= 1 && cap >= 0
    ensures a * cap >= cap
  {
  }

  lemma Euclid(cap: int, q: int, r: int, q': int, r': int)
    requires q * cap + r == q' * cap + r' && 0 <= r < cap && 0 <= r' < cap
    ensures q == q' && r == r'
  {
    assert (q - q') * cap == r' - r && (q' - q) * cap == r - r';
    if q > q' {
      AtLeastOnce(q - q', cap);
    } else if q < q' {
      AtLeastOnce(q' - q, cap);
    }
  }

  lemma ModUnique(x: int, cap: nat, q: int, r: int)
    requires cap > 0 && x == q * cap + r && 0 <= r < cap
    ensures x % cap == r && x / cap == q
  {
    Euclid(cap, q, r, x / cap, x % cap);
  }

  /** The buffer slot of the n-th element ever queued: n modulo the capacity. */
  function Slot(n: nat, cap: nat): (r: nat)
    requires cap > 0
    ensures r < cap
  {
    if n < cap then n else Slot(n - cap, cap)
  }

  lemma {:induction false} SlotIsMod(n: nat, cap: nat)
    requires cap > 0
    ensures Slot(n, cap) == n % cap
  {
    if n < cap {
      ModUnique(n, cap, 0, n);
    } else {
      SlotIsMod(n - cap, cap);
      var q, r := (n - cap) / cap, (n - cap) % cap;
      assert (q + 1) * cap + r == q * cap + r + cap;
      ModUnique(n, cap, q + 1, r);
    }
  }

  lemma ResiduesDiffer(i: nat, j: nat, cap: nat)
    requires i < j < i + cap
    ensures i % cap != j % cap
  {
    var q := j - i + i % cap;
    if q < cap {
      ModUnique(j, cap, i / cap, q);
    } else {
      assert i / cap * cap + q == (i / cap + 1) * cap + (q - cap);
      ModUnique(j, cap, i / cap + 1, q - cap);
    }
  }

  /** Two counters less than a capacity apart use different slots. */
  lemma SlotsDiffer(i: nat, j: nat, cap: nat)
    requires i < j < i + cap
    ensures Slot(i, cap) != Slot(j, cap)
  {
    SlotIsMod(i, cap);
    SlotIsMod(j, cap);
    ResiduesDiffer(i, j, cap);
  }

  lemma {:induction false} PowersDivide(a: nat, b: nat)
    requires a <= b
    ensures Pow2(b) % Pow2(a) == 0
  {
    if a == b {
      ModUnique(Pow2(b), Pow2(a), 1, 0);
    } else {
      PowersDivide(a, b - 1);
      var q := Pow2(b - 1) / Pow2(a);
      assert Pow2(b) == 2 * (q * Pow2(a)) == (2 * q) * Pow2(a);
      ModUnique(Pow2(b), Pow2(a), 2 * q, 0);
    }
  }

  lemma {:induction false} PowersGrow(a: nat, b: nat)
    requires a <= b
    ensures Pow2(a) <= Pow2(b)
  {
    if a < b { PowersGrow(a, b - 1); }
  }

  lemma WrapIsPower()
    ensures Pow2(32) == WRAP
  {
    assert Pow2(8) == 0x100;
    assert Pow2(16) == 0x1_0000;
    assert Pow2(24) == 0x100_0000;
  }

  /** A power of two below 2^32 divides 2^32. */
  lemma DividesWrap(cap: nat)
    requires Capacity(cap)
    ensures WRAP % cap == 0
  {
    var k: nat :| Pow2(k) == cap;
    WrapIsPower();
    if k > 32 { PowersGrow(32, k); }
    PowersDivide(k, 32);
  }

  /** And so it is at most half of it. */
  lemma AtMostHalf(cap: nat)
    requires Capacity(cap)
    ensures 2 * cap <= WRAP
  {
    DividesWrap(cap);
    var q := WRAP / cap;
    if q < 2 { Euclid(cap, 1, WRAP - cap, q, 0); }
    AtLeastOnce(q - 1, cap);
    assert WRAP == (q - 1) * cap + cap;
  }

  lemma Nested(q: int, k: int, cap: int, s: int, r: int)
    ensures q * (k * cap) + (s * cap + r) == (q * k + s) * cap + r
  {
  }

  lemma WrapResidue(n: nat, cap: nat)
    requires Capacity(cap)
    ensures (n % WRAP) % cap == n % cap
  {
    DividesWrap(cap);
    var k, q, r := WRAP / cap, n / WRAP, n % WRAP;
    Nested(q, k, cap, r / cap, r % cap);
    ModUnique(n, cap, q * k + r / cap, r % cap);
  }

  /** The slot of the wrapped 32-bit counter is the slot of the true counter. */
  lemma WrapSlot(n: nat, cap: nat)
    requires Capacity(cap)
    ensures (n % WRAP) % cap == Slot(n, cap)
  {
    WrapResidue(n, cap);
    SlotIsMod(n, cap);
  }

  /** Wrapped counters measure the true distance as long as it is below 2^32. */
  lemma WrapGap(head: nat, tail: nat)
    requires tail <= head < tail + WRAP
    ensures Gap(head % WRAP, tail % WRAP) == head - tail
    ensures head % WRAP == tail % WRAP <==> head == tail
  {
  }

  lemma WrapBump(i: nat, n: u32)
    ensures Bump(i % WRAP, n) == (i + n) % WRAP
  {
  }
}
