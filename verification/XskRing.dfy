/** AF_XDP rings as the application sees them: cached indices against a kernel that moves on its own. */
module XskRing {
  import opened Bytes
  import opened RingIndex
  import opened Ring

  lemma TakeOne<T>(taken: seq<T>, x: T, rest: seq<T>)
    ensures taken + ([x] + rest) == (taken + [x]) + rest
  {
  }

  lemma QueueHead<T>(b: seq<T>, from: nat, to: nat)
    requires |b| > 0 && from < to
    ensures QueueOf(b, from, to) == [b[Slot(from, |b|)]] + QueueOf(b, from + 1, to)
  {
  }

  lemma QueueSplit<T>(b: seq<T>, from: nat, mid: nat, to: nat)
    requires |b| > 0 && from <= mid <= to
    ensures QueueOf(b, from, to) == QueueOf(b, from, mid) + QueueOf(b, mid, to)
  {
  }

  lemma SameSplit<T>(a: seq<T>, b: seq<T>, rest: seq<T>)
    requires a + rest == b + rest
    ensures a == b
  {
    assert |a| == |b|;
    assert a == (a + rest)[..|a|] == (b + rest)[..|b|] == b;
  }

  /** One more entry filled in, and some more taken. */
  lemma FilledOne<T>(q: seq<T>, xs: seq<T>, i: nat, taken: seq<T>, before: seq<T>, more: seq<T>, now: seq<T>)
    requires i < |xs| && q + xs[..i] == taken + before && before + [xs[i]] == more + now
    ensures q + xs[..i + 1] == (taken + more) + now
  {
    assert xs[..i + 1] == xs[..i] + [xs[i]];
    Assoc(q, xs[..i], [xs[i]]);
    Assoc(taken, before, [xs[i]]);
    Assoc(taken, more, now);
  }

  /** Fill and TX rings: the application produces, the kernel consumes. */
  class ProducerRing<T(0)> {
    const slots: array<T>
    const size: u32
    var cachedProd: u32
    var cachedCons: u32   // the last consumer index seen, plus the ring size
    var producer: u32     // shared
    var consumer: u32     // shared, advanced by the kernel
    ghost var reserved: nat
    ghost var submitted: nat
    ghost var consumed: nat
    ghost var seen: nat   // value of `consumed` when the consumer index was last read

    ghost predicate Valid()
      reads this
    {
      && Capacity(size) && slots.Length == size
      && seen <= consumed <= submitted <= reserved <= seen + size
      && cachedProd == reserved % WRAP && cachedCons == (seen + size) % WRAP
      && producer == submitted % WRAP && consumer == consumed % WRAP
    }

    /** What the kernel has been given and has not taken yet. */
    ghost function Pending(): seq<T>
      requires Valid()
      reads this, slots
    {
      QueueOf(slots[..], consumed, submitted)
    }

    constructor (size: u32)
      requires Capacity(size)
      ensures Valid() && this.size == size && Pending() == [] && reserved == submitted && fresh(slots)
    {
      this.size := size;
      slots := new T[size];
      cachedProd, cachedCons, producer, consumer := 0, size, 0, 0;
      reserved, submitted, consumed, seen := 0, 0, 0, 0;
    }

    /** The kernel takes one entry. */
    method KernelTake() returns (x: T)
      requires Valid() && consumed < submitted
      modifies this`consumer, this`consumed
      ensures Valid() && old(Pending()) == [x] + Pending() && consumed == old(consumed) + 1
    {
      WrapSlot(consumed, size);
      QueueHead(slots[..], consumed, submitted);
      x := slots[consumer % size];
      WrapBump(consumed, 1);
      consumer, consumed := Bump(consumer, 1), consumed + 1;
    }

    /** The kernel takes any number of entries, as it may between any two accesses of the
        application. */
    method KernelRuns() returns (ghost taken: seq<T>)
      requires Valid()
      modifies this`consumer, this`consumed
      ensures Valid() && old(consumed) <= consumed && old(Pending()) == taken + Pending()
    {
      taken := [];
      var more := *;
      while more && consumer != producer
        invariant Valid() && old(consumed) <= consumed
        invariant submitted == old(submitted) && reserved == old(reserved) && seen == old(seen)
        invariant old(Pending()) == taken + Pending()
        decreases submitted - consumed
      {
        WrapGap(submitted, consumed);
        ghost var pending := Pending();
        var x := KernelTake();
        TakeOne(taken, x, Pending());
        taken := taken + [x];
        more := *;
      }
    }

    /** Never more than is really free, and exact whenever fewer than `nb` looked free. */
    method NbFree(nb: u32) returns (n: u32)
      requires Valid()
      modifies this`cachedCons, this`seen
      ensures Valid() && n == seen + size - reserved
      ensures seen == if old(seen) + size - reserved >= nb then old(seen) else consumed
    {
      WrapGap(seen + size, reserved);
      n := Gap(cachedCons, cachedProd);
      if n >= nb { return; }
      WrapBump(consumed, size);
      cachedCons, seen := Bump(consumer, size), consumed;
      WrapGap(seen + size, reserved);
      n := Gap(cachedCons, cachedProd);
    }

    /** Succeeds exactly when `nb` slots are free of unconsumed entries at that moment. Kernel
        progress only raises `consumed`, so a reservation once possible stays possible. */
    method Reserve(nb: u32) returns (idx: Option<u32>)
      requires Valid()
      modifies this`cachedCons, this`seen, this`cachedProd, this`reserved
      ensures Valid()
      ensures idx.Some? <==> old(reserved) + nb <= consumed + size
      ensures idx.Some? ==> idx.value == old(reserved) % WRAP && reserved == old(reserved) + nb
      ensures idx.None? ==> reserved == old(reserved)
      ensures old(seen) <= seen
    {
      var n := NbFree(nb);
      if n < nb { return None; }
      idx := Some(cachedProd);
      WrapBump(reserved, nb);
      cachedProd, reserved := Bump(cachedProd, nb), reserved + nb;
    }

    /** Fills entry number `n`; no entry the kernel may still read lives in its slot. */
    method Fill(at: u32, ghost n: nat, x: T)
      requires Valid() && at == n % WRAP && submitted <= n < reserved
      modifies slots
      ensures QueueOf(slots[..], consumed, n + 1) == old(QueueOf(slots[..], consumed, n)) + [x]
    {
      WrapSlot(n, size);
      QueueExtends(slots[..], consumed, n, x);
      ghost var b := slots[..];
      slots[at % size] := x;
      assert slots[..] == b[Slot(n, size) := x];
    }

    method Submit(nb: u32)
      requires Valid() && submitted + nb <= reserved
      modifies this`producer, this`submitted
      ensures Valid() && submitted == old(submitted) + nb
    {
      WrapBump(submitted, nb);
      producer, submitted := Bump(producer, nb), submitted + nb;
    }

    /** The free check, while the kernel takes entries before and after: what it reports stays
        free. */
    method CheckFree(nb: u32) returns (n: u32, ghost taken: seq<T>)
      requires Valid()
      modifies this`cachedCons, this`seen, this`consumer, this`consumed
      ensures Valid() && old(consumed) <= consumed && old(Pending()) == taken + Pending()
      ensures reserved + n == seen + size <= consumed + size
      ensures n < nb ==> old(consumed) <= seen
    {
      taken := KernelRuns();
      n := NbFree(nb);
      ghost var more := KernelRuns();
      Assoc(taken, more, Pending());
      taken := taken + more;
    }

    /** What the application has filled in behind the published entries is unharmed by the kernel. */
    method KernelRunsBehind(ghost n: nat, ghost q: seq<T>) returns (ghost taken: seq<T>)
      requires Valid() && submitted <= n <= reserved && QueueOf(slots[..], consumed, n) == q
      modifies this`consumer, this`consumed
      ensures Valid() && old(consumed) <= consumed && old(Pending()) == taken + Pending()
      ensures q == taken + QueueOf(slots[..], consumed, n)
    {
      ghost var was := consumed;
      taken := KernelRuns();
      QueueSplit(slots[..], was, consumed, n);
      QueueSplit(slots[..], was, consumed, submitted);
      SameSplit(QueueOf(slots[..], was, consumed), taken, Pending());
    }

    /** After `i` of the reserved entries were filled: everything since `q` is taken or in place. */
    ghost predicate Filling(q: seq<T>, xs: seq<T>, i: nat, taken: seq<T>)
      reads this, slots
    {
      && Valid() && i <= |xs| && reserved == submitted + |xs| <= consumed + size
      && q + xs[..i] == taken + QueueOf(slots[..], consumed, submitted + i)
    }

    method FillNext(idx: u32, i: nat, xs: seq<T>, ghost q: seq<T>, ghost taken: seq<T>) returns (ghost taken': seq<T>)
      requires Filling(q, xs, i, taken) && i < |xs| < WRAP && idx == submitted % WRAP
      modifies this`consumer, this`consumed, slots
      ensures Filling(q, xs, i + 1, taken') && old(consumed) <= consumed
    {
      ghost var before := QueueOf(slots[..], consumed, submitted + i);
      WrapBump(submitted, i);
      Fill(Bump(idx, i), submitted + i, xs[i]);
      ghost var more := KernelRunsBehind(submitted + i + 1, before + [xs[i]]);
      FilledOne(q, xs, i, taken, before, more, QueueOf(slots[..], consumed, submitted + i + 1));
      taken' := taken + more;
    }

    /** A reservation, while the kernel takes entries before and after. */
    method ReserveRunning(nb: u32) returns (idx: Option<u32>, ghost taken: seq<T>)
      requires Valid() && reserved == submitted
      modifies this
      ensures Valid() && submitted == old(submitted) && old(consumed) <= consumed && old(seen) <= seen
      ensures old(Pending()) == taken + Pending()
      ensures old(submitted) + nb <= old(consumed) + size ==> idx.Some?
      ensures idx.Some? ==> idx.value == submitted % WRAP && reserved == submitted + nb <= consumed + size
      ensures idx.None? ==> reserved == submitted
    {
      taken := KernelRuns();
      idx := Reserve(nb);
      ghost var more := KernelRuns();
      Assoc(taken, more, Pending());
      taken := taken + more;
    }

    /** Reserve, fill and submit, as refill, prefill and TX do, while the kernel takes entries
        between any two accesses. The entries are published in order behind the pending ones; this
        fails only if there was no room when it began, and never if the free check saw room. */
    method Produce(xs: seq<T>) returns (ok: bool, ghost taken: seq<T>)
      requires Valid() && reserved == submitted && |xs| < WRAP
      modifies this, slots
      ensures Valid() && reserved == submitted && old(consumed) <= consumed && old(seen) <= seen
      ensures old(submitted) + |xs| <= old(consumed) + size ==> ok
      ensures ok ==> old(submitted) + |xs| <= consumed + size
      ensures old(Pending()) + (if ok then xs else []) == taken + Pending()
    {
      ghost var q := Pending();
      var idx;
      idx, taken := ReserveRunning(|xs|);
      if idx.None? { return false, taken; }
      for i := 0 to |xs|
        invariant Filling(q, xs, i, taken)
        invariant submitted == old(submitted) && old(consumed) <= consumed && old(seen) <= seen
      {
        taken := FillNext(idx.value, i, xs, q, taken);
      }
      assert xs[..|xs|] == xs;
      Submit(|xs|);
      ghost var last := KernelRuns();
      Assoc(taken, last, Pending());
      taken := taken + last;
      ok := true;
    }
  }

  /** Completion and RX rings: the kernel produces, the application consumes. */
  class ConsumerRing<T(0)> {
    const slots: array<T>
    const size: u32
    var cachedProd: u32
    var cachedCons: u32
    var producer: u32     // shared, advanced by the kernel
    var consumer: u32     // shared
    ghost var produced: nat
    ghost var known: nat  // value of `produced` when the producer index was last read
    ghost var peeked: nat
    ghost var released: nat

    ghost predicate Valid()
      reads this
    {
      && Capacity(size) && slots.Length == size
      && released <= peeked <= known <= produced <= released + size
      && cachedProd == known % WRAP && cachedCons == peeked % WRAP
      && producer == produced % WRAP && consumer == released % WRAP
    }

    /** Entries the kernel has delivered and the application has not looked at. */
    ghost function Unread(): seq<T>
      requires Valid()
      reads this, slots
    {
      QueueOf(slots[..], peeked, produced)
    }

    constructor (size: u32)
      requires Capacity(size)
      ensures Valid() && this.size == size && Unread() == [] && peeked == released && fresh(slots)
    {
      this.size := size;
      slots := new T[size];
      cachedProd, cachedCons, producer, consumer := 0, 0, 0, 0;
      produced, known, peeked, released := 0, 0, 0, 0;
    }

    /** The kernel delivers one entry; it waits while the application has released no slot. */
    method KernelPut(x: T)
      requires Valid() && produced < released + size
      modifies this`producer, this`produced, slots
      ensures Valid() && Unread() == old(Unread()) + [x]
    {
      WrapSlot(produced, size);
      QueueExtends(slots[..], peeked, produced, x);
      ghost var b := slots[..];
      slots[producer % size] := x;
      assert slots[..] == b[Slot(produced, size) := x];
      WrapBump(produced, 1);
      producer, produced := Bump(producer, 1), produced + 1;
    }

    method CopyOut(n: u32) returns (xs: seq<T>)
      requires Valid() && peeked + n <= produced
      ensures xs == Unread()[..n]
    {
      xs := [];
      for i := 0 to n
        invariant xs == Unread()[..i]
      {
        WrapBump(peeked, i);
        WrapSlot(peeked + i, size);
        xs := xs + [slots[Bump(cachedCons, i) % size]];
      }
    }

    /** Hands over up to `nb` delivered entries, oldest first; at least one if any was delivered. */
    method Peek(nb: u32) returns (xs: seq<T>)
      requires Valid()
      modifies this`cachedProd, this`known, this`cachedCons, this`peeked
      ensures Valid() && old(Unread()) == xs + Unread()
      ensures |xs| <= nb && peeked == old(peeked) + |xs|
      ensures xs == [] ==> nb == 0 || old(Unread()) == []
      ensures known == if old(known) == old(peeked) then produced else old(known)
      ensures |xs| == if known - old(peeked) < nb then known - old(peeked) else nb
    {
      WrapGap(known, peeked);
      if Gap(cachedProd, cachedCons) == 0 {
        cachedProd, known := producer, produced;
        WrapGap(known, peeked);
      }
      var entries := Gap(cachedProd, cachedCons);
      var n := if entries > nb then nb else entries;
      xs := CopyOut(n);
      WrapBump(peeked, n);
      cachedCons, peeked := Bump(cachedCons, n), peeked + n;
    }

    method Release(nb: u32)
      requires Valid() && released + nb <= peeked
      modifies this`consumer, this`released
      ensures Valid() && released == old(released) + nb && Unread() == old(Unread())
    {
      WrapBump(released, nb);
      consumer, released := Bump(consumer, nb), released + nb;
    }
  }
}
