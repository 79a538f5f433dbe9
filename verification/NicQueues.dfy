/** Moving frames between the pool, the application and the kernel. */
module NicQueues {
  import opened Bytes
  import opened RingIndex
  import opened Ring
  import opened XskRing
  import opened Frames
  import opened RxChains

  const TX_BATCH := 32

  function DescFrames(ds: seq<Desc>): multiset<Addr> { AddrsFrom(ds, 0, |ds|) }

  lemma DescFramesOne(d: Desc)
    ensures DescFrames([d]) == multiset{d.addr}
  {
    assert AddrsFrom([d], 0, 0) == multiset{};
  }

  lemma {:induction false} AddrsFromPrefix(a: seq<Desc>, b: seq<Desc>, n: nat)
    requires n <= |a|
    ensures AddrsFrom(a + b, 0, n) == AddrsFrom(a, 0, n)
  {
    if n > 0 { AddrsFromPrefix(a, b, n - 1); }
  }

  lemma {:induction false} AddrsFromSuffix(a: seq<Desc>, b: seq<Desc>, n: nat)
    requires n <= |b|
    ensures AddrsFrom(a + b, |a|, |a| + n) == AddrsFrom(b, 0, n)
  {
    if n > 0 { AddrsFromSuffix(a, b, n - 1); }
  }

  lemma {:induction false} AddrsFromSplit(ds: seq<Desc>, i: nat, j: nat, k: nat)
    requires i <= j <= k <= |ds|
    ensures AddrsFrom(ds, i, k) == AddrsFrom(ds, i, j) + AddrsFrom(ds, j, k)
    decreases k
  {
    if j < k { AddrsFromSplit(ds, i, j, k - 1); }
  }

  lemma DescFramesAppend(a: seq<Desc>, b: seq<Desc>)
    ensures DescFrames(a + b) == DescFrames(a) + DescFrames(b)
  {
    AddrsFromSplit(a + b, 0, |a|, |a| + |b|);
    AddrsFromPrefix(a, b, |a|);
    AddrsFromSuffix(a, b, |b|);
  }

  /** Appending to one end and taking from the other keeps the books. */
  lemma Drained<T>(was: seq<T>, arrived: seq<T>, gone: seq<T>, q: seq<T>, more: seq<T>, out: seq<T>, now: seq<T>)
    requires was + arrived == gone + q && q + more == out + now
    ensures was + (arrived + more) == (gone + out) + now
  {
    Assoc(was, arrived, more);
    Assoc(gone, q, more);
    Assoc(gone, out, now);
  }

  // ---- the kernel and the other threads -------------------------------------------------

  /** The kernel receives into a fill-queue frame. */
  method KernelReceive(fq: ProducerRing<Addr>, rx: ConsumerRing<Desc>, len: nat, more: bool)
    requires fq.Valid() && fq.consumed < fq.submitted && rx.Valid() && rx.produced < rx.released + rx.size
    requires rx.slots as object != fq.slots
    modifies fq`consumer, fq`consumed, rx`producer, rx`produced, rx.slots
    ensures fq.Valid() && rx.Valid() && fq.consumed == old(fq.consumed) + 1
    ensures |fq.Pending()| < |old(fq.Pending())|
    ensures rx.Unread() == old(rx.Unread()) + [Desc(old(fq.Pending())[0], len, more)]
    ensures old(fq.Pending()) == [old(fq.Pending())[0]] + fq.Pending()
  {
    ghost var unread := rx.Unread();
    var a := fq.KernelTake();
    rx.KernelPut(Desc(a, len, more));
  }

  lemma DeliveredOne(d: Desc, pending: seq<Addr>, rest: seq<Addr>)
    requires pending == [d.addr] + rest
    ensures multiset(rest) + DescFrames([d]) == multiset(pending)
  {
    DescFramesOne(d);
    assert multiset(pending) == multiset{d.addr} + multiset(rest);
  }

  /** The kernel may deliver a descriptor of one byte to a whole frame, if it has a frame and the
      RX ring a free slot. */
  method KernelMayDeliver(fq: ProducerRing<Addr>, rx: ConsumerRing<Desc>) returns (ghost got: seq<Desc>)
    requires fq.Valid() && rx.Valid() && rx.slots as object != fq.slots
    modifies fq`consumer, fq`consumed, rx`producer, rx`produced, rx.slots
    ensures fq.Valid() && rx.Valid() && Delivered(got) && rx.Unread() == old(rx.Unread()) + got
    ensures multiset(fq.Pending()) + DescFrames(got) == old(multiset(fq.Pending()))
  {
    got := [];
    WrapGap(fq.submitted, fq.consumed);
    WrapGap(rx.produced, rx.released);
    var len: nat, more: bool := *, *;
    if fq.consumer == fq.producer || Gap(rx.producer, rx.consumer) >= rx.size || len < 1 || len > FRAME { return; }
    ghost var pending := fq.Pending();
    KernelReceive(fq, rx, len, more);
    got := [Desc(pending[0], len, more)];
    DeliveredOne(got[0], pending, fq.Pending());
  }

  /** The kernel delivers up to `n` descriptors. */
  method KernelDeliversUpTo(fq: ProducerRing<Addr>, rx: ConsumerRing<Desc>, n: nat) returns (ghost got: seq<Desc>)
    requires fq.Valid() && rx.Valid() && rx.slots as object != fq.slots
    modifies fq`consumer, fq`consumed, rx`producer, rx`produced, rx.slots
    ensures fq.Valid() && rx.Valid() && Delivered(got) && rx.Unread() == old(rx.Unread()) + got
    ensures multiset(fq.Pending()) + DescFrames(got) == old(multiset(fq.Pending()))
  {
    got := [];
    if n > 0 {
      ghost var first := KernelDeliversUpTo(fq, rx, n - 1);
      ghost var last := KernelMayDeliver(fq, rx);
      Assoc(old(rx.Unread()), first, last);
      DescFramesAppend(first, last);
      got := first + last;
    }
  }

  /** The kernel delivers any number of descriptors. */
  method KernelDelivers(fq: ProducerRing<Addr>, rx: ConsumerRing<Desc>) returns (ghost got: seq<Desc>)
    requires fq.Valid() && rx.Valid() && rx.slots as object != fq.slots
    modifies fq`consumer, fq`consumed, rx`producer, rx`produced, rx.slots
    ensures fq.Valid() && rx.Valid() && Delivered(got)
    ensures rx.Unread() == old(rx.Unread()) + got
    ensures multiset(fq.Pending()) + DescFrames(got) == old(multiset(fq.Pending()))
  {
    var n: nat :| n >= 0;
    got := KernelDeliversUpTo(fq, rx, n);
  }

  /** The kernel has sent a frame. */
  method KernelSend(tx: ProducerRing<Desc>, cq: ConsumerRing<Addr>)
    requires tx.Valid() && tx.consumed < tx.submitted && cq.Valid() && cq.produced < cq.released + cq.size
    requires cq.slots as object != tx.slots
    modifies tx`consumer, tx`consumed, cq`producer, cq`produced, cq.slots
    ensures tx.Valid() && cq.Valid() && old(tx.Pending()) == [old(tx.Pending())[0]] + tx.Pending()
    ensures cq.Unread() == old(cq.Unread()) + [old(tx.Pending())[0].addr]
  {
    var d := tx.KernelTake();
    cq.KernelPut(d.addr);
  }

  lemma SentOne(d: Desc, pending: seq<Desc>, rest: seq<Desc>)
    requires pending == [d] + rest
    ensures multiset([d.addr]) + DescFrames(rest) == DescFrames(pending)
  {
    DescFramesAppend([d], rest);
    DescFramesOne(d);
  }

  /** The kernel may send a frame, if there is one and the completion ring has a free slot. */
  method KernelMaySend(tx: ProducerRing<Desc>, cq: ConsumerRing<Addr>) returns (ghost sent: seq<Addr>)
    requires tx.Valid() && cq.Valid() && cq.slots as object != tx.slots
    modifies tx`consumer, tx`consumed, cq`producer, cq`produced, cq.slots
    ensures tx.Valid() && cq.Valid() && |sent| + |tx.Pending()| == |old(tx.Pending())|
    ensures cq.Unread() == old(cq.Unread()) + sent
    ensures multiset(sent) + DescFrames(tx.Pending()) == old(DescFrames(tx.Pending()))
  {
    sent := [];
    WrapGap(tx.submitted, tx.consumed);
    WrapGap(cq.produced, cq.released);
    if tx.consumer == tx.producer || Gap(cq.producer, cq.consumer) >= cq.size { return; }
    ghost var pending := tx.Pending();
    KernelSend(tx, cq);
    sent := [pending[0].addr];
    SentOne(pending[0], pending, tx.Pending());
  }

  /** The kernel sends any number of frames. */
  method KernelSends(tx: ProducerRing<Desc>, cq: ConsumerRing<Addr>) returns (ghost sent: seq<Addr>)
    requires tx.Valid() && cq.Valid() && cq.slots as object != tx.slots
    modifies tx`consumer, tx`consumed, cq`producer, cq`produced, cq.slots
    ensures tx.Valid() && cq.Valid() && |sent| + |tx.Pending()| == |old(tx.Pending())|
    ensures cq.Unread() == old(cq.Unread()) + sent
    ensures multiset(sent) + DescFrames(tx.Pending()) == old(DescFrames(tx.Pending()))
  {
    sent := [];
    var n: nat :| n >= 0;
    for i := 0 to n
      invariant tx.Valid() && cq.Valid() && |sent| + |tx.Pending()| == |old(tx.Pending())|
      invariant cq.peeked == old(cq.peeked) && cq.released == old(cq.released) && cq.known == old(cq.known)
      invariant cq.Unread() == old(cq.Unread()) + sent
      invariant multiset(sent) + DescFrames(tx.Pending()) == old(DescFrames(tx.Pending()))
    {
      ghost var pending := DescFrames(tx.Pending());
      ghost var one := KernelMaySend(tx, cq);
      Assoc(old(cq.Unread()), sent, one);
      assert multiset(sent + one) == multiset(sent) + multiset(one);
      SumAssoc(multiset(sent), multiset(one), DescFrames(tx.Pending()));
      sent := sent + one;
    }
  }

  predicate AllSendable(ps: seq<Packet>) { forall i :: 0 <= i < |ps| ==> Sendable(ps[i]) }

  /** Producers push any number of packets onto a ring. */
  method ProducersPush(src: Ring<Packet>) returns (ghost arrived: seq<Packet>)
    requires src.Valid()
    modifies src`head, src`pushes, src.buf
    ensures src.Valid() && src.Contents() == old(src.Contents()) + arrived && AllSendable(arrived)
  {
    arrived := [];
    var n: nat :| n >= 0;
    for i := 0 to n
      invariant src.Valid() && src.Contents() == old(src.Contents()) + arrived && AllSendable(arrived)
    {
      var p: Packet := *;
      if Sendable(p) {
        var ok := src.TryPush(p);
        if ok {
          Assoc(old(src.Contents()), arrived, [p]);
          arrived := arrived + [p];
        }
      }
    }
  }

  // ---- fill queue -----------------------------------------------------------------

  lemma Refilled(pending: seq<Addr>, frames: seq<Addr>, taken: seq<Addr>, before: seq<Addr>, got: seq<Addr>,
                 more: seq<Addr>, now: seq<Addr>, rest: seq<Addr>)
    requires pending == taken + before && frames == got + rest && before + got == more + now
    ensures pending + frames == (taken + more) + (now + rest)
  {
    calc {
      pending + frames;
      (taken + before) + (got + rest);
      taken + (before + got) + rest;
      taken + (more + now) + rest;
      (taken + more) + (now + rest);
    }
  }

  function Smaller(a: int, b: int): int { if a < b then a else b }

  /** refill_fq_queue, while the kernel takes entries between any two accesses. The reservation
      after the free-slot check always succeeds, so the frames popped from the pool always reach
      the kernel, in order: as many as the batch, the free slots seen and the pool allow. Fewer than
      a batch are seen only if no more are free. */
  method Refill(pool: Ring<Addr>, fq: ProducerRing<Addr>) returns (ghost taken: seq<Addr>, ghost free: nat)
    requires pool.Valid() && fq.Valid() && fq.reserved == fq.submitted && pool.buf != fq.slots
    modifies pool`tail, pool`pops, fq, fq.slots
    ensures pool.Valid() && fq.Valid() && fq.reserved == fq.submitted
    ensures old(fq.Pending()) + old(pool.Contents()) == taken + (fq.Pending() + pool.Contents())
    ensures |old(pool.Contents())| - |pool.Contents()| == Smaller(64, Smaller(free, |old(pool.Contents())|))
    ensures free < 64 ==> free >= fq.size - |old(fq.Pending())|
  {
    ghost var pending, frames := fq.Pending(), pool.Contents();
    var slots;
    slots, taken := fq.CheckFree(BATCH);
    free := slots;
    Assoc(taken, fq.Pending(), frames);
    if slots == 0 { return; }
    var want := if slots > BATCH then BATCH else slots;
    ghost var before := fq.Pending();
    var got := pool.PopMany(want);
    assert fq.Pending() == before && frames == got + pool.Contents();
    if got == [] { return; }
    var ok;
    ghost var more;
    ok, more := fq.Produce(got);
    assert ok;
    Refilled(pending, frames, taken, before, got, more, fq.Pending(), pool.Contents());
    taken := taken + more;
  }

  // ---- receive ---------------------------------------------------------------------

  /** What a peek sees at least: the entries known already or, if there are none, all delivered. */
  ghost function Visible<T(0)>(r: ConsumerRing<T>): nat
    requires r.Valid()
    reads r
  {
    if r.known == r.peeked then r.produced - r.peeked else r.known - r.peeked
  }

  /** The peek, after whatever the kernel has delivered. */
  method PeekBatch(fq: ProducerRing<Addr>, rx: ConsumerRing<Desc>, max: nat)
    returns (ds: seq<Desc>, ghost got: seq<Desc>)
    requires fq.Valid() && rx.Valid() && rx.slots as object != fq.slots && max <= BATCH
    modifies fq`consumer, fq`consumed, rx, rx.slots
    ensures fq.Valid() && rx.Valid() && rx.peeked == old(rx.peeked) + |ds|
    ensures old(rx.Unread()) + got == ds + rx.Unread()
    ensures Smaller(max, old(Visible(rx))) <= |ds| <= max
    ensures multiset(fq.Pending()) + DescFrames(got) == old(multiset(fq.Pending()))
  {
    got := KernelDelivers(fq, rx);
    ghost var pending := fq.Pending();
    ds := rx.Peek(max);
    assert fq.Pending() == pending;
  }

  /** What the kernel delivered came from the fill ring, and was read or waits. */
  lemma ReadOrWaits(unread: seq<Desc>, got: seq<Desc>, ds: seq<Desc>, rest: seq<Desc>,
                    before: multiset<Addr>, after: multiset<Addr>)
    requires unread + got == ds + rest && after + DescFrames(got) == before
    ensures DescFrames(ds) + (DescFrames(rest) + after) == DescFrames(unread) + before
  {
    DescFramesAppend(unread, got);
    DescFramesAppend(ds, rest);
    calc {
      DescFrames(ds) + (DescFrames(rest) + after);
      (DescFrames(ds) + DescFrames(rest)) + after;
      (DescFrames(unread) + DescFrames(got)) + after;
      DescFrames(unread) + (after + DescFrames(got));
    }
  }

  /** The peek of a receive, while the kernel delivers. */
  method TakeBatch(fq: ProducerRing<Addr>, rx: ConsumerRing<Desc>, max: nat)
    returns (ds: seq<Desc>, ghost got: seq<Desc>)
    requires fq.Valid() && rx.Valid() && rx.slots as object != fq.slots && max <= BATCH
    modifies fq`consumer, fq`consumed, rx, rx.slots
    ensures fq.Valid() && rx.Valid() && rx.peeked == old(rx.peeked) + |ds|
    ensures old(rx.Unread()) + got == ds + rx.Unread()
    ensures Smaller(max, old(Visible(rx))) <= |ds| <= max
    ensures multiset(fq.Pending()) + DescFrames(got) == old(multiset(fq.Pending()))
  {
    ghost var unread := rx.Unread();
    ds, got := PeekBatch(fq, rx, max);
    ghost var rest := rx.Unread();
    ghost var late := KernelDelivers(fq, rx);
    Assoc(unread, got, late);
    Assoc(ds, rest, late);
    DescFramesAppend(got, late);
    got := got + late;
  }

  /** One receive of at most `max` packets, while the kernel delivers: the oldest descriptors, all
      that are visible up to `max`, go through the receive loop in order. Every frame taken off the
      ring is afterwards in an output packet, in the carried chain or in the reject list, if the
      reject list has room for what can be rejected. */
  method Receive(fq: ProducerRing<Addr>, rx: ConsumerRing<Desc>, slot: RxSlot, max: nat)
    returns (out: seq<Packet>, n: nat, ghost ds: seq<Desc>, ghost got: seq<Desc>)
    requires fq.Valid() && rx.Valid() && rx.slots as object != fq.slots && max <= BATCH
    requires fq as object != slot && rx as object != slot
    requires |slot.rejects| + |slot.chain.segs| + max <= REJECT_SLOTS && |slot.chain.segs| <= MAX_SEGS
    modifies fq`consumer, fq`consumed, rx, rx.slots, slot
    ensures fq.Valid() && rx.Valid() && rx.peeked == old(rx.peeked) + n && n == |ds|
    ensures old(rx.Unread()) + got == ds + rx.Unread() && Smaller(max, old(Visible(rx))) <= n <= max
    ensures Rx(slot.chain, slot.invalid, slot.rejects, out)
         == FoldAll(Rx(old(slot.chain), old(slot.invalid), old(slot.rejects), []), ds)
    ensures |slot.rejects| <= REJECT_SLOTS && |slot.chain.segs| <= MAX_SEGS
    ensures Held(Rx(slot.chain, slot.invalid, slot.rejects, out)) + (DescFrames(rx.Unread()) + multiset(fq.Pending()))
         == old(Held(Rx(slot.chain, slot.invalid, slot.rejects, []))
                + (DescFrames(rx.Unread()) + multiset(fq.Pending())))
  {
    ghost var s := Rx(slot.chain, slot.invalid, slot.rejects, []);
    ghost var unread, before := rx.Unread(), multiset(fq.Pending());
    var batch;
    batch, got := TakeBatch(fq, rx, max);
    ds, n := batch, |batch|;
    ghost var rest, after := rx.Unread(), multiset(fq.Pending());
    ReadOrWaits(unread, got, ds, rest, before, after);
    out := slot.RecvQueue(batch, max);
    RejectBound(s, ds, n);
    FoldConserves(s, ds, 0, n);
    SumAssoc(Held(s), DescFrames(ds), DescFrames(rest) + after);
    assert rx.Unread() == rest && multiset(fq.Pending()) == after;
  }

  /** release_rx_queue: the peeked slots go back to the kernel, the rejected frames to the pool. */
  method ReleaseRx(pool: Ring<Addr>, rx: ConsumerRing<Desc>, slot: RxSlot, pending: nat)
    requires pool.Valid() && rx.Valid() && rx.released + pending <= rx.peeked
    requires |pool.Contents()| + |slot.rejects| <= pool.cap && |slot.rejects| <= REJECT_SLOTS
    requires pool.buf as object != rx.slots
    modifies pool, pool.buf, rx, slot`rejects
    ensures pool.Valid() && rx.Valid() && slot.rejects == []
    ensures pool.Contents() == old(pool.Contents()) + old(slot.rejects) && rx.Unread() == old(rx.Unread())
    ensures rx.released == old(rx.released) + pending
  {
    rx.Release(pending);
    var put := pool.PushMany(slot.rejects);
    assert slot.rejects[..put] == slot.rejects;
    slot.rejects := [];
  }

  // ---- completion queue --------------------------------------------------------------

  lemma SentMore(sent: seq<Addr>, late: seq<Addr>, rest: multiset<Addr>)
    ensures multiset(sent + late) + rest == multiset(sent) + (multiset(late) + rest)
  {
    assert multiset(sent + late) == multiset(sent) + multiset(late);
    SumAssoc(multiset(sent), multiset(late), rest);
  }

  method PushAll(pool: Ring<Addr>, addrs: seq<Addr>) returns (pushed: nat)
    requires pool.Valid() && |pool.Contents()| + |addrs| <= pool.cap
    modifies pool`head, pool`pushes, pool.buf
    ensures pool.Valid() && pushed == |addrs| && pool.Contents() == old(pool.Contents()) + addrs
  {
    pushed := pool.PushMany(addrs);
    assert addrs[..pushed] == addrs;
  }

  /** The index up to which a peek sees at least. */
  ghost function Target<T(0)>(r: ConsumerRing<T>): nat
    requires r.Valid()
    reads r
  {
    if r.known == r.peeked then r.produced else r.known
  }

  /** A batch of fewer than 64 took everything that was visible. */
  ghost predicate Caught<T(0)>(r: ConsumerRing<T>, batch: seq<T>, target: nat)
    reads r
  {
    target <= r.known && (|batch| < 64 ==> r.peeked == r.known)
  }

  /** The peek of a drain, while the kernel sends. */
  method PeekSent(cq: ConsumerRing<Addr>, tx: ProducerRing<Desc>) returns (addrs: seq<Addr>, ghost sent: seq<Addr>)
    requires cq.Valid() && tx.Valid() && cq.slots as object != tx.slots
    modifies cq, cq.slots, tx`consumer, tx`consumed
    ensures cq.Valid() && tx.Valid() && cq.peeked == old(cq.peeked) + |addrs| && cq.released == old(cq.released)
    ensures |addrs| <= BATCH && old(cq.Unread()) + sent == addrs + cq.Unread() && Caught(cq, addrs, old(Target(cq)))
    ensures multiset(sent) + DescFrames(tx.Pending()) == old(DescFrames(tx.Pending()))
    ensures |sent| + |tx.Pending()| == |old(tx.Pending())|
  {
    ghost var unread := cq.Unread();
    sent := KernelSends(tx, cq);
    ghost var pending := tx.Pending();
    addrs := cq.Peek(BATCH);
    ghost var rest := cq.Unread();
    assert unread + sent == addrs + rest && tx.Pending() == pending;
    ghost var late := KernelSends(tx, cq);
    Assoc(unread, sent, late);
    Assoc(addrs, rest, late);
    SentMore(sent, late, DescFrames(tx.Pending()));
    sent := sent + late;
  }

  /** One batch: peek, push into the pool, release. */
  method DrainBatch(pool: Ring<Addr>, cq: ConsumerRing<Addr>, tx: ProducerRing<Desc>)
    returns (addrs: seq<Addr>, ghost sent: seq<Addr>)
    requires pool.Valid() && cq.Valid() && tx.Valid() && pool.buf != cq.slots && cq.peeked == cq.released
    requires cq.slots as object != tx.slots && pool.buf as object != tx.slots
    requires |pool.Contents()| + |cq.Unread()| + |tx.Pending()| <= pool.cap
    modifies pool, pool.buf, cq, cq.slots, tx`consumer, tx`consumed
    ensures pool.Valid() && cq.Valid() && tx.Valid() && cq.peeked == cq.released
    ensures pool.Contents() == old(pool.Contents()) + addrs && old(cq.Unread()) + sent == addrs + cq.Unread()
    ensures |addrs| <= BATCH && cq.peeked == old(cq.peeked) + |addrs| && Caught(cq, addrs, old(Target(cq)))
    ensures multiset(sent) + DescFrames(tx.Pending()) == old(DescFrames(tx.Pending()))
    ensures |sent| + |tx.Pending()| == |old(tx.Pending())|
  {
    addrs, sent := PeekSent(cq, tx);
    if addrs == [] { return; }
    var pushed := PushAll(pool, addrs);
    cq.Release(pushed);
  }

  /** drain_cq_queue, while the kernel goes on sending: everything peeked fits the pool, so
      everything peeked is released, and completions reach the pool in order. It stops only when
      nothing it knows of is left, and takes all that was visible when it began. */
  method DrainCq(pool: Ring<Addr>, cq: ConsumerRing<Addr>, tx: ProducerRing<Desc>)
    returns (ghost drained: seq<Addr>, ghost sent: seq<Addr>)
    requires pool.Valid() && cq.Valid() && tx.Valid() && pool.buf != cq.slots && cq.peeked == cq.released
    requires cq.slots as object != tx.slots && pool.buf as object != tx.slots
    requires |pool.Contents()| + |cq.Unread()| + |tx.Pending()| <= pool.cap
    modifies pool, pool.buf, cq, cq.slots, tx`consumer, tx`consumed
    ensures pool.Valid() && cq.Valid() && tx.Valid() && cq.peeked == cq.released
    ensures pool.Contents() == old(pool.Contents()) + drained && old(cq.Unread()) + sent == drained + cq.Unread()
    ensures multiset(sent) + DescFrames(tx.Pending()) == old(DescFrames(tx.Pending()))
    ensures cq.peeked == cq.known && |drained| >= old(Visible(cq))
  {
    var more := true;
    drained, sent := [], [];
    ghost var target := Target(cq);
    while more
      invariant pool.Valid() && cq.Valid() && tx.Valid() && cq.peeked == cq.released
      invariant pool.Contents() == old(pool.Contents()) + drained && old(cq.Unread()) + sent == drained + cq.Unread()
      invariant multiset(sent) + DescFrames(tx.Pending()) == old(DescFrames(tx.Pending()))
      invariant |sent| + |tx.Pending()| == |old(tx.Pending())|
      invariant cq.peeked == old(cq.peeked) + |drained| && target <= Target(cq)
      invariant !more ==> cq.peeked == cq.known && target <= cq.known
      decreases more, |cq.Unread()| + |tx.Pending()|
    {
      ghost var unread := cq.Unread();
      var addrs;
      ghost var some;
      addrs, some := DrainBatch(pool, cq, tx);
      Drained(old(cq.Unread()), sent, drained, unread, some, addrs, cq.Unread());
      Assoc(old(pool.Contents()), drained, addrs);
      sent, drained := sent + some, drained + addrs;
      more := |addrs| == BATCH;
    }
  }

  // ---- transmit ------------------------------------------------------------------------

  lemma Sent(was: seq<Desc>, taken: seq<Desc>, pending: seq<Desc>, ds: seq<Desc>, last: seq<Desc>, now: seq<Desc>)
    requires was == taken + pending && pending + ds == last + now
    ensures was + ds == (taken + last) + now
  {
    Assoc(taken, pending, ds);
    Assoc(taken, last, now);
  }

  /** Pops a packet and hands its descriptors to the kernel, when four slots are known to be free. */
  method PopAndProduce(src: Ring<Packet>, tx: ProducerRing<Desc>) returns (job: Packet, ghost taken: seq<Desc>)
    requires src.Valid() && tx.Valid() && tx.reserved == tx.submitted && src.buf as object != tx.slots
    requires AllSendable(src.Contents()) && src.Contents() != [] && tx.submitted + MAX_SEGS <= tx.consumed + tx.size
    modifies src, src.buf, tx, tx.slots
    ensures src.Valid() && tx.Valid() && tx.reserved == tx.submitted && AllSendable(src.Contents())
    ensures old(src.Contents()) == [job] + src.Contents() && |TxDescs(job)| <= 4
    ensures old(tx.Pending()) + TxDescs(job) == taken + tx.Pending()
  {
    ghost var q := src.Contents();
    var first := src.TryPop();
    job := first.value;
    assert q == [job] + src.Contents() && job == q[0];
    var ok;
    ok, taken := tx.Produce(TxDescs(job));
    assert ok;
  }

  /** The loop body of tx_drain_queue, while producers push and the kernel sends: one packet moves
      from the ring to the kernel, unless the ring was empty when counted or fewer than four slots
      were free when checked. The four-slot check makes the reservation succeed. */
  method TxOne(src: Ring<Packet>, tx: ProducerRing<Desc>)
    returns (job: Option<Packet>, ghost arrived: seq<Packet>, ghost taken: seq<Desc>)
    requires src.Valid() && tx.Valid() && tx.reserved == tx.submitted && src.buf as object != tx.slots
    requires AllSendable(src.Contents())
    modifies src, src.buf, tx, tx.slots
    ensures src.Valid() && tx.Valid() && tx.reserved == tx.submitted && AllSendable(src.Contents())
    ensures job.None? ==> old(src.Contents()) + arrived == src.Contents() && old(tx.Pending()) == taken + tx.Pending()
    ensures job.None? ==> src.Contents() == [] || |old(tx.Pending())| + 4 > tx.size
    ensures |tx.Pending()| <= |old(tx.Pending())| + if job.Some? then 4 else 0
    ensures job.Some? ==> old(src.Contents()) + arrived == [job.value] + src.Contents()
    ensures job.Some? ==> old(tx.Pending()) + TxDescs(job.value) == taken + tx.Pending()
  {
    arrived := ProducersPush(src);
    taken, job := [], None;
    var waiting := src.Count();
    if waiting == 0 { return; }
    var free;
    free, taken := tx.CheckFree(MAX_SEGS);
    if free < MAX_SEGS { return; }
    ghost var late := ProducersPush(src);
    Assoc(old(src.Contents()), arrived, late);
    arrived := arrived + late;
    ghost var pending := tx.Pending();
    var first;
    ghost var last;
    first, last := PopAndProduce(src, tx);
    Sent(old(tx.Pending()), taken, pending, TxDescs(first), last, tx.Pending());
    job, taken := Some(first), taken + last;
  }

  /** The descriptors of the first `n` packets. */
  function TxStreamTo(ps: seq<Packet>, n: nat): seq<Desc>
    requires n <= |ps|
  {
    if n == 0 then [] else TxStreamTo(ps, n - 1) + TxDescs(ps[n - 1])
  }

  lemma {:induction false} StreamPrefix(ps: seq<Packet>, more: seq<Packet>, n: nat)
    requires n <= |ps|
    ensures TxStreamTo(ps + more, n) == TxStreamTo(ps, n)
  {
    if n > 0 { StreamPrefix(ps, more, n - 1); }
  }

  lemma StreamGrows(ps: seq<Packet>, one: seq<Packet>)
    requires |one| <= 1
    ensures TxStreamTo(ps + one, |ps| + |one|) == TxStreamTo(ps, |ps|) + (if one == [] then [] else TxDescs(one[0]))
  {
    StreamPrefix(ps, one, |ps|);
    if one == [] { assert ps + one == ps; }
  }

  /** tx_drain_queue: takes packets off the ring in order and gives the kernel exactly their
      descriptors, one packet after the other; no packet that was popped is lost. It stops only
      after 32, at an empty ring or for want of four slots; so of the packets queued when it began
      it sends all, up to 32, for which the TX ring had room then. */
  method TxDrain(src: Ring<Packet>, tx: ProducerRing<Desc>)
    returns (sent: nat, ghost jobs: seq<Packet>, ghost arrived: seq<Packet>, ghost taken: seq<Desc>)
    requires src.Valid() && tx.Valid() && tx.reserved == tx.submitted && src.buf as object != tx.slots
    requires AllSendable(src.Contents())
    modifies src, src.buf, tx, tx.slots
    ensures src.Valid() && tx.Valid() && tx.reserved == tx.submitted && AllSendable(src.Contents())
    ensures sent == |jobs| <= TX_BATCH && old(src.Contents()) + arrived == jobs + src.Contents()
    ensures old(tx.Pending()) + TxStreamTo(jobs, sent) == taken + tx.Pending()
    ensures sent < 32 && src.Contents() != [] ==> |old(tx.Pending())| + 4 * (sent + 1) > tx.size
    ensures forall n: nat ::
              n <= 32 && n <= |old(src.Contents())| && |old(tx.Pending())| + 4 * n <= tx.size ==> n <= sent
  {
    sent := 0;
    jobs, arrived, taken := [], [], [];
    while sent < TX_BATCH
      invariant src.Valid() && tx.Valid() && tx.reserved == tx.submitted && AllSendable(src.Contents())
      invariant sent == |jobs| <= TX_BATCH && old(src.Contents()) + arrived == jobs + src.Contents()
      invariant old(tx.Pending()) + TxStreamTo(jobs, sent) == taken + tx.Pending()
      invariant |tx.Pending()| <= |old(tx.Pending())| + 4 * sent
      decreases TX_BATCH - sent
    {
      ghost var q, pending := src.Contents(), tx.Pending();
      var job;
      ghost var pushed, took;
      job, pushed, took := TxOne(src, tx);
      ghost var one := if job.Some? then [job.value] else [];
      Drained(old(src.Contents()), arrived, jobs, q, pushed, one, src.Contents());
      StreamGrows(jobs, one);
      Drained(old(tx.Pending()), TxStreamTo(jobs, sent), taken, pending,
              if job.Some? then TxDescs(job.value) else [], took, tx.Pending());
      jobs, arrived, taken := jobs + one, arrived + pushed, taken + took;
      if job.None? { break; }
      sent := sent + 1;
    }
  }

  lemma {:induction false} TxDescFrames(p: Packet, n: nat)
    requires n <= |p.segs|
    ensures AddrsFrom(TxDescs(p), 0, n) == multiset(Addrs(p.segs)[..n])
    ensures n == |p.segs| ==> DescFrames(TxDescs(p)) == FramesOf(p)
  {
    if n > 0 {
      TxDescFrames(p, n - 1);
      PrefixNext(Addrs(p.segs), n - 1);
    }
    assert Addrs(p.segs)[..|p.segs|] == Addrs(p.segs);
  }

  lemma StreamFramesNext(ds: seq<Desc>, frames: multiset<Addr>, p: Packet)
    requires DescFrames(ds) == frames
    ensures DescFrames(ds + TxDescs(p)) == frames + FramesOf(p)
  {
    DescFramesAppend(ds, TxDescs(p));
    TxDescFrames(p, |p.segs|);
  }

  lemma {:induction false} TxStreamFrames(ps: seq<Packet>, n: nat)
    requires n <= |ps|
    ensures DescFrames(TxStreamTo(ps, n)) == PacketsFrames(ps, n)
  {
    if n > 0 {
      TxStreamFrames(ps, n - 1);
      StreamFramesNext(TxStreamTo(ps, n - 1), PacketsFrames(ps, n - 1), ps[n - 1]);
    }
  }

  lemma {:induction false} TxStreamSplit(ps: seq<Packet>, n: nat)
    requires n <= |ps|
    ensures TxStream(ps, 0) == TxStreamTo(ps, n) + TxStream(ps, n)
  {
    if n > 0 {
      TxStreamSplit(ps, n - 1);
      Assoc(TxStreamTo(ps, n - 1), TxDescs(ps[n - 1]), TxStream(ps, n));
    }
  }

  /** It is the stream the parse theorem speaks about, and it carries exactly the packets' frames. */
  lemma TxStreamToIs(ps: seq<Packet>)
    ensures TxStreamTo(ps, |ps|) == TxStream(ps, 0)
    ensures DescFrames(TxStreamTo(ps, |ps|)) == PacketsFrames(ps, |ps|)
  {
    TxStreamSplit(ps, |ps|);
    TxStreamFrames(ps, |ps|);
  }
}
