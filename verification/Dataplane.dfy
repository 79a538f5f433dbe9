/** The crypto workers' packet paths: who owns the frames on every exit. */
module Dataplane {
  import opened Bytes
  import opened Limits
  import opened RingIndex
  import opened Ring
  import opened Frames
  import opened RxChains

  /** What the crypto layer made of a LAN packet, and of a WAN frame. */
  datatype Egress = Refused | Single(frame: seq<byte>) | Pair(first: seq<byte>, second: seq<byte>)
  datatype Ingress = Rejected | Absorbed | Plain(packet: seq<byte>)

  function RingFrames(q: seq<Packet>): multiset<Addr> { PacketsFrames(q, |q|) }

  lemma {:induction false} PacketsFramesPrefix(a: seq<Packet>, b: seq<Packet>, n: nat)
    requires n <= |a|
    ensures PacketsFrames(a + b, n) == PacketsFrames(a, n)
  {
    if n > 0 { PacketsFramesPrefix(a, b, n - 1); }
  }

  lemma RingFramesPush(q: seq<Packet>, p: Packet)
    ensures RingFrames(q + [p]) == RingFrames(q) + FramesOf(p)
  {
    PacketsFramesPrefix(q, [p], |q|);
  }

  lemma RingFramesPushPair(q: seq<Packet>, a: Packet, b: Packet)
    ensures RingFrames(q + [a, b]) == RingFrames(q) + FramesOf(a) + FramesOf(b)
  {
    RingFramesPush(q, a);
    RingFramesPush(q + [a], b);
    assert (q + [a]) + [b] == q + [a, b];
  }

  // ---- exclusive ownership ---------------------------------------------------------

  /** No frame has two owners. */
  ghost predicate Exclusive(m: multiset<Addr>) { forall a :: m[a] <= 1 }

  lemma ExclusiveDistinct(s: seq<Addr>)
    requires Exclusive(multiset(s))
    ensures Distinct(s)
  {
    forall i, j | 0 <= i < j < |s| ensures s[i] != s[j] {
      assert s == s[..j] + [s[j]] + s[j + 1..];
      assert multiset(s)[s[j]] == multiset(s[..j])[s[j]] + 1 + multiset(s[j + 1..])[s[j]];
      assert s[i] in s[..j];
    }
  }

  /** Exclusive ownership is all the packet operations need: the pool has room for whatever else
      is owned, and the packet's frames are not in the pool. */
  lemma OwnershipSuffices(p: Packet, free: seq<Addr>, others: multiset<Addr>, frames: nat, cap: nat)
    requires SegsOk(p.segs, frames) && forall i :: 0 <= i < |free| ==> free[i] < frames
    requires var all := FramesOf(p) + multiset(free) + others; Exclusive(all) && |all| <= cap
    ensures Disjoint(p, free, frames) && |free| + |p.segs| <= cap
  {
    var both := Addrs(p.segs) + free;
    assert multiset(both) == FramesOf(p) + multiset(free);
    forall a ensures multiset(both)[a] <= 1 {
      assert (FramesOf(p) + multiset(free) + others)[a] <= 1;
    }
    ExclusiveDistinct(both);
    assert |multiset(Addrs(p.segs))| == |p.segs| && |multiset(free)| == |free|;
  }

  /** The worker's share of the world: the pool, one output ring and the packet in hand. */
  ghost predicate WorkerOk(pool: Ring<Addr>, mem: array<Frame>, ring: Ring<Packet>, job: Packet)
    reads pool, pool.buf, ring, ring.buf
  {
    && pool.Valid() && ring.Valid() && pool as object != ring
    && mem as object != pool.buf && mem as object != ring.buf && pool.buf as object != ring.buf
    && SegsOk(job.segs, mem.Length) && (job.segs == [] ==> job.len == 0)
    && (forall i :: 0 <= i < |pool.Contents()| ==> pool.Contents()[i] < mem.Length)
    && Exclusive(FramesOf(job) + multiset(pool.Contents()))
    && |pool.Contents()| + |job.segs| <= pool.cap
  }

  /** Frames in the pool, on the ring and in hand. */
  ghost function Total(pool: Ring<Addr>, ring: Ring<Packet>, job: Packet): multiset<Addr>
    requires pool.Valid() && ring.Valid()
    reads pool, pool.buf, ring, ring.buf
  {
    FramesOf(job) + multiset(pool.Contents()) + RingFrames(ring.Contents())
  }

  lemma DisjointNow(pool: seq<Addr>, p: Packet, frames: nat)
    requires SegsOk(p.segs, frames) && Exclusive(FramesOf(p) + multiset(pool))
    requires forall i :: 0 <= i < |pool| ==> pool[i] < frames
    ensures Disjoint(p, pool, frames)
  {
    assert multiset(Addrs(p.segs) + pool) == FramesOf(p) + multiset(pool);
    ExclusiveDistinct(Addrs(p.segs) + pool);
  }

  // ---- building blocks ---------------------------------------------------------------

  /** The packet holds exactly these bytes, in proper segments. */
  ghost predicate Stores(m: Memory, p: Packet, w: seq<byte>) {
    Proper(p) && Inside(m, p.segs) && Gather(m, p.segs) == w
  }

  /** `n` bytes can be written into a packet's segments and what the pool can add. */
  predicate Fits(segs: seq<Seg>, free: nat, n: nat)
    requires |segs| <= MAX_SEGS
  {
    0 < n <= JUMBO_MAX && n <= Room(segs, free)
  }

  lemma KeepsBounds(p: Packet, free: seq<Addr>, q: Packet, free': seq<Addr>, frames: nat)
    requires FramesOf(q) + multiset(free') == FramesOf(p) + multiset(free)
    requires SegsOk(p.segs, frames) && forall i :: 0 <= i < |free| ==> free[i] < frames
    ensures forall i :: 0 <= i < |free'| ==> free'[i] < frames
    ensures |q.segs| + |free'| == |p.segs| + |free|
  {
    forall i | 0 <= i < |free'| ensures free'[i] < frames {
      assert free'[i] in multiset(free');
      assert free'[i] in FramesOf(p) + multiset(free);
    }
    assert |FramesOf(q) + multiset(free')| == |FramesOf(p) + multiset(free)|;
  }

  /** What a write means for ownership, and when it succeeds. */
  lemma WriteFacts(p: Packet, free: seq<Addr>, n: nat, frames: nat)
    requires Disjoint(p, free, frames)
    ensures var w := WriteOutcome(p, free, n);
            && SegsOk(w.packet.segs, frames) && (w.ok <==> Fits(p.segs, |free|, n))
            && FramesOf(w.packet) + multiset(w.pool) == FramesOf(p) + multiset(free)
            && |w.packet.segs| + |w.pool| == |p.segs| + |free|
            && forall i :: 0 <= i < |w.pool| ==> w.pool[i] < frames
  {
    var w := WriteOutcome(p, free, n);
    WriteOk(p, free, n, frames);
    WriteFits(p, free, n);
    WriteConserves(p, free, n);
    KeepsBounds(p, free, w.packet, w.pool, frames);
  }

  lemma WrittenStores(m: Memory, p: Packet, free: seq<Addr>, src: seq<byte>)
    requires WriteOutcome(p, free, |src|).ok && Growable(p)
    requires var q := WriteOutcome(p, free, |src|).packet;
             Inside(m, q.segs) && LenSum(q.segs, |q.segs|) <= |src|
             && Gather(m, q.segs) == src[..LenSum(q.segs, |q.segs|)]
    ensures Stores(m, WriteOutcome(p, free, |src|).packet, src)
  {
    WriteProper(p, free, |src|);
    assert src[..|src|] == src;
  }

  /** ne_packet_write from a worker: it succeeds exactly if the bytes fit, and then the packet holds
      them; ownership only moves between the packet and the pool. */
  method Write(pool: Ring<Addr>, mem: array<Frame>, ring: Ring<Packet>, p: Packet, src: seq<byte>)
    returns (ok: bool, q: Packet)
    requires WorkerOk(pool, mem, ring, p) && Roomy(p.segs)
    modifies pool, pool.buf, mem
    ensures WorkerOk(pool, mem, ring, q) && ring.Contents() == old(ring.Contents())
    ensures ok <==> Fits(p.segs, old(|pool.Contents()|), |src|)
    ensures pool.Contents() == WriteOutcome(p, old(pool.Contents()), |src|).pool
    ensures |q.segs| + |pool.Contents()| == |p.segs| + old(|pool.Contents()|)
    ensures FramesOf(q) + multiset(pool.Contents()) == FramesOf(p) + old(multiset(pool.Contents()))
    ensures ok ==> Stores(mem[..], q, src)
    ensures SameElsewhere(old(mem[..]), mem[..], Addrs(p.segs) + old(pool.Contents()))
  {
    ghost var free := pool.Contents();
    DisjointNow(free, p, mem.Length);
    WriteFacts(p, free, |src|, mem.Length);
    ok, q := PacketWrite(pool, mem, p, src);
    if ok { WrittenStores(mem[..], p, free, src); }
  }

  /** Dropping a packet returns every frame it owns. */
  method Drop(pool: Ring<Addr>, mem: array<Frame>, ring: Ring<Packet>, p: Packet)
    requires WorkerOk(pool, mem, ring, p)
    modifies pool, pool.buf
    ensures WorkerOk(pool, mem, ring, NO_PACKET) && ring.Contents() == old(ring.Contents())
    ensures Total(pool, ring, NO_PACKET) == old(Total(pool, ring, p))
    ensures multiset(pool.Contents()) == FramesOf(p) + old(multiset(pool.Contents()))
  {
    ghost var free := pool.Contents();
    var q := PacketFree(pool, p);
    assert multiset(free + Addrs(p.segs)) == multiset(free) + FramesOf(p);
    assert FramesOf(q) == multiset{};
    KeepsBounds(p, free, q, pool.Contents(), mem.Length);
  }

  /** Once a packet is on the ring, the pool alone still satisfies the worker's conditions. */
  lemma HandOver(p: Packet, free: seq<Addr>)
    requires Exclusive(FramesOf(p) + multiset(free))
    ensures Exclusive(FramesOf(NO_PACKET) + multiset(free))
  {
    forall a ensures (FramesOf(NO_PACKET) + multiset(free))[a] <= 1 {
      assert (FramesOf(p) + multiset(free))[a] <= 1;
    }
  }

  /** dp_ring_push: the packet is on the ring, or its frames are back in the pool. */
  method RingPush(pool: Ring<Addr>, mem: array<Frame>, ring: Ring<Packet>, p: Packet) returns (ok: bool)
    requires WorkerOk(pool, mem, ring, p)
    modifies pool, pool.buf, ring, ring.buf
    ensures WorkerOk(pool, mem, ring, NO_PACKET)
    ensures ok == (p.len <= JUMBO_MAX && |old(ring.Contents())| < ring.cap)
    ensures ring.Contents() == old(ring.Contents()) + (if ok then [p] else [])
    ensures Total(pool, ring, NO_PACKET) == old(Total(pool, ring, p))
  {
    ghost var q, free := ring.Contents(), pool.Contents();
    ok := false;
    if p.len <= JUMBO_MAX { ok := ring.TryPush(p); }
    if !ok {
      Drop(pool, mem, ring, p);
    } else {
      RingFramesPush(q, p);
      HandOver(p, free);
    }
  }

  /** A proper packet linearises to its bytes. */
  method ReadJob(pool: Ring<Addr>, mem: array<Frame>, ring: Ring<Packet>, p: Packet) returns (b: seq<byte>)
    requires WorkerOk(pool, mem, ring, p) && Proper(p)
    ensures Inside(mem[..], p.segs) && b == Gather(mem[..], p.segs)
  {
    var r := Linearize(mem, p, JUMBO_MAX);
    b := r.value;
  }

  /** Write the bytes and push the packet; on any failure, or if the push is not allowed, drop it. */
  method WriteAndPush(pool: Ring<Addr>, mem: array<Frame>, ring: Ring<Packet>, job: Packet, w: seq<byte>, allowed: bool)
    returns (out: seq<Packet>)
    requires WorkerOk(pool, mem, ring, job) && Roomy(job.segs)
    modifies pool, pool.buf, mem, ring, ring.buf
    ensures WorkerOk(pool, mem, ring, NO_PACKET)
    ensures Total(pool, ring, NO_PACKET) == old(Total(pool, ring, job))
    ensures ring.Contents() == old(ring.Contents()) + out
    ensures if allowed && Fits(job.segs, old(|pool.Contents()|), |w|) && old(|ring.Contents()|) < ring.cap
            then |out| == 1 && Stores(mem[..], out[0], w)
            else out == []
  {
    ghost var total := Total(pool, ring, job);
    var written, q := Write(pool, mem, ring, job, w);
    assert Total(pool, ring, q) == total;
    if !written || !allowed {
      Drop(pool, mem, ring, q);
      return [];
    }
    ghost var m := mem[..];
    var ok := RingPush(pool, mem, ring, q);
    assert mem[..] == m;
    out := if ok then [q] else [];
  }

  // ---- WAN to LAN ------------------------------------------------------------------------

  /** dataplane_process_wan. A packet reaches the ring exactly if there is one LAN, the crypto layer
      yields a packet, its bytes fit and the ring has a slot; it then holds exactly the decrypted
      bytes. On every other exit the frames of the job are in the pool. */
  method ProcessWan(pool: Ring<Addr>, mem: array<Frame>, ring: Ring<Packet>, job: Packet,
                    decrypt: seq<byte> -> Ingress, oneLan: bool)
    returns (out: seq<Packet>)
    requires WorkerOk(pool, mem, ring, job) && Proper(job) && Inside(mem[..], job.segs)
    modifies pool, pool.buf, mem, ring, ring.buf
    ensures WorkerOk(pool, mem, ring, NO_PACKET)
    ensures Total(pool, ring, NO_PACKET) == old(Total(pool, ring, job))
    ensures ring.Contents() == old(ring.Contents()) + out
    ensures var r := decrypt(old(Gather(mem[..], job.segs)));
            if && oneLan && r.Plain? && Fits(job.segs, old(|pool.Contents()|), |r.packet|)
               && old(|ring.Contents()|) < ring.cap
            then |out| == 1 && Stores(mem[..], out[0], r.packet)
            else out == []
  {
    var bytes := ReadJob(pool, mem, ring, job);
    var r := decrypt(bytes);
    if !r.Plain? {
      Drop(pool, mem, ring, job);
      return [];
    }
    out := WriteAndPush(pool, mem, ring, job, r.packet, oneLan);
    if out == [] { Drop(pool, mem, ring, NO_PACKET); }  // already zeroed: the second free frees nothing
  }

  // ---- LAN to WAN ------------------------------------------------------------------------

  /** A packet whose frames were not touched still holds its bytes. */
  lemma StillHolds(m: Memory, m': Memory, touched: seq<Addr>, p: Packet, w: seq<byte>)
    requires SameElsewhere(m, m', touched) && Stores(m, p, w)
    requires forall i :: 0 <= i < |p.segs| ==> p.segs[i].addr !in touched
    ensures Stores(m', p, w)
  {
    GatherFrame(m, p.segs, m', p.segs, |p.segs|);
  }

  lemma NotInPool(p: Packet, free: seq<Addr>)
    requires Exclusive(FramesOf(p) + multiset(free))
    ensures forall i :: 0 <= i < |p.segs| ==> p.segs[i].addr !in free
  {
    forall i | 0 <= i < |p.segs| ensures p.segs[i].addr !in free {
      var a := p.segs[i].addr;
      assert Addrs(p.segs)[i] == a && a in multiset(Addrs(p.segs));
      assert (FramesOf(p) + multiset(free))[a] <= 1;
    }
  }

  /** A smaller pool leaves the packet's ownership exclusive. */
  lemma SmallerPool(p: Packet, free: seq<Addr>, free': seq<Addr>)
    requires Exclusive(FramesOf(p) + multiset(free)) && multiset(free') <= multiset(free)
    ensures Exclusive(FramesOf(p) + multiset(free')) && |free'| <= |free|
  {
    forall a ensures (FramesOf(p) + multiset(free'))[a] <= 1 {
      assert (FramesOf(p) + multiset(free))[a] <= 1 && multiset(free')[a] <= multiset(free)[a];
    }
    assert multiset(free) == multiset(free') + (multiset(free) - multiset(free'));
    assert |multiset(free)| == |free| && |multiset(free')| == |free'|;
  }

  lemma TailTaken(tail: Packet, free': seq<Addr>, free: seq<Addr>)
    requires FramesOf(tail) + multiset(free') == multiset(free)
    ensures multiset(free') <= multiset(free) && |tail.segs| + |free'| == |free|
  {
    assert |FramesOf(tail) + multiset(free')| == |FramesOf(tail)| + |multiset(free')|;
    assert |multiset(Addrs(tail.segs))| == |tail.segs| && |multiset(free')| == |free'| && |multiset(free)| == |free|;
  }

  /** push_split_to_wan: both fragments go on the ring together, or the tail is freed and the head
      stays with the caller. `counted` is what the ring count without the lock returned, which need
      not be the length. */
  method PushSplit(pool: Ring<Addr>, mem: array<Frame>, ring: Ring<Packet>, job: Packet, tail: Packet, counted: u32)
    returns (ok: bool)
    requires WorkerOk(pool, mem, ring, tail)
    modifies pool, pool.buf, ring, ring.buf
    ensures WorkerOk(pool, mem, ring, NO_PACKET)
    ensures ok <==> && Bump(counted, 2) <= ring.cap && old(|ring.Contents()|) + 2 <= ring.cap
                    && 0 < job.len <= JUMBO_MAX && 0 < tail.len <= JUMBO_MAX
    ensures ok ==> ring.Contents() == old(ring.Contents()) + [job, tail] && pool.Contents() == old(pool.Contents())
    ensures !ok ==> && ring.Contents() == old(ring.Contents())
                    && multiset(pool.Contents()) == FramesOf(tail) + old(multiset(pool.Contents()))
  {
    ghost var free := pool.Contents();
    ok := false;
    if Bump(counted, 2) <= ring.cap && job.len != 0 && tail.len != 0 && job.len <= JUMBO_MAX && tail.len <= JUMBO_MAX {
      ok := ring.TryPushPair(job, tail);
    }
    if ok {
      HandOver(tail, free);
    } else {
      Drop(pool, mem, ring, tail);
    }
  }

  /** Writes the second fragment into frames of its own; the first one keeps its bytes. If there
      are not enough frames, those already taken go back. */
  method WriteTail(pool: Ring<Addr>, mem: array<Frame>, ring: Ring<Packet>, head: Packet,
                   ghost w1: seq<byte>, w2: seq<byte>)
    returns (ok: bool, tail: Packet)
    requires WorkerOk(pool, mem, ring, head) && Stores(mem[..], head, w1)
    modifies pool, pool.buf, mem
    ensures WorkerOk(pool, mem, ring, head) && WorkerOk(pool, mem, ring, tail)
    ensures ring.Contents() == old(ring.Contents())
    ensures ok <==> Fits([], old(|pool.Contents()|), |w2|)
    ensures FramesOf(tail) + multiset(pool.Contents()) == old(multiset(pool.Contents()))
    ensures |tail.segs| + |pool.Contents()| == old(|pool.Contents()|)
    ensures Stores(mem[..], head, w1)
    ensures !ok ==> tail == NO_PACKET
    ensures ok ==> Stores(mem[..], tail, w2)
  {
    ghost var free, m := pool.Contents(), mem[..];
    HandOver(head, free);
    assert FramesOf(NO_PACKET) == multiset{};
    ok, tail := Write(pool, mem, ring, NO_PACKET, w2);
    NotInPool(head, free);
    StillHolds(m, mem[..], Addrs(NO_PACKET.segs) + free, head, w1);
    if !ok {
      Drop(pool, mem, ring, tail);
      tail := NO_PACKET;
    }
    assert FramesOf(tail) + multiset(pool.Contents()) == multiset(free);
    TailTaken(tail, pool.Contents(), free);
    SmallerPool(head, free, pool.Contents());
  }

  /** Both wire frames fit: the first one into the job and the pool, the second one into what the
      first has left. */
  predicate PairFits(job: Packet, free: seq<Addr>, n1: nat, n2: nat)
    requires |job.segs| <= MAX_SEGS
  {
    Fits(job.segs, |free|, n1) && Fits([], |WriteOutcome(job, free, n1).pool|, n2)
  }

  /** The two writes of the split branch; on failure everything taken for the tail is back. */
  method WriteBoth(pool: Ring<Addr>, mem: array<Frame>, ring: Ring<Packet>, job: Packet, w1: seq<byte>, w2: seq<byte>)
    returns (ok: bool, head: Packet, tail: Packet)
    requires WorkerOk(pool, mem, ring, job) && Roomy(job.segs)
    modifies pool, pool.buf, mem
    ensures ok <==> PairFits(job, old(pool.Contents()), |w1|, |w2|)
    ensures WorkerOk(pool, mem, ring, head) && WorkerOk(pool, mem, ring, tail)
    ensures ring.Contents() == old(ring.Contents())
    ensures FramesOf(head) + (FramesOf(tail) + multiset(pool.Contents()))
         == FramesOf(job) + old(multiset(pool.Contents()))
    ensures |head.segs| + |tail.segs| + |pool.Contents()| == |job.segs| + old(|pool.Contents()|)
    ensures Exclusive(FramesOf(head) + (FramesOf(tail) + multiset(pool.Contents())))
    ensures ok ==> Stores(mem[..], head, w1) && Stores(mem[..], tail, w2)
    ensures !ok ==> tail == NO_PACKET
  {
    tail := NO_PACKET;
    ok, head := Write(pool, mem, ring, job, w1);
    assert FramesOf(NO_PACKET) == multiset{};
    ghost var free := pool.Contents();
    HandOver(head, free);
    if ok { ok, tail := WriteTail(pool, mem, ring, head, w1, w2); }
  }

  lemma PairTotal(head: multiset<Addr>, tail: multiset<Addr>, free: multiset<Addr>,
                  queued: multiset<Addr>, total: multiset<Addr>)
    requires head + (tail + free) == total
    ensures multiset{} + free + (queued + head + tail) == total + queued
  {
  }

  /** The tail's frames are back in the pool, and the head still owns only its own. */
  lemma HeadKept(head: Packet, tail: Packet, free: seq<Addr>, now: seq<Addr>)
    requires Exclusive(FramesOf(head) + (FramesOf(tail) + multiset(free)))
    requires multiset(now) == FramesOf(tail) + multiset(free)
    ensures Exclusive(FramesOf(head) + multiset(now)) && |now| == |tail.segs| + |free|
  {
    assert |multiset(now)| == |now| && |multiset(free)| == |free| && |FramesOf(tail)| == |tail.segs|;
    assert |FramesOf(tail) + multiset(free)| == |FramesOf(tail)| + |multiset(free)|;
  }

  /** The push of the split branch; on failure both packets are dropped. */
  method PushBoth(pool: Ring<Addr>, mem: array<Frame>, ring: Ring<Packet>, head: Packet, tail: Packet, counted: u32,
                  ghost total: multiset<Addr>)
    returns (ok: bool)
    requires WorkerOk(pool, mem, ring, head) && WorkerOk(pool, mem, ring, tail)
    requires |head.segs| + |tail.segs| + |pool.Contents()| <= pool.cap
    requires FramesOf(head) + (FramesOf(tail) + multiset(pool.Contents())) == total && Exclusive(total)
    modifies pool, pool.buf, ring, ring.buf
    ensures WorkerOk(pool, mem, ring, NO_PACKET)
    ensures Total(pool, ring, NO_PACKET) == total + old(RingFrames(ring.Contents()))
    ensures ring.Contents() == old(ring.Contents()) + (if ok then [head, tail] else [])
    ensures ok <==> && Bump(counted, 2) <= ring.cap && old(|ring.Contents()|) + 2 <= ring.cap
                    && 0 < head.len <= JUMBO_MAX && 0 < tail.len <= JUMBO_MAX
  {
    ghost var q, free := ring.Contents(), pool.Contents();
    ok := PushSplit(pool, mem, ring, head, tail, counted);
    assert FramesOf(NO_PACKET) == multiset{};
    if ok {
      RingFramesPushPair(q, head, tail);
      PairTotal(FramesOf(head), FramesOf(tail), multiset(free), RingFrames(q), total);
    } else {
      HeadKept(head, tail, free, pool.Contents());
      Drop(pool, mem, ring, head);
    }
  }

  /** Two packets hold these two frames. */
  ghost predicate BothStored(m: Memory, out: seq<Packet>, w1: seq<byte>, w2: seq<byte>) {
    |out| == 2 && Stores(m, out[0], w1) && Stores(m, out[1], w2)
  }

  method SendWritten(pool: Ring<Addr>, mem: array<Frame>, ring: Ring<Packet>, head: Packet, tail: Packet, counted: u32,
                     ghost total: multiset<Addr>, ghost w1: seq<byte>, ghost w2: seq<byte>)
    returns (out: seq<Packet>)
    requires WorkerOk(pool, mem, ring, head) && WorkerOk(pool, mem, ring, tail)
    requires |head.segs| + |tail.segs| + |pool.Contents()| <= pool.cap
    requires FramesOf(head) + (FramesOf(tail) + multiset(pool.Contents())) == total && Exclusive(total)
    requires Stores(mem[..], head, w1) && Stores(mem[..], tail, w2) && head.segs != [] && tail.segs != []
    modifies pool, pool.buf, ring, ring.buf
    ensures WorkerOk(pool, mem, ring, NO_PACKET)
    ensures Total(pool, ring, NO_PACKET) == total + old(RingFrames(ring.Contents()))
    ensures ring.Contents() == old(ring.Contents()) + out
    ensures if Bump(counted, 2) <= ring.cap && old(|ring.Contents()|) + 2 <= ring.cap
            then BothStored(mem[..], out, w1, w2) else out == []
  {
    ghost var m := mem[..];
    var ok := PushBoth(pool, mem, ring, head, tail, counted, total);
    assert mem[..] == m;
    out := if ok then [head, tail] else [];
  }

  /** The split branch of encrypt_to_wan. */
  method SendPair(pool: Ring<Addr>, mem: array<Frame>, ring: Ring<Packet>, job: Packet,
                  w1: seq<byte>, w2: seq<byte>, counted: u32)
    returns (out: seq<Packet>)
    requires WorkerOk(pool, mem, ring, job) && Roomy(job.segs)
    modifies pool, pool.buf, mem, ring, ring.buf
    ensures WorkerOk(pool, mem, ring, NO_PACKET)
    ensures Total(pool, ring, NO_PACKET) == old(Total(pool, ring, job))
    ensures ring.Contents() == old(ring.Contents()) + out
    ensures if && PairFits(job, old(pool.Contents()), |w1|, |w2|)
               && Bump(counted, 2) <= ring.cap && old(|ring.Contents()|) + 2 <= ring.cap
            then BothStored(mem[..], out, w1, w2)
            else out == []
  {
    ghost var total := FramesOf(job) + multiset(pool.Contents());
    var ok, head, tail := WriteBoth(pool, mem, ring, job, w1, w2);
    assert FramesOf(NO_PACKET) == multiset{};
    if ok {
      out := SendWritten(pool, mem, ring, head, tail, counted, total, w1, w2);
    } else {
      Drop(pool, mem, ring, head);
      out := [];
    }
  }

  /** The unsplit branch, with the wire-size check and the final push. */
  method SendSingle(pool: Ring<Addr>, mem: array<Frame>, ring: Ring<Packet>, job: Packet, w: seq<byte>)
    returns (out: seq<Packet>)
    requires WorkerOk(pool, mem, ring, job) && Roomy(job.segs)
    modifies pool, pool.buf, mem, ring, ring.buf
    ensures WorkerOk(pool, mem, ring, NO_PACKET)
    ensures Total(pool, ring, NO_PACKET) == old(Total(pool, ring, job))
    ensures ring.Contents() == old(ring.Contents()) + out
    ensures if |w| <= WIRE_MAX && Fits(job.segs, old(|pool.Contents()|), |w|) && old(|ring.Contents()|) < ring.cap
            then |out| == 1 && Stores(mem[..], out[0], w)
            else out == []
  {
    if |w| > WIRE_MAX {
      Drop(pool, mem, ring, job);
      return [];
    }
    out := WriteAndPush(pool, mem, ring, job, w, true);
  }

  /** Whether an outcome of the crypto layer can be put on the ring. */
  predicate Sends(e: Egress, job: Packet, free: seq<Addr>, queued: nat, cap: nat, counted: u32)
    requires |job.segs| <= MAX_SEGS
  {
    match e
    case Refused => false
    case Single(w) => |w| <= WIRE_MAX && Fits(job.segs, |free|, |w|) && queued < cap
    case Pair(w1, w2) => PairFits(job, free, |w1|, |w2|) && Bump(counted, 2) <= cap && queued + 2 <= cap
  }

  /** The packets hold exactly the wire frames of this outcome. */
  ghost predicate Carries(m: Memory, out: seq<Packet>, e: Egress) {
    || (e.Single? && |out| == 1 && Stores(m, out[0], e.frame))
    || (e.Pair? && BothStored(m, out, e.first, e.second))
  }

  /** The crypto layer's outcome goes on the ring if it can be sent. */
  method SendOutcome(pool: Ring<Addr>, mem: array<Frame>, ring: Ring<Packet>, job: Packet, e: Egress, counted: u32)
    returns (out: seq<Packet>)
    requires WorkerOk(pool, mem, ring, job) && Roomy(job.segs)
    modifies pool, pool.buf, mem, ring, ring.buf
    ensures WorkerOk(pool, mem, ring, NO_PACKET)
    ensures Total(pool, ring, NO_PACKET) == old(Total(pool, ring, job))
    ensures ring.Contents() == old(ring.Contents()) + out
    ensures if Sends(e, job, old(pool.Contents()), old(|ring.Contents()|), ring.cap, counted)
            then Carries(mem[..], out, e)
            else out == []
  {
    match e {
      case Refused =>
        Drop(pool, mem, ring, job);
        out := [];
      case Pair(w1, w2) => out := SendPair(pool, mem, ring, job, w1, w2, counted);
      case Single(w) => out := SendSingle(pool, mem, ring, job, w);
    }
  }

  /** dataplane_process_local. The wire frames reach the ring exactly if there is one WAN and the
      outcome of the crypto layer can be put there, and then hold exactly the bytes it produced. On
      every other exit the frames of the job are in the pool. */
  method ProcessLocal(pool: Ring<Addr>, mem: array<Frame>, ring: Ring<Packet>, job: Packet,
                      encrypt: seq<byte> -> Egress, oneWan: bool, counted: u32)
    returns (out: seq<Packet>)
    requires WorkerOk(pool, mem, ring, job) && Proper(job) && Inside(mem[..], job.segs)
    modifies pool, pool.buf, mem, ring, ring.buf
    ensures WorkerOk(pool, mem, ring, NO_PACKET)
    ensures Total(pool, ring, NO_PACKET) == old(Total(pool, ring, job))
    ensures ring.Contents() == old(ring.Contents()) + out
    ensures var e := encrypt(old(Gather(mem[..], job.segs)));
            if oneWan && Sends(e, job, old(pool.Contents()), old(|ring.Contents()|), ring.cap, counted)
            then Carries(mem[..], out, e)
            else out == []
  {
    var bytes := ReadJob(pool, mem, ring, job);
    if !oneWan {
      Drop(pool, mem, ring, job);
      return [];
    }
    out := SendOutcome(pool, mem, ring, job, encrypt(bytes), counted);
  }
}
