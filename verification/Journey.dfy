/** The whole way: from the bytes of a LAN packet in one appliance's frames, through its worker, its
    transmitter, the wire, the other appliance's receive queue and worker, to its LAN ring. */
module Journey {
  import opened Bytes
  import opened Limits
  import opened Wire
  import opened Codec
  import opened Ring
  import opened Frames
  import opened RxChains
  import opened Reassembly
  import opened FragmentRun
  import FragmentDelivery
  import opened Dataplane
  import opened EndToEnd

  // ---- the wire ------------------------------------------------------------------------

  ghost predicate OnFrames(m: Memory, ds: seq<Desc>) {
    forall i :: 0 <= i < |ds| ==> ds[i].addr < |m| && ds[i].len <= FRAME
  }

  /** The bytes a NIC reads for the first `n` descriptors. */
  function DescBytes(m: Memory, ds: seq<Desc>, n: nat): seq<byte>
    requires OnFrames(m, ds) && n <= |ds|
  {
    if n == 0 then [] else DescBytes(m, ds, n - 1) + m[ds[n - 1].addr][..ds[n - 1].len]
  }

  /** For a packet's own descriptors those are its bytes. */
  lemma {:induction false} TxBytes(m: Memory, p: Packet, n: nat)
    requires Proper(p) && Inside(m, p.segs) && n <= |p.segs|
    ensures OnFrames(m, TxDescs(p)) && DescBytes(m, TxDescs(p), n) == GatherTo(m, p.segs, n)
  {
    if n > 0 { TxBytes(m, p, n - 1); }
  }

  /** Frames that `n` bytes fill, none of them staying empty. */
  predicate TakesAll(into: seq<Seg>, n: nat) {
    1 <= |into| <= MAX_SEGS && Roomy(into) && CapSum(into, |into| - 1) < n <= CapSum(into, |into|)
  }

  /** The frames with `n` bytes in them. */
  function Landed(into: seq<Seg>, n: nat): Packet { Packet(Spread(into, n), n) }

  lemma {:induction false} CapsGrow(segs: seq<Seg>, i: nat, j: nat)
    requires i <= j <= |segs|
    ensures CapSum(segs, i) <= CapSum(segs, j)
    decreases j
  {
    if i < j { CapsGrow(segs, i, j - 1); }
  }

  lemma ShareIsSome(into: seq<Seg>, n: nat, i: nat)
    requires TakesAll(into, n) && i < |into|
    ensures 1 <= Share(into, i, n) <= into[i].cap
  {
    CapsGrow(into, i, |into| - 1);
  }

  lemma LandedProper(into: seq<Seg>, n: nat, frames: nat)
    requires TakesAll(into, n) && SegsOk(into, frames) && n <= JUMBO_MAX
    ensures Proper(Landed(into, n))
  {
    SpreadLen(into, n, |into|);
    forall i | 0 <= i < |into| ensures 1 <= Spread(into, n)[i].len <= Spread(into, n)[i].cap <= FRAME {
      ShareIsSome(into, n, i);
    }
  }

  /** One NIC sends what its descriptors hold; the other's kernel fills frames with it, however much
      of each it uses, and delivers one packet's descriptors. */
  method Send(mem: array<Frame>, ds: seq<Desc>, mem2: array<Frame>, into: seq<Seg>) returns (got: seq<Desc>)
    requires OnFrames(mem[..], ds) && mem != mem2 && SegsOk(into, mem2.Length)
    requires var n := |DescBytes(mem[..], ds, |ds|)|; TakesAll(into, n) && n <= JUMBO_MAX
    modifies mem2
    ensures var w := DescBytes(mem[..], ds, |ds|);
            && got == TxDescs(Landed(into, |w|)) && OnFrames(mem2[..], got)
            && DescBytes(mem2[..], got, |got|) == w && Stores(mem2[..], Landed(into, |w|), w)
  {
    var w := DescBytes(mem[..], ds, |ds|);
    var segs := Scatter(mem2, into, w);
    LandedProper(into, |w|, mem2.Length);
    var p := Packet(segs, |w|);
    got := TxDescs(p);
    TxBytes(mem2[..], p, |p.segs|);
  }

  // ---- the far end -----------------------------------------------------------------------

  lemma {:induction false} LenSame(a: seq<Seg>, b: seq<Seg>, n: nat)
    requires n <= |a| && n <= |b| && forall i :: 0 <= i < n ==> a[i].len == b[i].len
    ensures LenSum(a, n) == LenSum(b, n)
  {
    if n > 0 { LenSame(a, b, n - 1); }
  }

  /** A packet built from its descriptors holds the same bytes in the same frames. */
  lemma ReceivedProper(m: Memory, p: Packet, w: seq<byte>)
    requires Stores(m, p, w)
    ensures Stores(m, AsReceived(p), w) && Addrs(AsReceived(p).segs) == Addrs(p.segs)
  {
    var q := AsReceived(p);
    LenSame(q.segs, p.segs, |p.segs|);
    GatherFrame(m, p.segs, m, q.segs, |p.segs|);
  }

  lemma ParseNothing(ds: seq<Desc>, i: nat)
    requires i == |ds|
    ensures ParsesTo(ds, i, [])
  {
  }

  lemma ReceivedAlone(ds: seq<Desc>, i: nat, p: Packet)
    requires Proper(p) && i == 0 && ds == TxDescs(p)
    ensures ParsesTo(ds, i, [AsReceived(p)])
  {
    ParseNothing(ds, |ds|);
    assert ds[i..] == TxDescs(p) + [];
    TxParseStep(ds, i, p, [], []);
    assert [AsReceived(p)] + [] == [AsReceived(p)];
  }

  /** recv_queue from a clean chain puts out that one packet. */
  method TakeIn(slot: RxSlot, ds: seq<Desc>, ghost p: Packet) returns (q: Packet)
    requires slot.chain == NO_PACKET && !slot.invalid && |slot.rejects| <= REJECT_SLOTS
    requires Proper(p) && ds == TxDescs(p)
    modifies slot
    ensures q == AsReceived(p)
  {
    ghost var s := Rx(NO_PACKET, false, slot.rejects, []);
    var out := slot.RecvQueue(ds, BATCH);
    var i: nat := 0;
    FoldIsParse(s, ds, i);
    ReceivedAlone(ds, i, p);
    q := out[0];
  }

  /** The worker owns the same frames whatever bytes are in them. */
  lemma SameFrames(pool: Ring<Addr>, mem: array<Frame>, ring: Ring<Packet>, p: Packet, q: Packet)
    requires WorkerOk(pool, mem, ring, p) && Proper(q) && Addrs(q.segs) == Addrs(p.segs)
    ensures WorkerOk(pool, mem, ring, q)
  {
    forall i | 0 <= i < |q.segs| ensures q.segs[i].addr == p.segs[i].addr {
      assert Addrs(q.segs)[i] == Addrs(p.segs)[i];
    }
  }

  lemma {:induction false} ReceivedCaps(p: Packet, n: nat)
    requires n <= |p.segs|
    ensures CapSum(AsReceived(p).segs, n) == LenSum(p.segs, n)
  {
    if n > 0 { ReceivedCaps(p, n - 1); }
  }

  /** `n` bytes can replace the `was` bytes that came in `segs` buffers. */
  predicate Replaces(n: nat, was: nat, segs: nat, free: nat)
    requires segs <= MAX_SEGS
  {
    0 < n <= JUMBO_MAX && n <= was + FRAME * if free < MAX_SEGS - segs then free else MAX_SEGS - segs
  }

  lemma FitsReplaces(p: Packet, free: nat, n: nat)
    requires Proper(p)
    ensures Fits(AsReceived(p).segs, free, n) <==> Replaces(n, p.len, |p.segs|, free)
  {
    ReceivedCaps(p, |p.segs|);
  }

  /** The appliance at the far end of the wire: its receive queue, pool, frames and LAN ring. */
  method FarEnd(mem: array<Frame>, ds: seq<Desc>, slot: RxSlot, pool2: Ring<Addr>, mem2: array<Frame>,
                ring2: Ring<Packet>, into: seq<Seg>, decrypt: seq<byte> -> Ingress)
    returns (out: seq<Packet>)
    requires OnFrames(mem[..], ds) && mem != mem2
    requires var n := |DescBytes(mem[..], ds, |ds|)|; TakesAll(into, n) && n <= JUMBO_MAX
    requires slot.chain == NO_PACKET && !slot.invalid && |slot.rejects| <= REJECT_SLOTS
    requires WorkerOk(pool2, mem2, ring2, Packet(into, 0))
    modifies slot, pool2, pool2.buf, mem2, ring2, ring2.buf
    ensures ring2.Valid() && ring2.Contents() == old(ring2.Contents()) + out
    ensures var w := DescBytes(old(mem[..]), ds, |ds|);
            var r := decrypt(w);
            if && r.Plain? && Replaces(|r.packet|, |w|, |into|, old(|pool2.Contents()|))
               && old(|ring2.Contents()|) < ring2.cap
            then |out| == 1 && Stores(mem2[..], out[0], r.packet)
            else out == []
  {
    ghost var w := DescBytes(mem[..], ds, |ds|);
    var got := Send(mem, ds, mem2, into);
    ghost var p := Landed(into, |w|);
    ReceivedProper(mem2[..], p, w);
    var q := TakeIn(slot, got, p);
    SameFrames(pool2, mem2, ring2, Packet(into, 0), q);
    ghost var r := decrypt(w);
    if r.Plain? { FitsReplaces(p, |pool2.Contents()|, |r.packet|); }
    out := ProcessWan(pool2, mem2, ring2, q, decrypt, true);
  }

  // ---- both ends -----------------------------------------------------------------------------

  /** The wire frames of an outcome, in the order of their packets on the ring. */
  function FramesIn(e: Egress): seq<seq<byte>> {
    match e
    case Refused => []
    case Single(f) => [f]
    case Pair(f, g) => [f, g]
  }

  lemma CarriedFrame(m: Memory, out: seq<Packet>, e: Egress, i: nat)
    requires Carries(m, out, e) && i < |FramesIn(e)|
    ensures i < |out| && Stores(m, out[i], FramesIn(e)[i])
  {
  }

  /** A worker holds a packet with these bytes, and its outcome can be put on the ring. */
  ghost predicate JobReady(pool: Ring<Addr>, mem: array<Frame>, ring: Ring<Packet>, job: Packet, p: seq<byte>,
                           e: Egress, counted: u32)
    reads pool, pool.buf, mem, ring, ring.buf
  {
    && WorkerOk(pool, mem, ring, job) && Stores(mem[..], job, p)
    && Sends(e, job, pool.Contents(), |ring.Contents()|, ring.cap, counted)
  }

  /** A receive queue with a clean chain, and free frames for the `n` bytes to come. */
  ghost predicate QueueReady(slot: RxSlot, pool: Ring<Addr>, mem: array<Frame>, ring: Ring<Packet>,
                             into: seq<Seg>, n: nat)
    reads slot, pool, pool.buf, ring, ring.buf
  {
    && slot.chain == NO_PACKET && !slot.invalid && |slot.rejects| <= REJECT_SLOTS
    && WorkerOk(pool, mem, ring, Packet(into, 0)) && TakesAll(into, n) && n <= JUMBO_MAX
  }

  /** The near worker's sealed frames, one of which is sent on. */
  method NearEnd(pool: Ring<Addr>, mem: array<Frame>, ring: Ring<Packet>, job: Packet,
                 encrypt: seq<byte> -> Egress, counted: u32, i: nat, ghost p: seq<byte>)
    returns (ds: seq<Desc>)
    requires JobReady(pool, mem, ring, job, p, encrypt(p), counted) && i < |FramesIn(encrypt(p))|
    modifies pool, pool.buf, mem, ring, ring.buf
    ensures OnFrames(mem[..], ds) && DescBytes(mem[..], ds, |ds|) == FramesIn(encrypt(p))[i]
  {
    var out := ProcessLocal(pool, mem, ring, job, encrypt, true, counted);
    CarriedFrame(mem[..], out, encrypt(p), i);
    ds := TxDescs(out[i]);
    TxBytes(mem[..], out[i], |out[i].segs|);
  }

  /** Two appliances share nothing but the wire. */
  ghost predicate Apart(pool: Ring<Addr>, mem: array<Frame>, ring: Ring<Packet>,
                        pool2: Ring<Addr>, mem2: array<Frame>, ring2: Ring<Packet>)
    reads pool, ring, pool2, ring2
  {
    var near: set<object> := {pool, pool.buf, mem, ring, ring.buf};
    var far: set<object> := {pool2, pool2.buf, mem2, ring2, ring2.buf};
    near !! far
  }

  /** From a LAN job at one end to the LAN ring at the other: the `i`-th frame of its outcome
      crosses, and what opening it gives is what the far ring's packet holds. */
  method Cross(pool: Ring<Addr>, mem: array<Frame>, ring: Ring<Packet>, job: Packet,
               encrypt: seq<byte> -> Egress, counted: u32, i: nat, ghost p: seq<byte>,
               slot: RxSlot, pool2: Ring<Addr>, mem2: array<Frame>, ring2: Ring<Packet>, into: seq<Seg>,
               decrypt: seq<byte> -> Ingress)
    returns (out: seq<Packet>)
    requires Apart(pool, mem, ring, pool2, mem2, ring2)
    requires JobReady(pool, mem, ring, job, p, encrypt(p), counted) && i < |FramesIn(encrypt(p))|
    requires QueueReady(slot, pool2, mem2, ring2, into, |FramesIn(encrypt(p))[i]|)
    modifies pool, pool.buf, mem, ring, ring.buf, slot, pool2, pool2.buf, mem2, ring2, ring2.buf
    ensures ring2.Valid() && ring2.Contents() == old(ring2.Contents()) + out
    ensures var w := FramesIn(encrypt(p))[i];
            var r := decrypt(w);
            if && r.Plain? && Replaces(|r.packet|, |w|, |into|, old(|pool2.Contents()|))
               && old(|ring2.Contents()|) < ring2.cap
            then |out| == 1 && Stores(mem2[..], out[0], r.packet)
            else out == []
  {
    var ds := NearEnd(pool, mem, ring, job, encrypt, counted, i, p);
    out := FarEnd(mem, ds, slot, pool2, mem2, ring2, into, decrypt);
  }

  /** Main theorem, for a packet that goes out as one frame: its bytes, as sealed, are what the far
      LAN ring's packet holds, in whatever buffers the frame was received. UDP always; anything
      else if the ciphertext does not begin with the marker. */
  method CrossWhole(c: Cipher, worker: byte, meta: Meta, first: Option<Nonce>, second: Option<Nonce>,
                    pool: Ring<Addr>, mem: array<Frame>, ring: Ring<Packet>, job: Packet, counted: u32,
                    ghost p: seq<byte>, h: Hash, tables: seq<Table>, now: u64,
                    slot: RxSlot, pool2: Ring<Addr>, mem2: array<Frame>, ring2: Ring<Packet>, into: seq<Seg>)
    returns (out: seq<Packet>)
    requires Lawful(c) && worker < WORKERS && |tables| == WORKERS && |p| <= WIRE_MAX
    requires Apart(pool, mem, ring, pool2, mem2, ring2)
    requires EgressOf(c, p, worker, meta, first, second).Single?
    requires JobReady(pool, mem, ring, job, p, EgressOf(c, p, worker, meta, first, second), counted)
    requires QueueReady(slot, pool2, mem2, ring2, into, |EgressOf(c, p, worker, meta, first, second).frame|)
    requires |ring2.Contents()| < ring2.cap
    requires |p| >= 14 && (Classify(ParseFlow(p).1.proto).UdpProto?
                           || c.seal(first.value, Outgoing(p)[ET_OFF..])[..4] != MARK)
    modifies pool, pool.buf, mem, ring, ring.buf, slot, pool2, pool2.buf, mem2, ring2, ring2.buf
    ensures ring2.Valid() && ring2.Contents() == old(ring2.Contents()) + out
    ensures |out| == 1 && Stores(mem2[..], out[0], Outgoing(p))
  {
    SingleArrivesIff(c, h, tables, p, worker, meta, first, second, now);
    FramesFit(c, p, worker, meta, first, second);
    SameLength(p);
    out := Cross(pool, mem, ring, job, b => EgressOf(c, b, worker, meta, first, second), counted, 0, p,
                 slot, pool2, mem2, ring2, into, f => IngressOf(c, h, tables, f, now).1);
  }

  /** The frames of a pair in the order of their arrival. */
  function Arriving(e: Egress, tailFirst: bool): (seq<byte>, seq<byte>)
    requires e.Pair?
  {
    if tailFirst then (e.second, e.first) else (e.first, e.second)
  }

  /** `before` is what the second frame of a pair finds at the far end: the first one arrived at
      `t1`, with its number not pending, and other traffic followed. */
  ghost predicate Midway(c: Cipher, h: Hash, tables: seq<Table>, l: Label, p: seq<byte>, f: seq<byte>, tailFirst: bool,
                         t1: u64, mid: seq<Traffic>, t2: u64, before: seq<Table>)
    requires |p| > L3_OFF
  {
    && |tables| == WORKERS && l.worker < WORKERS
    && TableInv(h, tables[l.worker]) && !Holds(tables[l.worker], FragmentDelivery.KeyOf(l), t1)
    && FragmentDelivery.Untouched(Seen(c, l.worker, mid), FragmentDelivery.KeyOf(l))
    && Monotone(t1, Seen(c, l.worker, mid) + [Arrival(Sent(l, p, !tailFirst), t2)])
    && before == AfterAll(c, h, tables, [Incoming(f, t1)] + mid)
  }

  lemma SecondGives(c: Cipher, l: Label, first: Option<Nonce>, second: Option<Nonce>, p: seq<byte>, h: Hash,
                    tables: seq<Table>, tailFirst: bool, t1: u64, mid: seq<Traffic>, t2: u64, before: seq<Table>)
    requires Lawful(c) && L3_OFF < |p| <= WIRE_MAX && l.worker < WORKERS
    requires EgressOf(c, p, l.worker, MetaOf(l), first, second).Pair?
    requires var (f, g) := Arriving(EgressOf(c, p, l.worker, MetaOf(l), first, second), tailFirst);
             Midway(c, h, tables, l, p, f, tailFirst, t1, mid, t2, before)
    ensures var (f, g) := Arriving(EgressOf(c, p, l.worker, MetaOf(l), first, second), tailFirst);
            IngressOf(c, h, before, g, t2).1 ==
            if HalfLost(c, h, tables[l.worker], l, p, tailFirst, t1, mid, t2) then Absorbed else Plain(p)
  {
    PairArrives(c, h, tables, p, l.worker, MetaOf(l), first, second, tailFirst, t1, mid, t2);
  }

  /** Main theorem, for a packet that goes out as two frames: when the second to arrive crosses, after
      the first and any other traffic, the far LAN ring gets the whole packet byte for byte, unless it
      came too late or the first half was displaced, or the joined packet finds too few frames or a full ring. */
  method CrossPair(c: Cipher, l: Label, first: Option<Nonce>, second: Option<Nonce>,
                   pool: Ring<Addr>, mem: array<Frame>, ring: Ring<Packet>, job: Packet, counted: u32,
                   ghost p: seq<byte>, h: Hash, ghost tables: seq<Table>, tailFirst: bool,
                   ghost t1: u64, ghost mid: seq<Traffic>, t2: u64, before: seq<Table>,
                   slot: RxSlot, pool2: Ring<Addr>, mem2: array<Frame>, ring2: Ring<Packet>, into: seq<Seg>)
    returns (out: seq<Packet>)
    requires Lawful(c) && L3_OFF < |p| <= WIRE_MAX && l.worker < WORKERS
    requires Apart(pool, mem, ring, pool2, mem2, ring2)
    requires var e := EgressOf(c, p, l.worker, MetaOf(l), first, second);
             && e.Pair? && JobReady(pool, mem, ring, job, p, e, counted)
             && Midway(c, h, tables, l, p, Arriving(e, tailFirst).0, tailFirst, t1, mid, t2, before)
             && QueueReady(slot, pool2, mem2, ring2, into, |Arriving(e, tailFirst).1|)
    modifies pool, pool.buf, mem, ring, ring.buf, slot, pool2, pool2.buf, mem2, ring2, ring2.buf
    ensures ring2.Valid() && ring2.Contents() == old(ring2.Contents()) + out
    ensures var w := Arriving(EgressOf(c, p, l.worker, MetaOf(l), first, second), tailFirst).1;
            if && !HalfLost(c, h, tables[l.worker], l, p, tailFirst, t1, mid, t2)
               && Replaces(|p|, |w|, |into|, old(|pool2.Contents()|)) && old(|ring2.Contents()|) < ring2.cap
            then |out| == 1 && Stores(mem2[..], out[0], p)
            else out == []
  {
    SecondGives(c, l, first, second, p, h, tables, tailFirst, t1, mid, t2, before);
    out := Cross(pool, mem, ring, job, b => EgressOf(c, b, l.worker, MetaOf(l), first, second), counted,
                 if tailFirst then 0 else 1, p,
                 slot, pool2, mem2, ring2, into, f => IngressOf(c, h, before, f, t2).1);
  }
}
