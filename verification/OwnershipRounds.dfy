/** The steps of the frame economy do happen: two frames go once round through every place and come
    back to the pool, once sent and once refused. */
module OwnershipRounds {
  import opened Frames
  import opened RxChains
  import opened Ownership

  const IDLE_QUEUE := Queue([], [], [], NO_PACKET, false, [], [], [], [])
  const IDLE_RECEIVER := Receiver([], [])
  const IDLE_WORKER := Worker(Free, NO_PACKET, NO_PACKET, [])

  /** One NIC queue, its receiver, a ring to a worker and a ring back to the NIC. */
  function Small(pool: seq<Addr>, queue: Place, receiver: Place, jobs: seq<Packet>, worker: Place, out: seq<Packet>)
    : World
  {
    World(pool, 2, [queue, receiver, PacketRing(jobs, 1), worker, PacketRing(out, 2)])
  }

  /** The packet received, and what a worker makes of it: one byte more, in a second frame. */
  function Got(a: Addr, len: nat): Packet { Packet([Seg(a, len, len)], len) }

  function Wider(a: Addr, b: Addr, len: nat): Packet { Packet([Seg(a, len, len), Seg(b, 0, FRAME)], len) }

  function Made(a: Addr, b: Addr, len: nat): Packet { Packet([Seg(a, len, len), Seg(b, 1, FRAME)], len + 1) }

  // ---- in: pool, fill ring, RX ring, receiver, worker ------------------------------------------

  function InStep(k: nat, len: nat): Step {
    match k
    case 0 => RefillPop(0, 1)
    case 1 => RefillPush(0)
    case 2 => KernelReceive(0, len, false)
    case 3 => Receive(0, 1, 1)
    case 4 => Dispatch(1, 2, false)
    case _ => Pop(3, 2)
  }

  function InStage(k: nat, a: Addr, b: Addr, len: nat): World {
    match k
    case 0 => Small([a, b], IDLE_QUEUE, IDLE_RECEIVER, [], IDLE_WORKER, [])
    case 1 => Small([b], IDLE_QUEUE.(filling := [a]), IDLE_RECEIVER, [], IDLE_WORKER, [])
    case 2 => Small([b], IDLE_QUEUE.(fq := [a]), IDLE_RECEIVER, [], IDLE_WORKER, [])
    case 3 => Small([b], IDLE_QUEUE.(rx := [Desc(a, len, false)]), IDLE_RECEIVER, [], IDLE_WORKER, [])
    case 4 => Small([b], IDLE_QUEUE, Receiver([Got(a, len)], []), [], IDLE_WORKER, [])
    case 5 => Small([b], IDLE_QUEUE, IDLE_RECEIVER, [Got(a, len)], IDLE_WORKER, [])
    case _ => Small([b], IDLE_QUEUE, IDLE_RECEIVER, [], Worker(Holding, Got(a, len), NO_PACKET, []), [])
  }

  lemma ReceivesOne(a: Addr, len: nat)
    requires 1 <= len <= FRAME
    ensures var d := Desc(a, len, false);
            FoldAll(Rx(NO_PACKET, false, [], []), [d]) == Rx(NO_PACKET, false, [], [Got(a, len)])
  {
    var d, s := Desc(a, len, false), Rx(NO_PACKET, false, [], []);
    assert Fold(s, [d], 0, 0) == s;
    assert [] + [Seg(a, len, len)] == [Seg(a, len, len)];
    assert RxStep(s, d) == Rx(NO_PACKET, false, [], [Got(a, len)]);
  }

  lemma FrameArrives(a: Addr, b: Addr, len: nat, k: nat)
    requires 1 <= len <= FRAME && k < 3
    ensures Apply(InStage(k, a, b, len), InStep(k, len)) == InStage(k + 1, a, b, len)
  {
    var d := Desc(a, len, false);
    assert [a, b][1..] == [b] && [a, b][..1] == [a] && [] + [a] == [a];
    assert [a][1..] == [] && [] + [d] == [d];
  }

  lemma PacketReceived(a: Addr, b: Addr, len: nat)
    requires 1 <= len <= FRAME
    ensures Apply(InStage(3, a, b, len), InStep(3, len)) == InStage(4, a, b, len)
  {
    var d, p := Desc(a, len, false), Got(a, len);
    ReceivesOne(a, len);
    assert [d][..1] == [d] && [d][1..] == [] && [] + [p] == [p];
  }

  lemma PacketPassedOn(a: Addr, b: Addr, len: nat, k: nat)
    requires 1 <= len <= FRAME && 4 <= k < 6
    ensures Apply(InStage(k, a, b, len), InStep(k, len)) == InStage(k + 1, a, b, len)
  {
    var p := Got(a, len);
    assert [p][1..] == [] && [] + [p] == [p];
  }

  /** Refill, reception, receive, dispatch and pop carry a frame from the pool to a worker. */
  lemma ComesIn(a: Addr, b: Addr, len: nat, k: nat)
    requires 1 <= len <= FRAME && k < 6
    ensures Apply(InStage(k, a, b, len), InStep(k, len)) == InStage(k + 1, a, b, len)
  {
    if k < 3 {
      FrameArrives(a, b, len, k);
    } else if k == 3 {
      PacketReceived(a, b, len);
    } else {
      PacketPassedOn(a, b, len, k);
    }
  }

  // ---- out: growing, filling, TX ring, completion ring, pool ------------------------------------

  function OutStep(k: nat, len: nat): Step {
    match k
    case 0 => Choose(3, len + 1, 0)
    case 1 => Grow(3)
    case 2 => Fill(3)
    case 3 => Push(3, 4, false)
    case 4 => Take(0, 4)
    case 5 => Submit(0)
    case 6 => KernelSend(0)
    case 7 => KernelSend(0)
    case _ => Drain(0, 2)
  }

  function OutStage(k: nat, a: Addr, b: Addr, len: nat): World {
    var p := Made(a, b, len);
    match k
    case 0 => InStage(6, a, b, len)
    case 1 => Small([b], IDLE_QUEUE, IDLE_RECEIVER, [], Worker(WritingHead(len + 1, 0), Got(a, len), NO_PACKET, []), [])
    case 2 =>
      Small([], IDLE_QUEUE, IDLE_RECEIVER, [], Worker(WritingHead(len + 1, 0), Wider(a, b, len), NO_PACKET, []), [])
    case 3 => Small([], IDLE_QUEUE, IDLE_RECEIVER, [], Worker(Pushing, p, NO_PACKET, []), [])
    case 4 => Small([], IDLE_QUEUE, IDLE_RECEIVER, [], IDLE_WORKER, [p])
    case 5 => Small([], IDLE_QUEUE.(sending := [p]), IDLE_RECEIVER, [], IDLE_WORKER, [])
    case 6 => Small([], IDLE_QUEUE.(tx := [Desc(a, len, true), Desc(b, 1, false)]), IDLE_RECEIVER, [], IDLE_WORKER, [])
    case 7 => Small([], IDLE_QUEUE.(tx := [Desc(b, 1, false)], cq := [a]), IDLE_RECEIVER, [], IDLE_WORKER, [])
    case 8 => Small([], IDLE_QUEUE.(cq := [a, b]), IDLE_RECEIVER, [], IDLE_WORKER, [])
    case _ => InStage(0, a, b, len)
  }

  lemma TwoCaps(s: Seg, t: Seg)
    ensures var segs := [s, t];
            CapSum(segs, 0) == 0 && CapSum(segs, 1) == s.cap && CapSum(segs, 2) == s.cap + t.cap
  {
    var segs := [s, t];
    assert CapSum(segs, 1) == CapSum(segs, 0) + segs[0].cap;
  }

  /** Filling the two frames with one byte more than the first one holds. */
  lemma FillsBoth(a: Addr, b: Addr, len: nat)
    requires 1 <= len <= FRAME
    ensures var o := WriteOutcome(Wider(a, b, len), [], len + 1); o.packet == Made(a, b, len) && o.pool == []
  {
    var p, n := Wider(a, b, len), len + 1;
    TwoCaps(p.segs[0], p.segs[1]);
    assert p.segs + NewSegs([], 0) == p.segs;
    var sp := Spread(p.segs, n);
    assert sp == Made(a, b, len).segs;
    assert UsedOf(p.segs, n) == 2;
    assert sp[..2] == sp && Addrs(sp[2..]) == [];
  }

  lemma SendsBoth(a: Addr, b: Addr, len: nat)
    requires 1 <= len <= FRAME
    ensures SentAs(Made(a, b, len)) == [Desc(a, len, true), Desc(b, 1, false)]
  {
  }

  lemma WorkerGrows(a: Addr, b: Addr, len: nat, k: nat)
    requires 1 <= len <= FRAME && k < 2
    ensures Apply(OutStage(k, a, b, len), OutStep(k, len)) == OutStage(k + 1, a, b, len)
  {
    assert CapSum(Got(a, len).segs, 1) == CapSum(Got(a, len).segs, 0) + len;
    assert [b][1..] == [] && Got(a, len).segs + [Seg(b, 0, FRAME)] == Wider(a, b, len).segs;
  }

  lemma WorkerFills(a: Addr, b: Addr, len: nat, k: nat)
    requires 1 <= len <= FRAME && 2 <= k < 4
    ensures Apply(OutStage(k, a, b, len), OutStep(k, len)) == OutStage(k + 1, a, b, len)
  {
    TwoCaps(Seg(a, len, len), Seg(b, 0, FRAME));
    FillsBoth(a, b, len);
    assert [] + [Made(a, b, len)] == [Made(a, b, len)];
  }

  lemma QueueSubmits(a: Addr, b: Addr, len: nat, k: nat)
    requires 1 <= len <= FRAME && 4 <= k < 6
    ensures Apply(OutStage(k, a, b, len), OutStep(k, len)) == OutStage(k + 1, a, b, len)
  {
    var p, ds := Made(a, b, len), [Desc(a, len, true), Desc(b, 1, false)];
    SendsBoth(a, b, len);
    assert [p][1..] == [] && [] + ds == ds;
  }

  lemma QueueSends(a: Addr, b: Addr, len: nat, k: nat)
    requires 1 <= len <= FRAME && 6 <= k < 8
    ensures Apply(OutStage(k, a, b, len), OutStep(k, len)) == OutStage(k + 1, a, b, len)
  {
    var first, second := Desc(a, len, true), Desc(b, 1, false);
    assert [first, second][1..] == [second] && [second][1..] == [] && [] + [a] == [a] && [a] + [b] == [a, b];
  }

  lemma QueueDrains(a: Addr, b: Addr, len: nat)
    requires 1 <= len <= FRAME
    ensures Apply(OutStage(8, a, b, len), OutStep(8, len)) == OutStage(9, a, b, len)
  {
    assert [a, b][..2] == [a, b] && [a, b][2..] == [] && [] + [a, b] == [a, b];
  }

  /** Growing, filling, push, transmission and completion carry both frames back to the pool. */
  lemma GoesOut(a: Addr, b: Addr, len: nat, k: nat)
    requires 1 <= len <= FRAME && k < 9
    ensures Apply(OutStage(k, a, b, len), OutStep(k, len)) == OutStage(k + 1, a, b, len)
  {
    if k < 2 {
      WorkerGrows(a, b, len, k);
    } else if k < 4 {
      WorkerFills(a, b, len, k);
    } else if k < 6 {
      QueueSubmits(a, b, len, k);
    } else if k < 8 {
      QueueSends(a, b, len, k);
    } else {
      QueueDrains(a, b, len);
    }
  }

  // ---- refused: two wire frames written, the push refused, the frames freed ------------------------

  function BackStep(k: nat): Step {
    match k
    case 0 => Choose(3, 1, 1)
    case 1 => Fill(3)
    case 2 => Grow(3)
    case 3 => Fill(3)
    case 4 => Push(3, 4, true)
    case _ => FreeOne(3)
  }

  function BackStage(k: nat, a: Addr, b: Addr, len: nat): World {
    var head, empty, tail := Packet([Seg(a, 1, len)], 1), Packet([Seg(b, 0, FRAME)], 0), Packet([Seg(b, 1, FRAME)], 1);
    match k
    case 0 => InStage(6, a, b, len)
    case 1 => Small([b], IDLE_QUEUE, IDLE_RECEIVER, [], Worker(WritingHead(1, 1), Got(a, len), NO_PACKET, []), [])
    case 2 => Small([b], IDLE_QUEUE, IDLE_RECEIVER, [], Worker(WritingTail(1), head, NO_PACKET, []), [])
    case 3 => Small([], IDLE_QUEUE, IDLE_RECEIVER, [], Worker(WritingTail(1), head, empty, []), [])
    case 4 => Small([], IDLE_QUEUE, IDLE_RECEIVER, [], Worker(Pushing, head, tail, []), [])
    case 5 => Small([], IDLE_QUEUE, IDLE_RECEIVER, [], IDLE_WORKER.(doomed := [b, a]), [])
    case 6 => Small([b], IDLE_QUEUE, IDLE_RECEIVER, [], IDLE_WORKER.(doomed := [a]), [])
    case _ => Small([b, a], IDLE_QUEUE, IDLE_RECEIVER, [], IDLE_WORKER, [])
  }

  /** One byte written into one frame. */
  lemma FillsOne(s: Seg)
    requires 1 <= s.cap <= FRAME
    ensures var o := WriteOutcome(Packet([s], s.len), [], 1); o.packet == Packet([s.(len := 1)], 1) && o.pool == []
    ensures CapSum([s], 1) == s.cap
  {
    var segs := [s];
    assert CapSum(segs, 1) == CapSum(segs, 0) + segs[0].cap;
    assert segs + NewSegs([], 0) == segs;
    var sp := Spread(segs, 1);
    assert sp == [s.(len := 1)];
    assert UsedOf(segs, 1) == 1;
    assert sp[..1] == sp && Addrs(sp[1..]) == [];
  }

  lemma WritesHead(a: Addr, b: Addr, len: nat, k: nat)
    requires 1 <= len <= FRAME && k < 2
    ensures Apply(BackStage(k, a, b, len), BackStep(k)) == BackStage(k + 1, a, b, len)
  {
    FillsOne(Seg(a, len, len));
  }

  lemma WritesTail(a: Addr, b: Addr, len: nat, k: nat)
    requires 1 <= len <= FRAME && 2 <= k < 4
    ensures Apply(BackStage(k, a, b, len), BackStep(k)) == BackStage(k + 1, a, b, len)
  {
    FillsOne(Seg(b, 0, FRAME));
    assert [b][1..] == [] && [] + [Seg(b, 0, FRAME)] == [Seg(b, 0, FRAME)];
  }

  lemma PushRefused(a: Addr, b: Addr, len: nat)
    requires 1 <= len <= FRAME
    ensures Apply(BackStage(4, a, b, len), BackStep(4)) == BackStage(5, a, b, len)
  {
    assert Addrs([Seg(a, 1, len)]) == [a] && Addrs([Seg(b, 1, FRAME)]) == [b] && [] + [b] == [b] && [b] + [a] == [b, a];
  }

  lemma GivesBack(a: Addr, b: Addr, len: nat, k: nat)
    requires 1 <= len <= FRAME && 5 <= k < 7
    ensures Apply(BackStage(k, a, b, len), BackStep(k)) == BackStage(k + 1, a, b, len)
  {
    assert [b, a][..1] == [b] && [b, a][1..] == [a] && [a][..1] == [a] && [a][1..] == [];
    assert [] + [b] == [b] && [b] + [a] == [b, a];
  }

  /** Of a refused pair both frames come back to the pool, one by one. */
  lemma ComesBack(a: Addr, b: Addr, len: nat, k: nat)
    requires 1 <= len <= FRAME && k < 7
    ensures Apply(BackStage(k, a, b, len), BackStep(k)) == BackStage(k + 1, a, b, len)
  {
    if k < 2 {
      WritesHead(a, b, len, k);
    } else if k < 4 {
      WritesTail(a, b, len, k);
    } else if k == 4 {
      PushRefused(a, b, len);
    } else {
      GivesBack(a, b, len, k);
    }
  }

  /** So does the frame of a packet that no ring took. */
  lemma DroppedComesBack(a: Addr, b: Addr, len: nat)
    requires 1 <= len <= FRAME
    ensures var w := Small([b], IDLE_QUEUE, Receiver([Got(a, len)], []), [], IDLE_WORKER, []);
            var w1 := Small([b], IDLE_QUEUE, Receiver([], [a]), [], IDLE_WORKER, []);
            && Apply(w, Dispatch(1, 2, true)) == w1
            && Apply(w1, FreeOne(1)) == Small([b, a], IDLE_QUEUE, IDLE_RECEIVER, [], IDLE_WORKER, [])
  {
    assert [Got(a, len)][1..] == [] && Addrs([Seg(a, len, len)]) == [a] && [] + [a] == [a];
    assert [a][..1] == [a] && [a][1..] == [] && [b] + [a] == [b, a];
  }

  /** And one that the receive queue rejected. */
  lemma RejectedComesBack(a: Addr, b: Addr)
    ensures Apply(Small([b], IDLE_QUEUE.(rejects := [a]), IDLE_RECEIVER, [], IDLE_WORKER, []), Release(0)) ==
            Small([b, a], IDLE_QUEUE, IDLE_RECEIVER, [], IDLE_WORKER, [])
  {
    assert [a][..1] == [a] && [b] + [a] == [b, a];
  }
}
