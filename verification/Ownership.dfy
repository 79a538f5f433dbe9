/** The economy of packet frames over whole runs of any number of queues, receivers, workers and
    rings, one access to shared state per step: every frame always has exactly one owner. */
module Ownership {
  import opened Limits
  import opened Frames
  import opened RxChains
  import opened NicQueues
  import opened Dataplane

  // ---- who can own frames ------------------------------------------------------------------

  /** Where a worker is: free, holding a packet, writing the first or second wire frame (of `n`
      bytes; `next` is the size of the second one, 0 if there is none), or about to push. */
  datatype Phase = Free | Holding | WritingHead(n: nat, next: nat) | WritingTail(n: nat) | Pushing

  /** `doomed` are frames a thread still has to give back, one by one. */
  datatype Place =
    | Queue(filling: seq<Addr>, fq: seq<Addr>, rx: seq<Desc>, chain: Packet, invalid: bool, rejects: seq<Addr>,
            sending: seq<Packet>, tx: seq<Desc>, cq: seq<Addr>)
    | Receiver(batch: seq<Packet>, doomed: seq<Addr>)
    | PacketRing(q: seq<Packet>, size: nat)
    | Worker(phase: Phase, head: Packet, tail: Packet, doomed: seq<Addr>)

  /** The shared pool of capacity `cap`, and everything else. */
  datatype World = World(pool: seq<Addr>, cap: nat, places: seq<Place>)

  /** What a place owns of frame `a`. */
  function Own(p: Place, a: Addr): nat {
    match p
    case Queue(filling, fq, rx, chain, _, rejects, sending, tx, cq) =>
      multiset(filling)[a] + multiset(fq)[a] + DescFrames(rx)[a] + FramesOf(chain)[a] + multiset(rejects)[a]
      + RingFrames(sending)[a] + DescFrames(tx)[a] + multiset(cq)[a]
    case Receiver(batch, doomed) => RingFrames(batch)[a] + multiset(doomed)[a]
    case PacketRing(q, _) => RingFrames(q)[a]
    case Worker(_, head, tail, doomed) => FramesOf(head)[a] + FramesOf(tail)[a] + multiset(doomed)[a]
  }

  function Counts(places: seq<Place>, a: Addr): (c: seq<nat>)
    ensures |c| == |places|
  {
    seq(|places|, i requires 0 <= i < |places| => Own(places[i], a))
  }

  function Sum(c: seq<nat>, n: nat): nat
    requires n <= |c|
  {
    if n == 0 then 0 else Sum(c, n - 1) + c[n - 1]
  }

  /** How many owners frame `a` has. */
  function Owners(w: World, a: Addr): nat { multiset(w.pool)[a] + Sum(Counts(w.places, a), |w.places|) }

  // ---- steps --------------------------------------------------------------------------------

  datatype Step =
    | RefillPop(i: nat, k: nat) | RefillPush(i: nat)          // refill of queue `i`
    | KernelReceive(i: nat, len: nat, more: bool)
    | Receive(i: nat, j: nat, k: nat) | Release(i: nat)       // receiver `j` on queue `i`
    | Dispatch(i: nat, j: nat, refuse: bool)                  // receiver `i` to ring `j`
    | FreeOne(i: nat)                                         // any thread with doomed frames
    | Pop(i: nat, j: nat) | Choose(i: nat, n: nat, next: nat) // worker `i`, ring `j`
    | Grow(i: nat) | Fill(i: nat) | Push(i: nat, j: nat, refuse: bool)
    | Take(i: nat, j: nat) | Submit(i: nat)                   // transmit thread, queue `i`, ring `j`
    | KernelSend(i: nat)
    | Drain(i: nat, k: nat)

  /** pool_push keeps what fits; anything else would be lost. */
  function Pushed(w: World, xs: seq<Addr>): seq<Addr> {
    var room := if |w.pool| <= w.cap then w.cap - |w.pool| else 0;
    w.pool + xs[..if |xs| <= room then |xs| else room]
  }

  function Put(w: World, i: nat, p: Place): World
    requires i < |w.places|
  {
    w.(places := w.places[i := p])
  }

  /** The descriptors a packet is sent as; without a segment count it counts as one at address 0. */
  function SentAs(p: Packet): seq<Desc> {
    if p.segs == [] then [Desc(0, if p.len > FRAME then FRAME else p.len, false)] else TxDescs(p)
  }

  /** recv_queue on the next `k` descriptors. */
  function Received(p: Place, k: nat): Rx
    requires p.Queue? && k <= |p.rx|
  {
    FoldAll(Rx(p.chain, p.invalid, p.rejects, []), p.rx[..k])
  }

  function StepQueue(w: World, step: Step, i: nat): World
    requires i < |w.places| && w.places[i].Queue?
  {
    var p := w.places[i];
    match step
    case RefillPop(_, k) =>
      if p.filling == [] && k <= |w.pool|
      then Put(w.(pool := w.pool[k..]), i, p.(filling := w.pool[..k])) else w
    case RefillPush(_) => Put(w, i, p.(fq := p.fq + p.filling, filling := []))
    case KernelReceive(_, len, more) =>
      if |p.fq| > 0 && 1 <= len <= FRAME
      then Put(w, i, p.(fq := p.fq[1..], rx := p.rx + [Desc(p.fq[0], len, more)])) else w
    case Release(_) => Put(w.(pool := Pushed(w, p.rejects)), i, p.(rejects := []))
    case Submit(_) =>
      if |p.sending| == 1 then Put(w, i, p.(sending := [], tx := p.tx + SentAs(p.sending[0]))) else w
    case KernelSend(_) =>
      if |p.tx| > 0 then Put(w, i, p.(tx := p.tx[1..], cq := p.cq + [p.tx[0].addr])) else w
    case Drain(_, k) =>
      if k <= |p.cq| then Put(w.(pool := Pushed(w, p.cq[..k])), i, p.(cq := p.cq[k..])) else w
    case _ => w
  }

  /** A packet that could not be written or pushed is given back, segment by segment. */
  function Doom(p: Place): Place
    requires p.Worker?
  {
    Worker(Free, NO_PACKET, NO_PACKET, p.doomed + Freed(p.tail) + Freed(p.head))
  }

  function WithFrame(p: Packet, a: Addr): Packet { Packet(p.segs + [Seg(a, 0, FRAME)], p.len) }

  /** One turn of ne_packet_write's growing loop: a frame is taken, or the write fails. */
  function StepGrow(w: World, j: nat): World
    requires j < |w.places| && w.places[j].Worker?
  {
    var p := w.places[j];
    if p.phase.WritingHead? && CapSum(p.head.segs, |p.head.segs|) < p.phase.n then
      if |p.head.segs| < MAX_SEGS && |w.pool| > 0
      then Put(w.(pool := w.pool[1..]), j, p.(head := WithFrame(p.head, w.pool[0])))
      else Put(w, j, Doom(p))
    else if p.phase.WritingTail? && (p.phase.n > JUMBO_MAX || CapSum(p.tail.segs, |p.tail.segs|) < p.phase.n) then
      if p.phase.n <= JUMBO_MAX && |p.tail.segs| < MAX_SEGS && |w.pool| > 0
      then Put(w.(pool := w.pool[1..]), j, p.(tail := WithFrame(p.tail, w.pool[0])))
      else Put(w, j, Doom(p))
    else w
  }

  /** The rest of ne_packet_write once there is room: fill, and drop what was not needed. */
  function StepFill(w: World, j: nat): World
    requires j < |w.places| && w.places[j].Worker?
  {
    var p := w.places[j];
    if p.phase.WritingHead? && CapSum(p.head.segs, |p.head.segs|) >= p.phase.n then
      var o := WriteOutcome(p.head, [], p.phase.n);
      Put(w, j, Worker(if p.phase.next == 0 then Pushing else WritingTail(p.phase.next), o.packet, NO_PACKET, o.pool))
    else if p.phase.WritingTail? && p.phase.n <= JUMBO_MAX && CapSum(p.tail.segs, |p.tail.segs|) >= p.phase.n then
      var o := WriteOutcome(p.tail, [], p.phase.n);
      Put(w, j, Worker(Pushing, p.head, o.packet, o.pool))
    else w
  }

  /** What the crypto layer made of the packet: nothing, one frame, or two. */
  function StepChoose(w: World, j: nat, n: nat, next: nat): World
    requires j < |w.places| && w.places[j].Worker?
  {
    var p := w.places[j];
    if !p.phase.Holding? then w
    else if n == 0 || n > JUMBO_MAX then Put(w, j, Doom(p))
    else Put(w, j, p.(phase := WritingHead(n, next)))
  }

  function StepWorker(w: World, step: Step, j: nat): World
    requires j < |w.places| && w.places[j].Worker?
  {
    var p := w.places[j];
    match step
    case FreeOne(_) =>
      if |p.doomed| > 0 then Put(w.(pool := Pushed(w, p.doomed[..1])), j, p.(doomed := p.doomed[1..])) else w
    case Choose(_, n, next) => if p.doomed == [] then StepChoose(w, j, n, next) else w
    case Grow(_) => if p.doomed == [] then StepGrow(w, j) else w
    case Fill(_) => if p.doomed == [] then StepFill(w, j) else w
    case _ => w
  }

  /** A receive is safe for the reject list: it holds after a release, since 64 + 4 fit 68. */
  predicate RoomForRejects(p: Place, k: nat)
    requires p.Queue?
  {
    |p.rejects| + |p.chain.segs| + k <= REJECT_SLOTS
  }

  /** Steps on two places. Dispatch and push may also be refused although the ring has room: no worker
      takes the packet, there is not exactly one port, or the unlocked count was stale. Of the two, the
      first is not a ring and the second is another place. */
  function StepPair(w: World, step: Step, i: nat, j: nat): World
    requires i < |w.places| && j < |w.places| && i != j
  {
    var p, r := w.places[i], w.places[j];
    match step
    case Receive(_, _, k) =>
      if p.Queue? && r.Receiver? && k <= |p.rx| && |r.batch| + k <= BATCH && RoomForRejects(p, k) then
        var s := Received(p, k);
        Put(Put(w, i, p.(rx := p.rx[k..], chain := s.chain, invalid := s.invalid, rejects := Kept(s.rejects))),
            j, r.(batch := r.batch + s.out))
      else w
    case Dispatch(_, _, refuse) =>
      if p.Receiver? && r.PacketRing? && |p.batch| > 0 then
        if !refuse && |r.q| < r.size
        then Put(Put(w, i, p.(batch := p.batch[1..])), j, r.(q := r.q + [p.batch[0]]))
        else Put(w, i, Receiver(p.batch[1..], p.doomed + Freed(p.batch[0])))
      else w
    case Pop(_, _) =>
      if p.Worker? && r.PacketRing? && p.phase.Free? && p.doomed == [] && |r.q| > 0
      then Put(Put(w, i, p.(phase := Holding, head := r.q[0])), j, r.(q := r.q[1..]))
      else w
    case Push(_, _, refuse) =>
      if p.Worker? && r.PacketRing? && p.phase.Pushing? && p.doomed == [] then
        var ps := if p.tail == NO_PACKET then [p.head] else [p.head, p.tail];
        if !refuse && |r.q| + |ps| <= r.size
        then Put(Put(w, i, Worker(Free, NO_PACKET, NO_PACKET, [])), j, r.(q := r.q + ps))
        else Put(w, i, Doom(p))
      else w
    case Take(_, _) =>
      if p.Queue? && r.PacketRing? && p.sending == [] && |r.q| > 0
      then Put(Put(w, i, p.(sending := [r.q[0]])), j, r.(q := r.q[1..]))
      else w
    case _ => w
  }

  function StepReceiver(w: World, step: Step, i: nat): World
    requires i < |w.places| && w.places[i].Receiver?
  {
    var p := w.places[i];
    if step.FreeOne? && |p.doomed| > 0
    then Put(w.(pool := Pushed(w, p.doomed[..1])), i, Receiver(p.batch, p.doomed[1..]))
    else w
  }

  predicate OnTwoPlaces(step: Step) { step.Receive? || step.Dispatch? || step.Pop? || step.Push? || step.Take? }

  /** Any thread and the kernel may move at any time; a step that is not possible changes nothing. */
  function Apply(w: World, step: Step): World {
    if step.i >= |w.places| then w
    else if OnTwoPlaces(step) then
      if step.j < |w.places| && step.i != step.j then StepPair(w, step, step.i, step.j) else w
    else match w.places[step.i]
      case Queue(_, _, _, _, _, _, _, _, _) => StepQueue(w, step, step.i)
      case Worker(_, _, _, _) => StepWorker(w, step, step.i)
      case Receiver(_, _) => StepReceiver(w, step, step.i)
      case PacketRing(_, _) => w
  }

  // ---- invariant -------------------------------------------------------------------------------

  /** Packets are well-formed wherever they are. */
  predicate Good(p: Place) {
    match p
    case Queue(_, _, rx, chain, _, _, sending, _, _) => Delivered(rx) && ProperChain(chain) && AllProper(sending)
    case Receiver(batch, _) => AllProper(batch)
    case PacketRing(q, _) => AllProper(q)
    case Worker(phase, head, tail, _) =>
      match phase
      case Free => head == NO_PACKET && tail == NO_PACKET
      case Holding => Proper(head) && tail == NO_PACKET
      case WritingHead(n, _) => Growable(head) && 0 < n <= JUMBO_MAX && tail == NO_PACKET
      case WritingTail(n) => 0 < n && Proper(head) && Growable(tail)
      case Pushing => Proper(head) && (tail == NO_PACKET || Proper(tail))
  }

  ghost predicate Conserved(w: World, frames: nat) {
    && frames <= w.cap
    && (forall a: Addr :: Owners(w, a) == if a < frames then 1 else 0)
    && (forall i :: 0 <= i < |w.places| ==> Good(w.places[i]))
  }

  // ---- counting ----------------------------------------------------------------------------------

  lemma {:induction false} SumSet(c: seq<nat>, n: nat, i: nat, x: nat)
    requires n <= |c| && i < |c|
    ensures Sum(c[i := x], n) + (if i < n then c[i] else 0) == Sum(c, n) + (if i < n then x else 0)
  {
    if n > 0 { SumSet(c, n - 1, i, x); }
  }

  lemma {:induction false} SumAtLeast(c: seq<nat>, n: nat, i: nat)
    requires i < n <= |c|
    ensures c[i] <= Sum(c, n)
  {
    if i < n - 1 { SumAtLeast(c, n - 1, i); }
  }

  lemma OwnAtLeast(w: World, i: nat, a: Addr)
    requires i < |w.places|
    ensures multiset(w.pool)[a] + Own(w.places[i], a) <= Owners(w, a)
  {
    SumAtLeast(Counts(w.places, a), |w.places|, i);
  }

  lemma OwnersPut(w: World, i: nat, p: Place, a: Addr)
    requires i < |w.places|
    ensures Owners(Put(w, i, p), a) + Own(w.places[i], a) == Owners(w, a) + Own(p, a)
  {
    SumSet(Counts(w.places, a), |w.places|, i, Own(p, a));
    assert Counts(w.places[i := p], a) == Counts(w.places, a)[i := Own(p, a)];
  }

  /** Frames only move between the pool and the place. */
  ghost predicate Moves(pool: seq<Addr>, p: Place, pool': seq<Addr>, p': Place) {
    forall a: Addr :: multiset(pool')[a] + Own(p', a) == multiset(pool)[a] + Own(p, a)
  }

  /** Frames only move between the two places. */
  ghost predicate MovesBetween(p: Place, r: Place, p': Place, r': Place) {
    forall a: Addr :: Own(p', a) + Own(r', a) == Own(p, a) + Own(r, a)
  }

  /** The frames are among those the place owns. */
  ghost predicate Has(p: Place, xs: seq<Addr>) { forall a: Addr :: multiset(xs)[a] <= Own(p, a) }

  lemma PutConserves(w: World, frames: nat, i: nat, pool: seq<Addr>, p: Place)
    requires Conserved(w, frames) && i < |w.places| && Good(p) && Moves(w.pool, w.places[i], pool, p)
    ensures Conserved(Put(w.(pool := pool), i, p), frames)
  {
    forall a: Addr ensures Owners(Put(w.(pool := pool), i, p), a) == Owners(w, a) {
      OwnersPut(w.(pool := pool), i, p, a);
      assert multiset(pool)[a] + Own(p, a) == multiset(w.pool)[a] + Own(w.places[i], a);
    }
  }

  lemma PutTwoConserves(w: World, frames: nat, i: nat, p: Place, j: nat, r: Place)
    requires Conserved(w, frames) && i < |w.places| && j < |w.places| && i != j && Good(p) && Good(r)
    requires MovesBetween(w.places[i], w.places[j], p, r)
    ensures Conserved(Put(Put(w, i, p), j, r), frames)
  {
    var w1 := Put(w, i, p);
    forall a: Addr ensures Owners(Put(w1, j, r), a) == Owners(w, a) {
      OwnersPut(w, i, p, a);
      OwnersPut(w1, j, r, a);
      assert Own(p, a) + Own(r, a) == Own(w.places[i], a) + Own(w.places[j], a);
    }
  }

  function AllFrames(n: nat): seq<Addr> { seq(n, i requires 0 <= i < n => i) }

  lemma {:induction false} EachOnce(n: nat, a: Addr)
    ensures multiset(AllFrames(n))[a] == if a < n then 1 else 0
  {
    if n > 0 {
      EachOnce(n - 1, a);
      assert AllFrames(n) == AllFrames(n - 1) + [n - 1];
    }
  }

  /** Frames held once each are no more than there are, and all of them exist. */
  lemma AtMost(s: seq<Addr>, frames: nat)
    requires forall a: Addr :: multiset(s)[a] <= if a < frames then 1 else 0
    ensures |s| <= frames && forall i :: 0 <= i < |s| ==> s[i] < frames
  {
    forall i | 0 <= i < |s| ensures s[i] < frames {
      assert s[i] in multiset(s);
    }
    var mine: multiset<Addr>, all: multiset<Addr> := multiset(s), multiset(AllFrames(frames));
    forall a: Addr ensures mine[a] <= all[a] {
      EachOnce(frames, a);
    }
    assert mine <= all;
    assert all == mine + (all - mine);
    assert |mine| == |s| && |all| == frames;
  }

  /** The pool has room for anything a place owns: pool_push never loses a frame. */
  lemma PoolHasRoom(w: World, frames: nat, i: nat, xs: seq<Addr>)
    requires Conserved(w, frames) && i < |w.places| && Has(w.places[i], xs)
    ensures |w.pool| + |xs| <= frames && Pushed(w, xs) == w.pool + xs
    ensures forall k :: 0 <= k < |xs| ==> xs[k] < frames
  {
    var both := w.pool + xs;
    forall a: Addr ensures multiset(both)[a] <= if a < frames then 1 else 0 {
      OwnAtLeast(w, i, a);
      assert Owners(w, a) == if a < frames then 1 else 0;
    }
    AtMost(both, frames);
    forall k | 0 <= k < |xs| ensures xs[k] < frames {
      assert both[|w.pool| + k] == xs[k];
    }
    assert xs[..|xs|] == xs;
  }

  lemma CutCount(s: seq<Addr>, k: nat, a: Addr)
    requires k <= |s|
    ensures multiset(s)[a] == multiset(s[..k])[a] + multiset(s[k..])[a]
  {
    assert s == s[..k] + s[k..];
  }

  lemma CutDescs(ds: seq<Desc>, k: nat)
    requires k <= |ds|
    ensures DescFrames(ds) == DescFrames(ds[..k]) + DescFrames(ds[k..])
  {
    assert ds == ds[..k] + ds[k..];
    DescFramesAppend(ds[..k], ds[k..]);
  }

  lemma {:induction false} RingFramesAppend(p: seq<Packet>, q: seq<Packet>)
    ensures RingFrames(p + q) == RingFrames(p) + RingFrames(q)
    decreases |q|
  {
    if q == [] {
      assert p + q == p;
    } else {
      var front, last := q[..|q| - 1], q[|q| - 1];
      RingFramesAppend(p, front);
      assert p + q == (p + front) + [last] && q == front + [last];
      RingFramesPush(p + front, last);
      RingFramesPush(front, last);
    }
  }

  lemma CutFirst(q: seq<Packet>)
    requires |q| > 0
    ensures RingFrames(q) == FramesOf(q[0]) + RingFrames(q[1..]) && RingFrames([q[0]]) == FramesOf(q[0])
  {
    assert q == [q[0]] + q[1..];
    RingFramesAppend([q[0]], q[1..]);
    RingFramesPush([], q[0]);
    assert [] + [q[0]] == [q[0]];
  }

  // ---- every step of a queue -----------------------------------------------------------------------

  lemma RefillPopMoves(pool: seq<Addr>, p: Place, k: nat)
    requires p.Queue? && p.filling == [] && k <= |pool|
    ensures Moves(pool, p, pool[k..], p.(filling := pool[..k]))
  {
    forall a: Addr ensures multiset(pool[k..])[a] + Own(p.(filling := pool[..k]), a) == multiset(pool)[a] + Own(p, a) {
      CutCount(pool, k, a);
    }
  }

  lemma RefillPushMoves(pool: seq<Addr>, p: Place)
    requires p.Queue?
    ensures Moves(pool, p, pool, p.(fq := p.fq + p.filling, filling := []))
  {
  }

  lemma KernelReceiveMoves(pool: seq<Addr>, p: Place, d: Desc)
    requires p.Queue? && |p.fq| > 0 && d.addr == p.fq[0]
    ensures Moves(pool, p, pool, p.(fq := p.fq[1..], rx := p.rx + [d]))
  {
    DescFramesAppend(p.rx, [d]);
    DescFramesOne(d);
    forall a: Addr ensures Own(p.(fq := p.fq[1..], rx := p.rx + [d]), a) == Own(p, a) {
      CutCount(p.fq, 1, a);
      assert p.fq[..1] == [p.fq[0]];
    }
  }

  lemma KernelSendMoves(pool: seq<Addr>, p: Place)
    requires p.Queue? && |p.tx| > 0
    ensures Moves(pool, p, pool, p.(tx := p.tx[1..], cq := p.cq + [p.tx[0].addr]))
  {
    CutDescs(p.tx, 1);
    assert p.tx[..1] == [p.tx[0]];
    DescFramesOne(p.tx[0]);
  }

  lemma ReleaseMoves(pool: seq<Addr>, p: Place)
    requires p.Queue?
    ensures Moves(pool, p, pool + p.rejects, p.(rejects := [])) && Has(p, p.rejects)
  {
  }

  lemma DrainMoves(pool: seq<Addr>, p: Place, k: nat)
    requires p.Queue? && k <= |p.cq|
    ensures Moves(pool, p, pool + p.cq[..k], p.(cq := p.cq[k..])) && Has(p, p.cq[..k])
  {
    forall a: Addr
      ensures multiset(pool + p.cq[..k])[a] + Own(p.(cq := p.cq[k..]), a) == multiset(pool)[a] + Own(p, a)
      ensures multiset(p.cq[..k])[a] <= Own(p, a)
    {
      CutCount(p.cq, k, a);
    }
  }

  lemma SubmitMoves(pool: seq<Addr>, p: Place, job: Packet)
    requires p.Queue? && p.sending == [job] && job.segs != []
    ensures Moves(pool, p, pool, p.(sending := [], tx := p.tx + SentAs(job)))
  {
    CutFirst(p.sending);
    assert p.sending[1..] == [] && RingFrames([]) == multiset{};
    TxDescFrames(job, |job.segs|);
    DescFramesAppend(p.tx, TxDescs(job));
  }

  lemma KernelConserves(w: World, frames: nat, step: Step)
    requires Conserved(w, frames) && step.i < |w.places| && w.places[step.i].Queue?
    requires step.KernelReceive? || step.KernelSend?
    ensures Conserved(StepQueue(w, step, step.i), frames)
  {
    var p, i := w.places[step.i], step.i;
    if step.KernelReceive? && |p.fq| > 0 && 1 <= step.len <= FRAME {
      var d := Desc(p.fq[0], step.len, step.more);
      KernelReceiveMoves(w.pool, p, d);
      PutConserves(w, frames, i, w.pool, p.(fq := p.fq[1..], rx := p.rx + [d]));
    } else if step.KernelSend? && |p.tx| > 0 {
      KernelSendMoves(w.pool, p);
      PutConserves(w, frames, i, w.pool, p.(tx := p.tx[1..], cq := p.cq + [p.tx[0].addr]));
    }
  }

  lemma RefillConserves(w: World, frames: nat, step: Step)
    requires Conserved(w, frames) && step.i < |w.places| && w.places[step.i].Queue?
    requires step.RefillPop? || step.RefillPush?
    ensures Conserved(StepQueue(w, step, step.i), frames)
  {
    var p, i := w.places[step.i], step.i;
    if step.RefillPush? {
      RefillPushMoves(w.pool, p);
      PutConserves(w, frames, i, w.pool, p.(fq := p.fq + p.filling, filling := []));
    } else if p.filling == [] && step.k <= |w.pool| {
      RefillPopMoves(w.pool, p, step.k);
      PutConserves(w, frames, i, w.pool[step.k..], p.(filling := w.pool[..step.k]));
    }
  }

  lemma ReturnConserves(w: World, frames: nat, step: Step)
    requires Conserved(w, frames) && step.i < |w.places| && w.places[step.i].Queue?
    requires step.Release? || step.Drain?
    ensures Conserved(StepQueue(w, step, step.i), frames)
  {
    var p, i := w.places[step.i], step.i;
    if step.Release? {
      ReleaseMoves(w.pool, p);
      PoolHasRoom(w, frames, i, p.rejects);
      PutConserves(w, frames, i, w.pool + p.rejects, p.(rejects := []));
    } else if step.k <= |p.cq| {
      DrainMoves(w.pool, p, step.k);
      PoolHasRoom(w, frames, i, p.cq[..step.k]);
      PutConserves(w, frames, i, w.pool + p.cq[..step.k], p.(cq := p.cq[step.k..]));
    }
  }

  lemma SubmitConserves(w: World, frames: nat, step: Step)
    requires Conserved(w, frames) && step.i < |w.places| && w.places[step.i].Queue? && step.Submit?
    ensures Conserved(StepQueue(w, step, step.i), frames)
  {
    var p, i := w.places[step.i], step.i;
    if |p.sending| == 1 {
      var job := p.sending[0];
      assert Good(p) && Proper(job) && p.sending == [job];
      SubmitMoves(w.pool, p, job);
      PutConserves(w, frames, i, w.pool, p.(sending := [], tx := p.tx + SentAs(job)));
    }
  }

  lemma QueueConserves(w: World, frames: nat, step: Step)
    requires Conserved(w, frames) && step.i < |w.places| && w.places[step.i].Queue?
    ensures Conserved(StepQueue(w, step, step.i), frames)
  {
    if step.RefillPop? || step.RefillPush? {
      RefillConserves(w, frames, step);
    } else if step.KernelReceive? || step.KernelSend? {
      KernelConserves(w, frames, step);
    } else if step.Release? || step.Drain? {
      ReturnConserves(w, frames, step);
    } else if step.Submit? {
      SubmitConserves(w, frames, step);
    }
  }

  // ---- every step of a worker ----------------------------------------------------------------------

  /** Giving packets up moves their frames to the doomed ones. */
  lemma DoomMoves(pool: seq<Addr>, p: Place)
    requires p.Worker? && Good(p)
    ensures Moves(pool, p, pool, Doom(p)) && Good(Doom(p))
  {
    forall a: Addr ensures Own(Doom(p), a) == Own(p, a) {
      assert multiset(p.doomed + Freed(p.tail) + Freed(p.head))[a]
          == multiset(p.doomed)[a] + FramesOf(p.tail)[a] + FramesOf(p.head)[a];
    }
  }

  lemma DoomConserves(w: World, frames: nat, i: nat)
    requires Conserved(w, frames) && i < |w.places| && w.places[i].Worker?
    ensures Conserved(Put(w, i, Doom(w.places[i])), frames)
  {
    DoomMoves(w.pool, w.places[i]);
    PutConserves(w, frames, i, w.pool, Doom(w.places[i]));
  }

  lemma WithFrameOwns(p: Packet, x: Addr, a: Addr)
    ensures FramesOf(WithFrame(p, x))[a] == FramesOf(p)[a] + (if a == x then 1 else 0)
  {
    assert Addrs(WithFrame(p, x).segs) == Addrs(p.segs) + [x];
  }

  lemma GrowMoves(pool: seq<Addr>, p: Place, p': Place)
    requires p.Worker? && |pool| > 0
    requires p' == p.(head := WithFrame(p.head, pool[0])) || p' == p.(tail := WithFrame(p.tail, pool[0]))
    ensures Moves(pool, p, pool[1..], p')
  {
    forall a: Addr ensures multiset(pool[1..])[a] + Own(p', a) == multiset(pool)[a] + Own(p, a) {
      CutCount(pool, 1, a);
      assert pool[..1] == [pool[0]];
      WithFrameOwns(p.head, pool[0], a);
      WithFrameOwns(p.tail, pool[0], a);
    }
  }

  lemma WithFrameGrows(p: Packet, x: Addr)
    requires Growable(p) && |p.segs| < MAX_SEGS
    ensures Growable(WithFrame(p, x))
  {
  }

  lemma GrowConserves(w: World, frames: nat, i: nat)
    requires Conserved(w, frames) && i < |w.places| && w.places[i].Worker?
    ensures Conserved(StepGrow(w, i), frames)
  {
    var p, w' := w.places[i], StepGrow(w, i);
    assert Good(p);
    if w' != w {
      var p' := w'.places[i];
      if p'.phase.Free? {
        DoomConserves(w, frames, i);
      } else {
        if p.phase.WritingHead? { WithFrameGrows(p.head, w.pool[0]); } else { WithFrameGrows(p.tail, w.pool[0]); }
        GrowMoves(w.pool, p, p');
        PutConserves(w, frames, i, w.pool[1..], p');
      }
    }
  }

  /** Filling and trimming a packet with room: it becomes proper, and what it drops is doomed. */
  lemma FillKeeps(p: Packet, n: nat)
    requires Growable(p) && 0 < n <= JUMBO_MAX && CapSum(p.segs, |p.segs|) >= n
    ensures var o := WriteOutcome(p, [], n);
            o.ok && Proper(o.packet) && FramesOf(o.packet) + multiset(o.pool) == FramesOf(p)
  {
    assert Grown(p.segs, [], n) == p.segs;
    WriteConserves(p, [], n);
    WriteProper(p, [], n);
  }

  lemma FillMoves(pool: seq<Addr>, p: Place, p': Place, part: Packet, o: Written)
    requires p.Worker? && p'.Worker? && p.doomed == [] && p'.doomed == o.pool
    requires FramesOf(o.packet) + multiset(o.pool) == FramesOf(part)
    requires || (part == p.head && p.tail == NO_PACKET && p'.head == o.packet && p'.tail == NO_PACKET)
             || (part == p.tail && p'.head == p.head && p'.tail == o.packet)
    ensures Moves(pool, p, pool, p')
  {
    forall a: Addr ensures Own(p', a) == Own(p, a) {
      assert (FramesOf(o.packet) + multiset(o.pool))[a] == FramesOf(part)[a];
    }
  }

  lemma FillConserves(w: World, frames: nat, i: nat)
    requires Conserved(w, frames) && i < |w.places| && w.places[i].Worker? && w.places[i].doomed == []
    ensures Conserved(StepFill(w, i), frames)
  {
    var p, w' := w.places[i], StepFill(w, i);
    assert Good(p);
    if w' != w {
      var part := if p.phase.WritingHead? then p.head else p.tail;
      FillKeeps(part, p.phase.n);
      FillMoves(w.pool, p, w'.places[i], part, WriteOutcome(part, [], p.phase.n));
      PutConserves(w, frames, i, w.pool, w'.places[i]);
    }
  }

  lemma ChooseConserves(w: World, frames: nat, i: nat, n: nat, next: nat)
    requires Conserved(w, frames) && i < |w.places| && w.places[i].Worker?
    ensures Conserved(StepChoose(w, i, n, next), frames)
  {
    var p := w.places[i];
    assert Good(p);
    if p.phase.Holding? {
      if n == 0 || n > JUMBO_MAX {
        DoomConserves(w, frames, i);
      } else {
        var p' := p.(phase := WritingHead(n, next));
        assert Moves(w.pool, p, w.pool, p');
        PutConserves(w, frames, i, w.pool, p');
      }
    }
  }

  lemma FreeOneMoves(pool: seq<Addr>, p: Place, p': Place)
    requires (p.Worker? || p.Receiver?) && |p.doomed| > 0
    requires p' == if p.Worker? then Worker(p.phase, p.head, p.tail, p.doomed[1..])
                   else Receiver(p.batch, p.doomed[1..])
    ensures Moves(pool, p, pool + p.doomed[..1], p') && Has(p, p.doomed[..1])
  {
    forall a: Addr
      ensures multiset(pool + p.doomed[..1])[a] + Own(p', a) == multiset(pool)[a] + Own(p, a)
      ensures multiset(p.doomed[..1])[a] <= Own(p, a)
    {
      CutCount(p.doomed, 1, a);
    }
  }

  /** ne_frame_free: the pool takes the frame. */
  lemma FreeOneConserves(w: World, frames: nat, i: nat)
    requires Conserved(w, frames) && i < |w.places| && (w.places[i].Worker? || w.places[i].Receiver?)
    ensures Conserved(Apply(w, FreeOne(i)), frames)
  {
    var p := w.places[i];
    assert Good(p);
    if |p.doomed| > 0 {
      var p' := if p.Worker? then Worker(p.phase, p.head, p.tail, p.doomed[1..]) else Receiver(p.batch, p.doomed[1..]);
      FreeOneMoves(w.pool, p, p');
      PoolHasRoom(w, frames, i, p.doomed[..1]);
      PutConserves(w, frames, i, w.pool + p.doomed[..1], p');
    }
  }

  lemma WorkerConserves(w: World, frames: nat, step: Step)
    requires Conserved(w, frames) && step.i < |w.places| && w.places[step.i].Worker? && !step.FreeOne?
    ensures Conserved(StepWorker(w, step, step.i), frames)
  {
    var p, i := w.places[step.i], step.i;
    if p.doomed == [] {
      if step.Choose? {
        ChooseConserves(w, frames, i, step.n, step.next);
      } else if step.Grow? {
        GrowConserves(w, frames, i);
      } else if step.Fill? {
        FillConserves(w, frames, i);
      }
    }
  }

  // ---- every step between two places -----------------------------------------------------------------

  lemma ReceivedFacts(p: Place, k: nat)
    requires p.Queue? && Good(p) && k <= |p.rx| && RoomForRejects(p, k)
    ensures var s := Received(p, k);
            && Kept(s.rejects) == s.rejects && ProperChain(s.chain) && AllProper(s.out)
            && Held(s) + DescFrames(p.rx[k..]) == multiset(p.rejects) + FramesOf(p.chain) + DescFrames(p.rx)
  {
    var s0, ds := Rx(p.chain, p.invalid, p.rejects, []), p.rx[..k];
    RejectBound(s0, ds, k);
    FoldConserves(s0, ds, 0, k);
    FoldProper(s0, ds, k);
    CutDescs(p.rx, k);
    SumAssoc(Held(s0), DescFrames(ds), DescFrames(p.rx[k..]));
    assert Held(s0) == multiset(p.rejects) + FramesOf(p.chain);
  }

  lemma ReceiveMoves(p: Place, r: Place, k: nat)
    requires p.Queue? && r.Receiver? && Good(p) && k <= |p.rx| && RoomForRejects(p, k)
    ensures var s := Received(p, k);
            MovesBetween(p, r, p.(rx := p.rx[k..], chain := s.chain, invalid := s.invalid, rejects := Kept(s.rejects)),
                         r.(batch := r.batch + s.out))
  {
    var s := Received(p, k);
    ReceivedFacts(p, k);
    RingFramesAppend(r.batch, s.out);
    forall a: Addr
      ensures multiset(s.rejects)[a] + FramesOf(s.chain)[a] + RingFrames(s.out)[a] + DescFrames(p.rx[k..])[a]
           == multiset(p.rejects)[a] + FramesOf(p.chain)[a] + DescFrames(p.rx)[a]
    {
      assert (Held(s) + DescFrames(p.rx[k..]))[a] == (multiset(p.rejects) + FramesOf(p.chain) + DescFrames(p.rx))[a];
    }
  }

  lemma ReceiveConserves(w: World, frames: nat, step: Step)
    requires Conserved(w, frames) && step.Receive? && step.i < |w.places| && step.j < |w.places| && step.i != step.j
    ensures Conserved(StepPair(w, step, step.i, step.j), frames)
  {
    var p, r, k := w.places[step.i], w.places[step.j], step.k;
    assert Good(p) && Good(r);
    if p.Queue? && r.Receiver? && k <= |p.rx| && |r.batch| + k <= BATCH && RoomForRejects(p, k) {
      var s := Received(p, k);
      ReceivedFacts(p, k);
      ReceiveMoves(p, r, k);
      var p' := p.(rx := p.rx[k..], chain := s.chain, invalid := s.invalid, rejects := Kept(s.rejects));
      PutTwoConserves(w, frames, step.i, p', step.j, r.(batch := r.batch + s.out));
    }
  }

  lemma DispatchMoves(p: Place, r: Place)
    requires p.Receiver? && r.PacketRing? && |p.batch| > 0
    ensures MovesBetween(p, r, p.(batch := p.batch[1..]), r.(q := r.q + [p.batch[0]]))
  {
    CutFirst(p.batch);
    RingFramesPush(r.q, p.batch[0]);
  }

  lemma RefuseMoves(pool: seq<Addr>, p: Place)
    requires p.Receiver? && |p.batch| > 0 && p.batch[0].segs != []
    ensures Moves(pool, p, pool, Receiver(p.batch[1..], p.doomed + Freed(p.batch[0])))
  {
    CutFirst(p.batch);
  }

  lemma DispatchConserves(w: World, frames: nat, step: Step)
    requires Conserved(w, frames) && step.Dispatch? && step.i < |w.places| && step.j < |w.places| && step.i != step.j
    ensures Conserved(StepPair(w, step, step.i, step.j), frames)
  {
    var p, r := w.places[step.i], w.places[step.j];
    assert Good(p) && Good(r);
    if p.Receiver? && r.PacketRing? && |p.batch| > 0 {
      assert Proper(p.batch[0]) && AllProper(p.batch[1..]);
      if !step.refuse && |r.q| < r.size {
        DispatchMoves(p, r);
        PutTwoConserves(w, frames, step.i, p.(batch := p.batch[1..]), step.j, r.(q := r.q + [p.batch[0]]));
      } else {
        RefuseMoves(w.pool, p);
        PutConserves(w, frames, step.i, w.pool, Receiver(p.batch[1..], p.doomed + Freed(p.batch[0])));
      }
    }
  }

  lemma PopMoves(p: Place, r: Place)
    requires r.PacketRing? && |r.q| > 0
    ensures p.Worker? && p.head == NO_PACKET ==>
              MovesBetween(p, r, p.(phase := Holding, head := r.q[0]), r.(q := r.q[1..]))
    ensures p.Queue? && p.sending == [] ==> MovesBetween(p, r, p.(sending := [r.q[0]]), r.(q := r.q[1..]))
  {
    CutFirst(r.q);
    assert FramesOf(NO_PACKET) == multiset{} && RingFrames([]) == multiset{};
  }

  lemma PopConserves(w: World, frames: nat, step: Step)
    requires Conserved(w, frames) && (step.Pop? || step.Take?)
    requires step.i < |w.places| && step.j < |w.places| && step.i != step.j
    ensures Conserved(StepPair(w, step, step.i, step.j), frames)
  {
    var p, r := w.places[step.i], w.places[step.j];
    assert Good(p) && Good(r);
    if r.PacketRing? && |r.q| > 0 {
      assert Proper(r.q[0]);
      PopMoves(p, r);
      if step.Pop? && p.Worker? && p.phase.Free? && p.doomed == [] {
        PutTwoConserves(w, frames, step.i, p.(phase := Holding, head := r.q[0]), step.j, r.(q := r.q[1..]));
      } else if step.Take? && p.Queue? && p.sending == [] {
        PutTwoConserves(w, frames, step.i, p.(sending := [r.q[0]]), step.j, r.(q := r.q[1..]));
      }
    }
  }

  lemma PushMoves(p: Place, r: Place)
    requires p.Worker? && r.PacketRing? && p.doomed == []
    ensures var ps := if p.tail == NO_PACKET then [p.head] else [p.head, p.tail];
            MovesBetween(p, r, Worker(Free, NO_PACKET, NO_PACKET, []), r.(q := r.q + ps))
  {
    assert FramesOf(NO_PACKET) == multiset{};
    if p.tail == NO_PACKET { RingFramesPush(r.q, p.head); } else { RingFramesPushPair(r.q, p.head, p.tail); }
  }

  lemma PushConserves(w: World, frames: nat, step: Step)
    requires Conserved(w, frames) && step.Push? && step.i < |w.places| && step.j < |w.places| && step.i != step.j
    ensures Conserved(StepPair(w, step, step.i, step.j), frames)
  {
    var p, r := w.places[step.i], w.places[step.j];
    assert Good(p) && Good(r);
    if p.Worker? && r.PacketRing? && p.phase.Pushing? && p.doomed == [] {
      var ps := if p.tail == NO_PACKET then [p.head] else [p.head, p.tail];
      if !step.refuse && |r.q| + |ps| <= r.size {
        PushMoves(p, r);
        PutTwoConserves(w, frames, step.i, Worker(Free, NO_PACKET, NO_PACKET, []), step.j, r.(q := r.q + ps));
      } else {
        DoomConserves(w, frames, step.i);
      }
    }
  }

  lemma PairConserves(w: World, frames: nat, step: Step)
    requires Conserved(w, frames) && OnTwoPlaces(step) && step.i < |w.places| && step.j < |w.places| && step.i != step.j
    ensures Conserved(StepPair(w, step, step.i, step.j), frames)
  {
    if step.Receive? {
      ReceiveConserves(w, frames, step);
    } else if step.Dispatch? {
      DispatchConserves(w, frames, step);
    } else if step.Push? {
      PushConserves(w, frames, step);
    } else {
      PopConserves(w, frames, step);
    }
  }

  /** Every step of every thread and of the kernel keeps the number of owners of every frame, and
      every packet well-formed. */
  lemma StepConserves(w: World, frames: nat, step: Step)
    requires Conserved(w, frames)
    ensures Conserved(Apply(w, step), frames)
  {
    if step.i < |w.places| {
      if OnTwoPlaces(step) {
        if step.j < |w.places| && step.i != step.j { PairConserves(w, frames, step); }
      } else {
        var p := w.places[step.i];
        if p.Queue? {
          QueueConserves(w, frames, step);
        } else if step.FreeOne? {
          if p.Worker? || p.Receiver? { FreeOneConserves(w, frames, step.i); }
        } else if p.Worker? {
          WorkerConserves(w, frames, step);
        }
      }
    }
  }

  // ---- whole runs --------------------------------------------------------------------------------------

  predicate Empty(p: Place) {
    match p
    case Queue(filling, fq, rx, chain, invalid, rejects, sending, tx, cq) =>
      && filling == [] && fq == [] && rx == [] && chain == NO_PACKET && !invalid && rejects == []
      && sending == [] && tx == [] && cq == []
    case Receiver(batch, doomed) => batch == [] && doomed == []
    case PacketRing(q, _) => q == []
    case Worker(phase, head, tail, doomed) => phase.Free? && head == NO_PACKET && tail == NO_PACKET && doomed == []
  }

  /** Any number of queues, receivers, rings and workers, all empty, and a pool of all frames that
      holds at least as many. */
  predicate Start(w: World, frames: nat) {
    w.pool == AllFrames(frames) && frames <= w.cap && forall i :: 0 <= i < |w.places| ==> Empty(w.places[i])
  }

  lemma {:induction false} SumOfNothing(c: seq<nat>, n: nat)
    requires n <= |c| && forall i :: 0 <= i < n ==> c[i] == 0
    ensures Sum(c, n) == 0
  {
    if n > 0 { SumOfNothing(c, n - 1); }
  }

  lemma EmptyOwnsNothing(p: Place, a: Addr)
    requires Empty(p)
    ensures Own(p, a) == 0 && Good(p)
  {
  }

  function Run(w: World, steps: seq<Step>): World
    decreases |steps|
  {
    if steps == [] then w else Run(Apply(w, steps[0]), steps[1..])
  }

  lemma {:induction false} RunConserves(w: World, frames: nat, steps: seq<Step>)
    requires Conserved(w, frames)
    ensures Conserved(Run(w, steps), frames)
    decreases |steps|
  {
    if steps != [] {
      StepConserves(w, frames, steps[0]);
      RunConserves(Apply(w, steps[0]), frames, steps[1..]);
    }
  }

  /** Main theorem: in every state of every run each frame has exactly one owner. */
  lemma OneOwner(w: World, frames: nat, steps: seq<Step>)
    requires Start(w, frames)
    ensures forall a: Addr :: Owners(Run(w, steps), a) == if a < frames then 1 else 0
    ensures Conserved(Run(w, steps), frames)
  {
    forall a: Addr ensures Owners(w, a) == if a < frames then 1 else 0 {
      EachOnce(frames, a);
      forall i | 0 <= i < |w.places| ensures Own(w.places[i], a) == 0 { EmptyOwnsNothing(w.places[i], a); }
      SumOfNothing(Counts(w.places, a), |w.places|);
    }
    forall i | 0 <= i < |w.places| ensures Good(w.places[i]) { EmptyOwnsNothing(w.places[i], 0); }
    RunConserves(w, frames, steps);
  }

  // ---- the conditions of the methods ---------------------------------------------------------------------

  lemma SegsFromOwners(segs: seq<Seg>, frames: nat)
    requires Growable(Packet(segs, 0)) && forall a: Addr :: multiset(Addrs(segs))[a] <= if a < frames then 1 else 0
    ensures SegsOk(segs, frames)
  {
    AtMost(Addrs(segs), frames);
    ExclusiveDistinct(Addrs(segs));
    forall i, j | 0 <= i < j < |segs| ensures segs[i].addr != segs[j].addr {
      assert Addrs(segs)[i] != Addrs(segs)[j];
    }
    forall i | 0 <= i < |segs| ensures segs[i].addr < frames {
      assert Addrs(segs)[i] < frames;
    }
  }

  /** A worker holding a packet meets the conditions under which the two packet paths are proved. */
  lemma WorkerCanWork(w: World, frames: nat, i: nat)
    requires Conserved(w, frames) && i < |w.places| && w.places[i].Worker? && w.places[i].phase.Holding?
    ensures var job := w.places[i].head;
            && Proper(job) && SegsOk(job.segs, frames) && Exclusive(FramesOf(job) + multiset(w.pool))
            && |w.pool| + |job.segs| <= w.cap && forall k :: 0 <= k < |w.pool| ==> w.pool[k] < frames
  {
    var job := w.places[i].head;
    PoolHasRoom(w, frames, i, Addrs(job.segs));
    forall a: Addr
      ensures (FramesOf(job) + multiset(w.pool))[a] <= 1
      ensures multiset(Addrs(job.segs))[a] <= if a < frames then 1 else 0
      ensures multiset(w.pool)[a] <= if a < frames then 1 else 0
    {
      OwnAtLeast(w, i, a);
      assert Owners(w, a) == if a < frames then 1 else 0;
    }
    SegsFromOwners(job.segs, frames);
    AtMost(w.pool, frames);
  }

  /** Every ring holds only packets the transmitter can frame. */
  lemma RingsAreSendable(w: World, frames: nat, i: nat)
    requires Conserved(w, frames) && i < |w.places| && w.places[i].PacketRing?
    ensures AllSendable(w.places[i].q)
  {
    var q := w.places[i].q;
    forall k | 0 <= k < |q| ensures Sendable(q[k]) { assert Proper(q[k]); }
  }

  function DescAddrs(ds: seq<Desc>): (s: seq<Addr>)
    ensures |s| == |ds|
  {
    seq(|ds|, i requires 0 <= i < |ds| => ds[i].addr)
  }

  lemma {:induction false} DescAddrsCount(ds: seq<Desc>, n: nat)
    requires n <= |ds|
    ensures multiset(DescAddrs(ds)[..n]) == AddrsFrom(ds, 0, n)
    ensures n == |ds| ==> multiset(DescAddrs(ds)) == DescFrames(ds)
  {
    if n > 0 {
      DescAddrsCount(ds, n - 1);
      assert DescAddrs(ds)[..n] == DescAddrs(ds)[..n - 1] + [ds[n - 1].addr];
    }
    assert DescAddrs(ds)[..|ds|] == DescAddrs(ds);
  }

  /** A queue can be received from after a release, released, and drained while it sends. */
  lemma QueueCanReturn(w: World, frames: nat, i: nat)
    requires Conserved(w, frames) && i < |w.places| && w.places[i].Queue?
    ensures var p := w.places[i];
            && |p.chain.segs| <= MAX_SEGS && |w.pool| + |p.rejects| <= w.cap && |w.pool| + |p.cq| + |p.tx| <= w.cap
  {
    var p := w.places[i];
    PoolHasRoom(w, frames, i, p.rejects);
    var back: seq<Addr> := p.cq + DescAddrs(p.tx);
    forall a: Addr ensures multiset(back)[a] <= Own(p, a) {
      DescAddrsCount(p.tx, |p.tx|);
    }
    PoolHasRoom(w, frames, i, back);
  }

}
