/** RX slots a receive thread forgets: when a batch yields no packet the thread skips the release, and
    the next receive starts its count of unreleased slots anew. */
module RxLeak {
  import opened Limits
  import opened Frames
  import opened RxChains

  // ---- one queue's counters ------------------------------------------------------------

  /** Entries the kernel has put in, entries read, slots given back, and rx_pending. */
  datatype Queue = Queue(size: nat, produced: nat, peeked: nat, released: nat, pending: nat)

  datatype Step = Put | Peek(max: nat) | Release

  ghost predicate Inv(q: Queue) {
    q.released + q.pending <= q.peeked <= q.produced <= q.released + q.size
  }

  function Unread(q: Queue): int { q.produced - q.peeked }

  /** Slots that were read and that no release will give back. */
  function Leaked(q: Queue): int { q.peeked - q.released - q.pending }

  function Apply(q: Queue, step: Step): Queue {
    match step
    case Put => if q.produced < q.released + q.size then q.(produced := q.produced + 1) else q
    case Peek(max) =>
      var unread := if q.produced <= q.peeked then 0 else q.produced - q.peeked;
      var n := if max <= unread then max else unread;
      q.(peeked := q.peeked + n, pending := n)
    case Release => q.(released := q.released + q.pending, pending := 0)
  }

  function Run(q: Queue, steps: seq<Step>): Queue
    decreases |steps|
  {
    if steps == [] then q else Run(Apply(q, steps[0]), steps[1..])
  }

  /** Entries of the batches that a further receive came upon unreleased. */
  function Skipped(q: Queue, steps: seq<Step>): nat
    decreases |steps|
  {
    if steps == [] then 0
    else (if steps[0].Peek? then q.pending else 0) + Skipped(Apply(q, steps[0]), steps[1..])
  }

  /** Over every run the slots lost are exactly those of the skipped batches: none is ever regained. */
  lemma {:induction false} LeakedIsSkipped(q: Queue, steps: seq<Step>)
    requires Inv(q)
    ensures Inv(Run(q, steps)) && Leaked(Run(q, steps)) == Leaked(q) + Skipped(q, steps)
    decreases |steps|
  {
    if steps != [] { LeakedIsSkipped(Apply(q, steps[0]), steps[1..]); }
  }

  /** Nothing is ever received again, whatever the kernel and the thread do. */
  ghost predicate Dead(q: Queue) { forall steps :: Run(q, steps).peeked == q.peeked }

  lemma {:induction false} FullLeakIsDead(q: Queue, steps: seq<Step>)
    requires Inv(q) && Leaked(q) == q.size
    ensures Run(q, steps).peeked == q.peeked
    decreases |steps|
  {
    if steps != [] { FullLeakIsDead(Apply(q, steps[0]), steps[1..]); }
  }

  /** The queue is dead if and only if every slot has leaked. */
  lemma DeadIff(q: Queue)
    requires Inv(q)
    ensures Dead(q) <==> Leaked(q) == q.size
  {
    if Leaked(q) == q.size {
      forall steps ensures Run(q, steps).peeked == q.peeked { FullLeakIsDead(q, steps); }
    } else {
      var steps := [Release, Put, Peek(1)];
      assert steps[1..] == [Put, Peek(1)] && steps[1..][1..] == [Peek(1)];
      assert Run(q, steps) == Apply(Apply(Apply(q, Release), Put), Peek(1));
      assert Run(q, steps).peeked == q.peeked + 1;
    }
  }

  // ---- the receive thread --------------------------------------------------------------

  /** The kernel delivers `n` descriptors. */
  function Delivers(q: Queue, n: nat): Queue { q.(produced := q.produced + n) }

  /** One turn of the thread's loop on the descriptors it peeks: the release follows only if some
      packet was complete. */
  function Turn(q: Queue, r: Rx, ds: seq<Desc>): (Queue, Rx) {
    var q', r' := Apply(q, Peek(|ds|)), FoldAll(r.(out := []), ds);
    if r'.out == [] then (q', r') else (Apply(q', Release), r'.(rejects := []))
  }

  /** A turn loses what the turn before it read without completing a packet. */
  lemma TurnLeaks(q: Queue, r: Rx, ds: seq<Desc>)
    requires Inv(q) && |ds| == Unread(q)
    ensures var (q', r') := Turn(q, r, ds);
            && Inv(q') && Unread(q') == 0 && Leaked(q') == Leaked(q) + q.pending
            && q'.pending == if r'.out == [] then |ds| else 0
  {
  }

  // ---- packets in two batches --------------------------------------------------------------

  /** An ordinary packet of two buffers. */
  predicate TwoBuffers(d: Desc, e: Desc) {
    d.more && !e.more && LAN_HEAD <= d.len <= FRAME && 1 <= e.len <= FRAME && d.len + e.len <= WIRE_MAX
  }

  /** Its buffers are read in two batches. */
  function Piecemeal(q: Queue, r: Rx, d: Desc, e: Desc): (Queue, Rx) {
    var (q1, r1) := Turn(Delivers(q, 1), r, [d]);
    Turn(Delivers(q1, 1), r1, [e])
  }

  predicate Quiet(q: Queue, r: Rx) {
    Unread(q) == 0 && q.pending == 0 && r.chain == NO_PACKET && !r.invalid && r.rejects == []
  }

  lemma OneStep(r: Rx, d: Desc)
    ensures FoldAll(r, [d]) == RxStep(r, d)
  {
    assert Fold(r, [d], 0, 0) == r;
  }

  lemma TwoBuffersFold(r: Rx, d: Desc, e: Desc)
    requires r.chain == NO_PACKET && !r.invalid && TwoBuffers(d, e)
    ensures var r1 := FoldAll(r.(out := []), [d]);
            && r1 == Rx(Extend(NO_PACKET, d), false, r.rejects, [])
            && FoldAll(r1, [e]) == Rx(NO_PACKET, false, r.rejects, [Extend(Extend(NO_PACKET, d), e)])
  {
    var r0 := r.(out := []);
    var r1 := RxStep(r0, d);
    OneStep(r0, d);
    OneStep(r1, e);
  }

  /** The packet is put out whole, and its first slot is lost. */
  lemma PiecemealLeaks(q: Queue, r: Rx, d: Desc, e: Desc)
    requires Inv(q) && Quiet(q, r) && TwoBuffers(d, e) && Leaked(q) + 2 <= q.size
    ensures var (q', r') := Piecemeal(q, r, d, e);
            && Inv(q') && Quiet(q', r') && q'.size == q.size && Leaked(q') == Leaked(q) + 1
            && r'.out == [Extend(Extend(NO_PACKET, d), e)]
  {
    TwoBuffersFold(r, d, e);
    TurnLeaks(Delivers(q, 1), r, [d]);
    var (q1, r1) := Turn(Delivers(q, 1), r, [d]);
    TurnLeaks(Delivers(q1, 1), r1, [e]);
  }

  function PiecemealMany(q: Queue, r: Rx, d: Desc, e: Desc, k: nat): (Queue, Rx) {
    if k == 0 then (q, r)
    else var (q', r') := PiecemealMany(q, r, d, e, k - 1);
         Piecemeal(q', r', d, e)
  }

  lemma {:induction false} ManyLeak(q: Queue, r: Rx, d: Desc, e: Desc, k: nat)
    requires Inv(q) && Quiet(q, r) && TwoBuffers(d, e) && Leaked(q) + k + 1 <= q.size
    ensures var (q', r') := PiecemealMany(q, r, d, e, k);
            Inv(q') && Quiet(q', r') && q'.size == q.size && Leaked(q') == Leaked(q) + k
    decreases k
  {
    if k > 0 {
      ManyLeak(q, r, d, e, k - 1);
      var (q', r') := PiecemealMany(q, r, d, e, k - 1);
      PiecemealLeaks(q', r', d, e);
    }
  }

  /** Every ring dies of ordinary packets: one fewer than its slots, each read in two batches, then
      the first buffer of another and one more turn. */
  lemma PiecemealKills(size: nat, d: Desc, e: Desc)
    requires size > 0 && TwoBuffers(d, e)
    ensures var (q, r) := PiecemealMany(Queue(size, 0, 0, 0, 0), FRESH, d, e, size - 1);
            var (q1, r1) := Turn(Delivers(q, 1), r, [d]);
            Inv(Delivers(q, 1)) && !Dead(q) && Dead(Turn(q1, r1, []).0)
  {
    var q0 := Queue(size, 0, 0, 0, 0);
    ManyLeak(q0, FRESH, d, e, size - 1);
    var (q, r) := PiecemealMany(q0, FRESH, d, e, size - 1);
    DeadIff(q);
    TwoBuffersFold(r, d, e);
    TurnLeaks(Delivers(q, 1), r, [d]);
    var (q1, r1) := Turn(Delivers(q, 1), r, [d]);
    TurnLeaks(q1, r1, []);
    DeadIff(Turn(q1, r1, []).0);
  }
}
