/** Multi-buffer packets on the descriptor rings: RX chain assembly and TX framing. */
module RxChains {
  import opened Bytes
  import opened Limits
  import opened Frames

  const BATCH := 64
  const REJECT_SLOTS := 68

  /** A descriptor; `more` is XDP_PKT_CONTD. */
  datatype Desc = Desc(addr: Addr, len: nat, more: bool)

  // ---- the receiver's state ------------------------------------------------------

  /** The queue's chain under assembly, the frames it rejected and the packets it has put out. */
  datatype Rx = Rx(chain: Packet, invalid: bool, rejects: seq<Addr>, out: seq<Packet>)

  function Extend(p: Packet, d: Desc): Packet {
    Packet(p.segs + [Seg(d.addr, d.len, d.len)], p.len + d.len)
  }

  /** A descriptor joins the chain or, if the chain cannot be carried, is rejected. */
  function Enter(s: Rx, d: Desc): Rx {
    if s.invalid || |s.chain.segs| >= MAX_SEGS || d.len > JUMBO_MAX || s.chain.len > JUMBO_MAX - d.len
    then s.(invalid := true, rejects := s.rejects + [d.addr])
    else s.(chain := Extend(s.chain, d))
  }

  /** The packet ends: its chain is put out or rejected as a whole. */
  function Finish(s: Rx): Rx {
    if s.invalid || s.chain.segs == []
    then s.(chain := NO_PACKET, invalid := false, rejects := s.rejects + Addrs(s.chain.segs))
    else s.(chain := NO_PACKET, out := s.out + [s.chain])
  }

  /** One descriptor of the receive loop, with a reject list of unlimited size. */
  function RxStep(s: Rx, d: Desc): Rx {
    if d.more then Enter(s, d) else Finish(Enter(s, d))
  }

  /** The receive loop over descriptors `i` up to `j` of a stream. */
  function Fold(s: Rx, ds: seq<Desc>, i: nat, j: nat): Rx
    requires i <= j <= |ds|
    decreases j
  {
    if i == j then s else RxStep(Fold(s, ds, i, j - 1), ds[j - 1])
  }

  lemma {:induction false} FoldSplit(s: Rx, ds: seq<Desc>, i: nat, j: nat, k: nat)
    requires i <= j <= k <= |ds|
    ensures Fold(s, ds, i, k) == Fold(Fold(s, ds, i, j), ds, j, k)
    decreases k
  {
    if j < k { FoldSplit(s, ds, i, j, k - 1); }
  }

  /** A batch is a stretch of the stream. */
  lemma {:induction false} FoldSlice(s: Rx, ds: seq<Desc>, i: nat, j: nat, k: nat)
    requires i <= j <= k <= |ds|
    ensures Fold(s, ds[i..k], 0, j - i) == Fold(s, ds, i, j)
    decreases j
  {
    if i < j { FoldSlice(s, ds, i, j - 1, k); }
  }

  class RxSlot {
    var chain: Packet
    var invalid: bool
    var rejects: seq<Addr>  // rx_reject_addrs[..rx_reject_count]
    var dropped: nat

    constructor ()
      ensures chain == NO_PACKET && !invalid && rejects == []
    {
      chain, invalid, rejects, dropped := NO_PACKET, false, [], 0;
    }

    method Reject(a: Addr)
      modifies this`rejects
      ensures rejects == if |old(rejects)| < REJECT_SLOTS then old(rejects) + [a] else old(rejects)
    {
      if |rejects| < REJECT_SLOTS { rejects := rejects + [a]; }
    }

    ghost predicate Tracks(s: Rx, out: seq<Packet>)
      reads this
    {
      && chain == s.chain && invalid == s.invalid && out == s.out
      && rejects == if |s.rejects| <= REJECT_SLOTS then s.rejects else s.rejects[..REJECT_SLOTS]
    }

    method RejectChain(ghost s: Rx, ghost out: seq<Packet>)
      requires Tracks(s, out)
      modifies this`rejects
      ensures Tracks(s.(rejects := s.rejects + Addrs(chain.segs)), out)
    {
      var all := Addrs(chain.segs);
      for i := 0 to |chain.segs|
        invariant chain == old(chain) && Tracks(s.(rejects := s.rejects + all[..i]), out)
      {
        Reject(chain.segs[i].addr);
        PrefixNext(all, i);
        assert s.rejects + all[..i + 1] == (s.rejects + all[..i]) + [all[i]];
      }
      assert all[..|chain.segs|] == all;
    }

    /** The loop body. The output array cannot be full here: no more packets than descriptors. */
    method Take(d: Desc, out: seq<Packet>, max: nat, ghost s: Rx) returns (out': seq<Packet>)
      requires Tracks(s, out) && |out| < max
      modifies this
      ensures Tracks(RxStep(s, d), out') && |out'| <= |out| + 1
    {
      ghost var s1 := s;
      out' := out;
      if invalid || |chain.segs| >= MAX_SEGS || d.len > JUMBO_MAX || chain.len > JUMBO_MAX - d.len {
        invalid := true;
        Reject(d.addr);
        s1 := s.(invalid := true, rejects := s.rejects + [d.addr]);
      } else {
        chain := Extend(chain, d);
        s1 := s.(chain := chain);
      }
      assert Tracks(s1, out);
      if d.more { return; }
      if invalid || |chain.segs| == 0 || |out| >= max {
        RejectChain(s1, out);
        dropped := dropped + 1;
        chain, invalid := NO_PACKET, false;
        return;
      }
      out' := out + [chain];
      chain := NO_PACKET;
    }

    /** recv_queue on the descriptors just peeked. The reject list keeps the first 68 addresses
        of the unlimited one. */
    method RecvQueue(ds: seq<Desc>, max: nat) returns (out: seq<Packet>)
      requires |ds| <= max && |rejects| <= REJECT_SLOTS
      modifies this
      ensures var s := Fold(Rx(old(chain), old(invalid), old(rejects), []), ds, 0, |ds|);
              && chain == s.chain && invalid == s.invalid && out == s.out
              && rejects == if |s.rejects| <= REJECT_SLOTS then s.rejects else s.rejects[..REJECT_SLOTS]
    {
      ghost var s0 := Rx(chain, invalid, rejects, []);
      out := [];
      for i := 0 to |ds|
        invariant Tracks(Fold(s0, ds, 0, i), out) && |out| <= i
      {
        out := Take(ds[i], out, max, Fold(s0, ds, 0, i));
      }
    }

  }

  // ---- no frame is lost ------------------------------------------------------------

  /** Frames of the first `n` packets. */
  function PacketsFrames(ps: seq<Packet>, n: nat): multiset<Addr>
    requires n <= |ps|
  {
    if n == 0 then multiset{} else PacketsFrames(ps, n - 1) + FramesOf(ps[n - 1])
  }

  lemma {:induction false} PacketsFramesAppend(ps: seq<Packet>, p: Packet, n: nat)
    requires n <= |ps|
    ensures PacketsFrames(ps + [p], n) == PacketsFrames(ps, n)
  {
    if n > 0 { PacketsFramesAppend(ps, p, n - 1); }
  }

  /** Frames the receiver is responsible for. */
  function Held(s: Rx): multiset<Addr> {
    multiset(s.rejects) + FramesOf(s.chain) + PacketsFrames(s.out, |s.out|)
  }

  lemma EnterConserves(s: Rx, d: Desc)
    ensures Held(Enter(s, d)) == Held(s) + multiset{d.addr}
  {
    assert Addrs(Extend(s.chain, d).segs) == Addrs(s.chain.segs) + [d.addr];
  }

  lemma FinishConserves(s: Rx)
    ensures Held(Finish(s)) == Held(s)
  {
    PacketsFramesAppend(s.out, s.chain, |s.out|);
  }

  lemma StepConserves(s: Rx, d: Desc)
    ensures Held(RxStep(s, d)) == Held(s) + multiset{d.addr}
  {
    EnterConserves(s, d);
    FinishConserves(Enter(s, d));
  }

  function AddrsFrom(ds: seq<Desc>, i: nat, j: nat): multiset<Addr>
    requires i <= j <= |ds|
  {
    if i == j then multiset{} else AddrsFrom(ds, i, j - 1) + multiset{ds[j - 1].addr}
  }

  lemma SumAssoc(a: multiset<Addr>, b: multiset<Addr>, c: multiset<Addr>)
    ensures (a + b) + c == a + (b + c)
  {
  }

  lemma HeldNext(s: Rx, ds: seq<Desc>, i: nat, j: nat)
    requires i < j <= |ds| && Held(Fold(s, ds, i, j - 1)) == Held(s) + AddrsFrom(ds, i, j - 1)
    ensures Held(Fold(s, ds, i, j)) == Held(s) + AddrsFrom(ds, i, j)
  {
    var t, before, a := Fold(s, ds, i, j - 1), AddrsFrom(ds, i, j - 1), multiset{ds[j - 1].addr};
    StepConserves(t, ds[j - 1]);
    SumAssoc(Held(s), before, a);
    assert Held(RxStep(t, ds[j - 1])) == Held(t) + a;
  }

  /** Every frame of every descriptor ends in exactly one place: an output packet, the chain
      carried over, or the reject list. */
  lemma {:induction false} FoldConserves(s: Rx, ds: seq<Desc>, i: nat, j: nat)
    requires i <= j <= |ds|
    ensures Held(Fold(s, ds, i, j)) == Held(s) + AddrsFrom(ds, i, j)
    decreases j
  {
    if i < j {
      FoldConserves(s, ds, i, j - 1);
      HeldNext(s, ds, i, j);
    }
  }

  /** Rejects never outnumber the frames taken in. */
  lemma {:induction false} RejectBound(s: Rx, ds: seq<Desc>, j: nat)
    requires |s.chain.segs| <= MAX_SEGS && j <= |ds|
    ensures var s' := Fold(s, ds, 0, j);
            |s'.rejects| + |s'.chain.segs| <= |s.rejects| + |s.chain.segs| + j && |s'.chain.segs| <= MAX_SEGS
  {
    if j > 0 { RejectBound(s, ds, j - 1); }
  }

  /** The capped reject list of `RecvQueue`. */
  function Kept(rejects: seq<Addr>): seq<Addr> {
    if |rejects| <= REJECT_SLOTS then rejects else rejects[..REJECT_SLOTS]
  }

  /** Frames accounted for once the list has been capped. */
  function HeldKept(s: Rx): multiset<Addr> { Held(s.(rejects := Kept(s.rejects))) }

  /** Starting from an empty reject list, one batch of at most 64 descriptors never overflows the
      68 slots, whatever chain was carried over, so receiving conserves every frame. */
  lemma BatchConserves(chain: Packet, invalid: bool, ds: seq<Desc>)
    requires |chain.segs| <= MAX_SEGS && |ds| <= BATCH
    ensures var s := Fold(Rx(chain, invalid, [], []), ds, 0, |ds|);
            Kept(s.rejects) == s.rejects && HeldKept(s) == FramesOf(chain) + AddrsFrom(ds, 0, |ds|)
  {
    RejectBound(Rx(chain, invalid, [], []), ds, |ds|);
    FoldConserves(Rx(chain, invalid, [], []), ds, 0, |ds|);
  }

  // ---- receiving without a release ---------------------------------------------------------

  function FoldAll(s: Rx, ds: seq<Desc>): Rx { Fold(s, ds, 0, |ds|) }

  /** Frames that went in and are nowhere afterwards. */
  ghost predicate Loses(s: Rx, ds: seq<Desc>) {
    HeldKept(FoldAll(s, ds)) != Held(s) + AddrsFrom(ds, 0, |ds|)
  }

  /** A batch loses frames exactly if the unlimited reject list outgrows the 68 slots. */
  lemma OverflowLoses(s: Rx, ds: seq<Desc>)
    ensures Loses(s, ds) <==> |FoldAll(s, ds).rejects| > REJECT_SLOTS
  {
    var s' := FoldAll(s, ds);
    FoldConserves(s, ds, 0, |ds|);
    if |s'.rejects| > REJECT_SLOTS {
      var lost := s'.rejects[REJECT_SLOTS..];
      assert s'.rejects == Kept(s'.rejects) + lost;
      assert multiset(s'.rejects) == multiset(Kept(s'.rejects)) + multiset(lost);
      assert |Held(s')| == |HeldKept(s')| + |multiset(lost)|;
    }
  }

  /** Lengths the kernel delivers: at least one byte and no more than a frame. */
  predicate Delivered(ds: seq<Desc>) { forall i :: 0 <= i < |ds| ==> 1 <= ds[i].len <= FRAME }

  // ---- behind the XDP programs -------------------------------------------------------------

  /** What the programs want in a packet's first buffer: Ethernet and IPv4 headers, or Ethernet's. */
  const LAN_HEAD := 34
  const WAN_HEAD := 14

  predicate IsHead(head: nat) { head == LAN_HEAD || head == WAN_HEAD }

  /** Bytes the carried packet can still bring. A rejected descriptor brought one at least. */
  function Left(s: Rx): int { WIRE_MAX - s.chain.len - if s.invalid then 1 else 0 }

  /** The same before the `j`-th descriptor. */
  function LeftAt(s: Rx, ds: seq<Desc>, j: nat): int
    requires j <= |ds|
  {
    if j == 0 then Left(s) else if !ds[j - 1].more then WIRE_MAX else LeftAt(s, ds, j - 1) - ds[j - 1].len
  }

  predicate StartsAt(s: Rx, ds: seq<Desc>, j: nat)
    requires j <= |ds|
  {
    if j == 0 then s.chain.segs == [] else !ds[j - 1].more
  }

  /** A packet goes on only with a byte to come, and begins with the headers. */
  predicate Passes(d: Desc, left: int, starts: bool, head: nat) {
    && 1 <= d.len <= FRAME && d.len + (if d.more then 1 else 0) <= left
    && (starts ==> d.len >= head)
  }

  /** What the XDP programs let through: no packet, the carried one included, has more than 9014
      bytes, and each has its headers in the first buffer. */
  ghost predicate Admitted(s: Rx, head: nat, ds: seq<Desc>) {
    forall j :: 0 <= j < |ds| ==> Passes(ds[j], LeftAt(s, ds, j), StartsAt(s, ds, j), head)
  }

  /** A chain of such descriptors of which at most `left` bytes are missing. It can only be
      rejected for its number of buffers. */
  predicate CarriedWith(s: Rx, left: int) {
    var c := |s.chain.segs|;
    && c <= MAX_SEGS && c <= s.chain.len && left <= Left(s)
    && (if c == 0 then s.chain.len == 0 && left == WIRE_MAX else left >= 1)
    && (s.invalid ==> c == MAX_SEGS)
  }

  /** The chain between two receives. */
  predicate Carried(s: Rx) { CarriedWith(s, Left(s)) }

  /** Buffers of the chain and rejects, and what one descriptor makes of them. */
  function Sizes(s: Rx): (nat, nat) { (|s.chain.segs|, |s.rejects|) }

  function NextSizes(p: (nat, nat), more: bool): (nat, nat) {
    var (c, r) := p;
    if c < MAX_SEGS then (if more then c + 1 else 0, r) else if more then (c, r + 1) else (0, r + c + 1)
  }

  lemma CarriedStep(s: Rx, left: int, d: Desc, head: nat)
    requires CarriedWith(s, left) && Passes(d, left, s.chain.segs == [], head) && head >= 1
    ensures CarriedWith(RxStep(s, d), if d.more then left - d.len else WIRE_MAX)
    ensures Sizes(RxStep(s, d)) == NextSizes(Sizes(s), d.more)
  {
  }

  /** Every receive leaves such a chain behind. */
  lemma {:induction false} StaysCarried(s: Rx, head: nat, ds: seq<Desc>, j: nat)
    requires Carried(s) && IsHead(head) && Admitted(s, head, ds) && j <= |ds|
    ensures CarriedWith(Fold(s, ds, 0, j), LeftAt(s, ds, j))
    ensures StartsAt(s, ds, j) <==> Fold(s, ds, 0, j).chain.segs == []
    decreases j
  {
    if j > 0 {
      StaysCarried(s, head, ds, j - 1);
      CarriedStep(Fold(s, ds, 0, j - 1), LeftAt(s, ds, j - 1), ds[j - 1], head);
    }
  }

  /** The receive loop in numbers. */
  function Counts(p: (nat, nat), ds: seq<Desc>, j: nat): (nat, nat)
    requires j <= |ds|
  {
    if j == 0 then p else NextSizes(Counts(p, ds, j - 1), ds[j - 1].more)
  }

  lemma FoldCountsNext(s: Rx, head: nat, ds: seq<Desc>, j: nat)
    requires Carried(s) && IsHead(head) && Admitted(s, head, ds) && j < |ds|
    ensures Sizes(RxStep(Fold(s, ds, 0, j), ds[j])) == NextSizes(Sizes(Fold(s, ds, 0, j)), ds[j].more)
  {
    StaysCarried(s, head, ds, j);
    CarriedStep(Fold(s, ds, 0, j), LeftAt(s, ds, j), ds[j], head);
  }

  lemma {:induction false} FoldCounts(s: Rx, head: nat, ds: seq<Desc>, j: nat)
    requires Carried(s) && IsHead(head) && Admitted(s, head, ds) && j <= |ds|
    ensures Counts(Sizes(s), ds, j) == Sizes(Fold(s, ds, 0, j))
    decreases j
  {
    if j > 0 {
      FoldCounts(s, head, ds, j - 1);
      FoldCountsNext(s, head, ds, j - 1);
      assert Fold(s, ds, 0, j) == RxStep(Fold(s, ds, 0, j - 1), ds[j - 1]);
    }
  }

  // ---- the most a receive can reject -------------------------------------------------------

  /** The most frames that `n` descriptors can add to the reject list when the chain has `c`
      buffers and `left` bytes to come. Either the chain is rejected, which takes `5 - c` more
      descriptors and at least as many bytes: then all are, if its bytes suffice or five descriptors
      are left for another packet to be rejected. Or it ends with the first descriptor and the
      others are rejected. */
  function Worst(c: nat, left: int, n: nat): nat
    requires c <= MAX_SEGS
  {
    var need := MAX_SEGS + 1 - c;
    var stays := if n < need || left < need then 0 else c + if n <= left || n >= need + 5 then n else left;
    var ends := if n >= 6 then n - 1 else 0;
    if stays > ends then stays else ends
  }

  lemma WorstStep(c: nat, left: int, n: nat, len: nat)
    requires c <= MAX_SEGS && 0 < n <= BATCH && 1 <= len < left <= WIRE_MAX
    ensures if c == MAX_SEGS then 1 + Worst(c, left - len, n - 1) <= Worst(c, left, n)
            else Worst(c + 1, left - len, n - 1) <= Worst(c, left, n)
  {
  }

  lemma WorstEnd(c: nat, left: int, n: nat)
    requires c <= MAX_SEGS && 0 < n <= BATCH && 1 <= left <= WIRE_MAX
    ensures (if c == MAX_SEGS then c + 1 else 0) + Worst(0, WIRE_MAX, n - 1) <= Worst(c, left, n)
  {
  }

  /** What has been rejected and the most that can still be. */
  function Outlook(s: Rx, ds: seq<Desc>, j: nat): nat
    requires j <= |ds|
  {
    var (c, r) := Counts(Sizes(s), ds, j);
    r + Worst(if c <= MAX_SEGS then c else MAX_SEGS, LeftAt(s, ds, j), |ds| - j)
  }

  lemma OutlookStep(s: Rx, head: nat, ds: seq<Desc>, j: nat)
    requires Carried(s) && IsHead(head) && Admitted(s, head, ds) && j < |ds| <= BATCH
    ensures Outlook(s, ds, j + 1) <= Outlook(s, ds, j)
  {
    FoldCounts(s, head, ds, j);
    StaysCarried(s, head, ds, j);
    var c, left := Counts(Sizes(s), ds, j).0, LeftAt(s, ds, j);
    if ds[j].more {
      WorstStep(c, left, |ds| - j, ds[j].len);
    } else {
      WorstEnd(c, left, |ds| - j);
    }
  }

  /** The outlook never worsens. */
  lemma {:induction false} WorstBound(s: Rx, head: nat, ds: seq<Desc>, j: nat)
    requires Carried(s) && IsHead(head) && Admitted(s, head, ds) && j <= |ds| <= BATCH
    ensures Outlook(s, ds, j) <= Outlook(s, ds, 0)
    decreases j
  {
    if j > 0 {
      WorstBound(s, head, ds, j - 1);
      OutlookStep(s, head, ds, j - 1);
    }
  }

  // ---- a stream that rejects as much ---------------------------------------------------------

  /** `n` descriptors as short as can be. The first packet ends with the `k`-th, another with the last. */
  function Shortest(starts: bool, head: nat, k: nat, n: nat): (ds: seq<Desc>)
    ensures |ds| == n
    ensures forall i :: 0 <= i < n ==>
              ds[i] == Desc(i, if i == k || (i == 0 && starts) then head else 1, i + 1 != k && i + 1 != n)
  {
    seq(n, i requires 0 <= i < n => Desc(i, if i == k || (i == 0 && starts) then head else 1, i + 1 != k && i + 1 != n))
  }

  lemma {:induction false} ShortestLeft(s: Rx, head: nat, k: nat, n: nat, j: nat)
    requires IsHead(head) && 1 <= k <= n && j < n
    ensures var ds := Shortest(s.chain.segs == [], head, k, n);
            LeftAt(s, ds, j) == if j < k then Left(s) - j - (if j > 0 && s.chain.segs == [] then head - 1 else 0)
                                else if j == k then WIRE_MAX else WIRE_MAX - head - (j - k - 1)
    decreases j
  {
    if j > 0 { ShortestLeft(s, head, k, n, j - 1); }
  }

  lemma ShortestAdmitted(s: Rx, head: nat, k: nat, n: nat)
    requires Carried(s) && IsHead(head) && 1 <= k <= n <= BATCH && k <= Left(s)
    ensures Admitted(s, head, Shortest(s.chain.segs == [], head, k, n))
  {
    var ds := Shortest(s.chain.segs == [], head, k, n);
    forall j | 0 <= j < n ensures Passes(ds[j], LeftAt(s, ds, j), StartsAt(s, ds, j), head) {
      ShortestLeft(s, head, k, n, j);
    }
  }

  /** While a packet goes on, what does not fit its four buffers is rejected. */
  lemma {:induction false} GoesOn(p: (nat, nat), ds: seq<Desc>, i: nat, j: nat)
    requires i <= j <= |ds| && Counts(p, ds, i).0 <= MAX_SEGS
    requires forall m :: i <= m < j ==> ds[m].more
    ensures var (b, q) := Counts(p, ds, i);
            Counts(p, ds, j) ==
            if b + (j - i) <= MAX_SEGS then (b + (j - i), q) else (MAX_SEGS, q + (b + (j - i) - MAX_SEGS))
    decreases j
  {
    if i < j { GoesOn(p, ds, i, j - 1); }
  }

  /** A packet that ends with more than four buffers is rejected as a whole. */
  lemma Ends(p: (nat, nat), ds: seq<Desc>, i: nat, j: nat)
    requires i < j <= |ds| && Counts(p, ds, i).0 <= MAX_SEGS && !ds[j - 1].more
    requires forall m :: i <= m < j - 1 ==> ds[m].more
    ensures var (b, q) := Counts(p, ds, i);
            Counts(p, ds, j) == (0, q + if b + (j - i) <= MAX_SEGS then 0 else b + (j - i))
  {
    GoesOn(p, ds, i, j - 1);
  }

  lemma ShortestRejects(s: Rx, head: nat, k: nat, n: nat)
    requires Carried(s) && IsHead(head) && 1 <= k <= n <= BATCH && k <= Left(s)
    ensures var ds, c := Shortest(s.chain.segs == [], head, k, n), |s.chain.segs|;
            |FoldAll(s, ds).rejects| - |s.rejects| ==
            (if c + k <= MAX_SEGS then 0 else c + k) + (if n - k <= MAX_SEGS then 0 else n - k)
  {
    var ds := Shortest(s.chain.segs == [], head, k, n);
    ShortestAdmitted(s, head, k, n);
    FoldCounts(s, head, ds, n);
    Ends(Sizes(s), ds, 0, k);
    if k < n { Ends(Sizes(s), ds, k, n); }
  }

  /** Where to end the first packet to reject the most. */
  function WorstCut(c: nat, left: int, n: nat): (k: nat)
    requires c <= MAX_SEGS && 1 <= left && 1 <= n
    ensures 1 <= k <= n && k <= left
    ensures (if c + k <= MAX_SEGS then 0 else c + k) + (if n - k <= MAX_SEGS then 0 else n - k) >= Worst(c, left, n)
  {
    var need := MAX_SEGS + 1 - c;
    if n < need || left < need || (left < n < need + 5 && c + left < n - 1) then 1
    else if n <= left then n
    else if n >= need + 5 then need
    else left
  }

  /** No stream of `n` descriptors that the programs let through loses a frame. */
  ghost predicate ReceiveSafe(s: Rx, head: nat, n: nat) {
    forall ds :: |ds| == n && Admitted(s, head, ds) ==> !Loses(s, ds)
  }

  /** What a caller can check before the call: no stream of `n` descriptors that the programs let
      through loses a frame if and only if the reject list has room for the most they can reject. */
  lemma ReceiveSafeIff(s: Rx, head: nat, n: nat)
    requires Carried(s) && |s.rejects| <= REJECT_SLOTS && IsHead(head) && n <= BATCH
    ensures ReceiveSafe(s, head, n) <==> |s.rejects| + Worst(|s.chain.segs|, Left(s), n) <= REJECT_SLOTS
  {
    var worst := Worst(|s.chain.segs|, Left(s), n);
    forall ds | |ds| == n && Admitted(s, head, ds) && |s.rejects| + worst <= REJECT_SLOTS ensures !Loses(s, ds) {
      OverflowLoses(s, ds);
      WorstBound(s, head, ds, n);
      FoldCounts(s, head, ds, n);
    }
    if |s.rejects| + worst > REJECT_SLOTS {
      var k := WorstCut(|s.chain.segs|, Left(s), n);
      var ds := Shortest(s.chain.segs == [], head, k, n);
      ShortestAdmitted(s, head, k, n);
      ShortestRejects(s, head, k, n);
      OverflowLoses(s, ds);
      assert |ds| == n && Admitted(s, head, ds) && Loses(s, ds);
    }
  }

  // ---- a batch that yields nothing -------------------------------------------------------------

  /** A batch of packets of five short buffers each, the last one cut off after four. */
  function Fives(head: nat): (ds: seq<Desc>)
    ensures |ds| == BATCH
    ensures forall i :: 0 <= i < BATCH ==> ds[i] == Desc(i, if i % 5 == 0 then head else 1, i % 5 != 4)
  {
    seq(BATCH, i requires 0 <= i < BATCH => Desc(i, if i % 5 == 0 then head else 1, i % 5 != 4))
  }

  const FRESH := Rx(NO_PACKET, false, [], [])

  /** After `g` packets and `r` buffers of the next. */
  ghost predicate FiveState(s: Rx, head: nat, g: nat, r: nat) {
    && |s.chain.segs| == r && s.chain.len == (if r == 0 then 0 else head - 1 + r)
    && !s.invalid && |s.rejects| == 5 * g && s.out == []
  }

  lemma FiveStep(s: Rx, head: nat, g: nat, r: nat, d: Desc)
    requires IsHead(head) && r < 5 && FiveState(s, head, g, r)
    requires d.len == (if r == 0 then head else 1) && (d.more <==> r < 4)
    ensures if r < 4 then FiveState(RxStep(s, d), head, g, r + 1) else FiveState(RxStep(s, d), head, g + 1, 0)
  {
  }

  lemma FivesIndex(head: nat, g: nat, r: nat)
    requires r < 5 && 5 * g + r < BATCH
    ensures Fives(head)[5 * g + r] == Desc(5 * g + r, if r == 0 then head else 1, r < 4)
  {
    assert (5 * g + r) % 5 == r;
  }

  /** The fold after `j` descriptors: `g` packets and `r` buffers of the next. */
  lemma {:induction false} FivesFold(head: nat, j: nat, g: nat, r: nat)
    requires IsHead(head) && r < 5 && j == 5 * g + r <= BATCH
    ensures FiveState(Fold(FRESH, Fives(head), 0, j), head, g, r)
    decreases j
  {
    var ds := Fives(head);
    if j > 0 {
      var h, q := if r > 0 then g else g - 1, if r > 0 then r - 1 else 4;
      FivesFold(head, j - 1, h, q);
      FivesIndex(head, h, q);
      FiveStep(Fold(FRESH, ds, 0, j - 1), head, h, q, ds[j - 1]);
    }
  }

  lemma {:induction false} FivesLeft(head: nat, g: nat, r: nat)
    requires IsHead(head) && r < 5 && 5 * g + r <= BATCH
    ensures LeftAt(FRESH, Fives(head), 5 * g + r) == WIRE_MAX - (if r == 0 then 0 else head - 1 + r)
    ensures StartsAt(FRESH, Fives(head), 5 * g + r) <==> r == 0
    decreases g, r
  {
    if r > 0 {
      FivesLeft(head, g, r - 1);
      FivesIndex(head, g, r - 1);
    } else if g > 0 {
      FivesIndex(head, g - 1, 4);
    }
  }

  lemma FivesAdmitted(head: nat)
    requires IsHead(head)
    ensures Admitted(FRESH, head, Fives(head))
  {
    var ds := Fives(head);
    forall j | 0 <= j < BATCH ensures Passes(ds[j], LeftAt(FRESH, ds, j), StartsAt(FRESH, ds, j), head) {
      FivesLeft(head, j / 5, j % 5);
    }
  }

  lemma FivesLeave(head: nat)
    requires IsHead(head)
    ensures FiveState(FoldAll(FRESH, Fives(head)), head, 12, 4)
  {
    FivesFold(head, |Fives(head)|, 12, 4);
  }

  /** With sixty rejects and a chain of four, four descriptors are safe and five are not. */
  lemma FiveMoreLose(s: Rx, head: nat)
    requires IsHead(head) && Carried(s) && |s.chain.segs| == 4 && |s.rejects| == 60 && Left(s) >= BATCH
    ensures forall n: nat | n <= BATCH :: ReceiveSafe(s, head, n) <==> n <= 4
    ensures Admitted(s, head, Shortest(false, head, 5, 5)) && Loses(s, Shortest(false, head, 5, 5))
  {
    forall n: nat | n <= BATCH ensures ReceiveSafe(s, head, n) <==> n <= 4 {
      ReceiveSafeIff(s, head, n);
    }
    ShortestAdmitted(s, head, 5, 5);
    ShortestRejects(s, head, 5, 5);
    OverflowLoses(s, Shortest(false, head, 5, 5));
  }

  /** A batch that yields no packet, after which the threads skip the release, can leave a state
      in which the next receive is unsafe from five descriptors on: twelve packets of five short
      buffers and four buffers of another leave 60 rejects and a chain of four, and the rest of
      that packet in five more short buffers loses a frame. */
  lemma SkippedReleaseLoses(head: nat)
    requires IsHead(head)
    ensures var s, rest := FoldAll(FRESH, Fives(head)), Shortest(false, head, 5, 5);
            && Admitted(FRESH, head, Fives(head)) && s.out == [] && Carried(s)
            && |s.chain.segs| == 4 && |s.rejects| == 60
            && (forall n: nat | n <= BATCH :: ReceiveSafe(s, head, n) <==> n <= 4)
            && Admitted(s, head, rest) && Loses(s, rest)
  {
    FivesAdmitted(head);
    FivesLeave(head);
    FiveMoreLose(FoldAll(FRESH, Fives(head)), head);
  }

  // ---- what is put out ---------------------------------------------------------------------

  /** A chain of delivered descriptors. */
  predicate ProperChain(p: Packet) {
    && |p.segs| <= MAX_SEGS && p.len == LenSum(p.segs, |p.segs|) <= JUMBO_MAX
    && forall i :: 0 <= i < |p.segs| ==> 1 <= p.segs[i].len <= p.segs[i].cap <= FRAME
  }

  predicate AllProper(ps: seq<Packet>) { forall i :: 0 <= i < |ps| ==> Proper(ps[i]) }

  lemma ExtendProper(p: Packet, d: Desc)
    requires ProperChain(p) && |p.segs| < MAX_SEGS && 1 <= d.len <= FRAME && p.len + d.len <= JUMBO_MAX
    ensures ProperChain(Extend(p, d))
  {
    SumSame(Extend(p, d).segs, p.segs, |p.segs|);
  }

  lemma StepProper(s: Rx, d: Desc)
    requires ProperChain(s.chain) && AllProper(s.out) && 1 <= d.len <= FRAME
    ensures ProperChain(RxStep(s, d).chain) && AllProper(RxStep(s, d).out)
  {
    if Enter(s, d).chain != s.chain { ExtendProper(s.chain, d); }
  }

  /** From delivered descriptors only proper packets are put out, and the chain stays proper. */
  lemma {:induction false} FoldProper(s: Rx, ds: seq<Desc>, j: nat)
    requires ProperChain(s.chain) && AllProper(s.out) && Delivered(ds) && j <= |ds|
    ensures ProperChain(Fold(s, ds, 0, j).chain) && AllProper(Fold(s, ds, 0, j).out)
    decreases j
  {
    if j > 0 {
      FoldProper(s, ds, j - 1);
      StepProper(Fold(s, ds, 0, j - 1), ds[j - 1]);
    }
  }

  // ---- reference parse -----------------------------------------------------------------

  function LenFrom(ds: seq<Desc>, i: nat, j: nat): nat
    requires i <= j <= |ds|
  {
    if i == j then 0 else LenFrom(ds, i, j - 1) + ds[j - 1].len
  }

  /** The packets the appliance can carry: at most four buffers and 9216 bytes. */
  predicate GroupOk(ds: seq<Desc>, i: nat, j: nat)
    requires i <= j <= |ds|
  {
    j - i <= MAX_SEGS && LenFrom(ds, i, j) <= JUMBO_MAX
  }

  function SegFor(d: Desc): Seg { Seg(d.addr, d.len, d.len) }

  function ToPacket(ds: seq<Desc>, i: nat, j: nat): Packet
    requires i <= j <= |ds|
  {
    Packet(seq(j - i, k requires 0 <= k < j - i => SegFor(ds[i + k])), LenFrom(ds, i, j))
  }

  lemma ToPacketNext(ds: seq<Desc>, i: nat, j: nat)
    requires i <= j < |ds|
    ensures ToPacket(ds, i, j + 1) == Extend(ToPacket(ds, i, j), ds[j])
  {
    assert ds[i + (j - i)] == ds[j];
    assert ToPacket(ds, i, j + 1).segs == ToPacket(ds, i, j).segs + [SegFor(ds[j])];
  }

  /** Index of the first descriptor from `i` on that ends a packet, or the length. */
  function FirstEnd(ds: seq<Desc>, i: nat): (k: nat)
    requires i <= |ds|
    ensures i <= k <= |ds|
    ensures forall j :: i <= j < k ==> ds[j].more
    ensures k < |ds| ==> !ds[k].more
    decreases |ds| - i
  {
    if i == |ds| || !ds[i].more then i else FirstEnd(ds, i + 1)
  }

  /** The reference: cut the stream after every descriptor without the continuation flag and keep
      the groups the appliance can carry. The second part says where the unfinished packet starts. */
  function Parse(ds: seq<Desc>, i: nat): (r: (seq<Packet>, nat))
    requires i <= |ds|
    ensures i <= r.1 <= |ds|
    decreases |ds| - i
  {
    var k := FirstEnd(ds, i);
    if k == |ds| then ([], i)
    else
      var (ps, rest) := Parse(ds, k + 1);
      ((if GroupOk(ds, i, k + 1) then [ToPacket(ds, i, k + 1)] else []) + ps, rest)
  }

  /** End of the longest carriable prefix of the group starting at `i`. */
  function Good(ds: seq<Desc>, i: nat, j: nat): (n: nat)
    requires i <= j <= |ds|
    ensures i <= n <= j
    decreases j
  {
    if i == j then i
    else var n := Good(ds, i, j - 1);
         if n == j - 1 && GroupOk(ds, i, j) then j else n
  }

  lemma {:induction false} GoodIff(ds: seq<Desc>, i: nat, j: nat)
    requires i <= j <= |ds|
    ensures Good(ds, i, j) == j <==> GroupOk(ds, i, j)
    decreases j
  {
    if i < j { GoodIff(ds, i, j - 1); }
  }

  /** The chain built from the unfinished group `i` up to `j`. */
  predicate Building(s: Rx, ds: seq<Desc>, i: nat, j: nat)
    requires i <= j <= |ds|
  {
    s.chain == ToPacket(ds, i, Good(ds, i, j)) && (s.invalid <==> Good(ds, i, j) < j)
  }

  /** Adding one descriptor to the group under construction, before looking at its flag. */
  lemma BuildNext(s: Rx, ds: seq<Desc>, i: nat, j: nat)
    requires i <= j < |ds| && Building(s, ds, i, j)
    ensures var d := ds[j];
            var bad := s.invalid || |s.chain.segs| >= MAX_SEGS || d.len > JUMBO_MAX || s.chain.len > JUMBO_MAX - d.len;
            if bad then Good(ds, i, j + 1) == Good(ds, i, j) < j + 1
            else Good(ds, i, j + 1) == j + 1 && ToPacket(ds, i, j + 1) == Extend(s.chain, d)
  {
    GoodIff(ds, i, j);
    if Good(ds, i, j) == j { ToPacketNext(ds, i, j); }
  }

  /** Folding a group that has not ended builds its carriable prefix and puts nothing out. */
  lemma {:induction false} FoldUnfinished(s: Rx, ds: seq<Desc>, i: nat, j: nat)
    requires s.chain == NO_PACKET && !s.invalid && i <= j <= |ds|
    requires forall k :: i <= k < j ==> ds[k].more
    ensures Building(Fold(s, ds, i, j), ds, i, j) && Fold(s, ds, i, j).out == s.out
    decreases j
  {
    if i < j {
      FoldUnfinished(s, ds, i, j - 1);
      BuildNext(Fold(s, ds, i, j - 1), ds, i, j - 1);
    }
  }

  /** A finished group is put out exactly if it can be carried, and leaves the chain clean. */
  lemma FoldFinished(s: Rx, ds: seq<Desc>, i: nat, k: nat)
    requires s.chain == NO_PACKET && !s.invalid && i <= k < |ds| && !ds[k].more
    requires forall j :: i <= j < k ==> ds[j].more
    ensures var s' := Fold(s, ds, i, k + 1);
            && s'.chain == NO_PACKET && !s'.invalid
            && s'.out == s.out + (if GroupOk(ds, i, k + 1) then [ToPacket(ds, i, k + 1)] else [])
  {
    FoldUnfinished(s, ds, i, k);
    BuildNext(Fold(s, ds, i, k), ds, i, k);
    GoodIff(ds, i, k + 1);
  }

  /** Main theorem: from a clean chain the receive loop computes the reference parse of the whole
      stream, and carries over exactly the unfinished rest. */
  lemma {:induction false} FoldIsParse(s: Rx, ds: seq<Desc>, i: nat)
    requires s.chain == NO_PACKET && !s.invalid && i <= |ds|
    ensures var s' := Fold(s, ds, i, |ds|);
            s'.out == s.out + Parse(ds, i).0 && Building(s', ds, Parse(ds, i).1, |ds|)
    decreases |ds| - i
  {
    var k := FirstEnd(ds, i);
    if k == |ds| {
      FoldUnfinished(s, ds, i, k);
    } else {
      FoldFinished(s, ds, i, k);
      FoldSplit(s, ds, i, k + 1, |ds|);
      FoldIsParse(Fold(s, ds, i, k + 1), ds, k + 1);
      Assoc(s.out, if GroupOk(ds, i, k + 1) then [ToPacket(ds, i, k + 1)] else [], Parse(ds, k + 1).0);
    }
  }

  // ---- batches -----------------------------------------------------------------------------

  /** Receiving the stream from `i` on in batches of the given sizes. */
  function Batches(s: Rx, ds: seq<Desc>, i: nat, sizes: seq<nat>): Rx
    requires i <= |ds|
    decreases |sizes|
  {
    if sizes == [] || i + sizes[0] > |ds| then s
    else Batches(Fold(s, ds[i..i + sizes[0]], 0, sizes[0]), ds, i + sizes[0], sizes[1..])
  }

  function Total(sizes: seq<nat>): nat { if sizes == [] then 0 else sizes[0] + Total(sizes[1..]) }

  lemma {:induction false} BatchesFold(s: Rx, ds: seq<Desc>, i: nat, sizes: seq<nat>)
    requires i + Total(sizes) == |ds|
    ensures Batches(s, ds, i, sizes) == Fold(s, ds, i, |ds|)
    decreases |sizes|
  {
    if sizes != [] {
      var j := i + sizes[0];
      FoldSlice(s, ds, i, j, j);
      FoldSplit(s, ds, i, j, |ds|);
      BatchesFold(Fold(s, ds, i, j), ds, j, sizes[1..]);
    }
  }

  /** Main theorem: however the stream is cut into batches, the outputs of all calls together are
      the reference parse of the whole stream, and the chain carried over is its unfinished rest. */
  lemma BatchIndependence(s: Rx, ds: seq<Desc>, sizes: seq<nat>)
    requires Total(sizes) == |ds| && s.chain == NO_PACKET && !s.invalid
    ensures var s' := Batches(s, ds, 0, sizes);
            s'.out == s.out + Parse(ds, 0).0 && Building(s', ds, Parse(ds, 0).1, |ds|)
  {
    BatchesFold(s, ds, 0, sizes);
    FoldIsParse(s, ds, 0);
  }

  // ---- TX framing ---------------------------------------------------------------------------

  /** tx_drain_queue's descriptors for one packet. */
  function TxDescs(p: Packet): (ds: seq<Desc>)
    ensures |ds| == |p.segs|
    ensures forall i :: 0 <= i < |ds| ==>
              ds[i] == Desc(p.segs[i].addr, if p.segs[i].len > FRAME then FRAME else p.segs[i].len, i + 1 < |ds|)
  {
    seq(|p.segs|, i requires 0 <= i < |p.segs| =>
      Desc(p.segs[i].addr, if p.segs[i].len > FRAME then FRAME else p.segs[i].len, i + 1 < |p.segs|))
  }

  /** The descriptors of the packets from the `k`-th on. */
  function TxStream(ps: seq<Packet>, k: nat): seq<Desc>
    requires k <= |ps|
    decreases |ps| - k
  {
    if k == |ps| then [] else TxDescs(ps[k]) + TxStream(ps, k + 1)
  }

  /** Packets the transmitter can frame: segments no longer than a frame that add up to the length. */
  predicate Sendable(p: Packet) {
    && 1 <= |p.segs| <= MAX_SEGS && p.len == LenSum(p.segs, |p.segs|) <= JUMBO_MAX
    && forall i :: 0 <= i < |p.segs| ==> p.segs[i].len <= FRAME
  }

  /** The same packet as a receiver of its descriptors would build it. */
  function AsReceived(p: Packet): Packet {
    Packet(seq(|p.segs|, i requires 0 <= i < |p.segs| => p.segs[i].(cap := p.segs[i].len)), p.len)
  }

  function AllReceived(ps: seq<Packet>, k: nat): seq<Packet>
    requires k <= |ps|
    decreases |ps| - k
  {
    if k == |ps| then [] else [AsReceived(ps[k])] + AllReceived(ps, k + 1)
  }

  lemma {:induction false} TxLen(ds: seq<Desc>, i: nat, p: Packet, n: nat)
    requires Sendable(p) && n <= |p.segs| && i + n <= |ds|
    requires forall k :: 0 <= k < n ==> ds[i + k] == TxDescs(p)[k]
    ensures LenFrom(ds, i, i + n) == LenSum(p.segs, n)
  {
    if n > 0 {
      TxLen(ds, i, p, n - 1);
      assert ds[i + (n - 1)] == TxDescs(p)[n - 1];
    }
  }

  lemma {:induction false} FirstEndAt(ds: seq<Desc>, i: nat, k: nat)
    requires i <= k < |ds| && !ds[k].more && forall j :: i <= j < k ==> ds[j].more
    ensures FirstEnd(ds, i) == k
    decreases k - i
  {
  }

  /** One packet's descriptors, wherever they stand in the stream, parse back to it. */
  lemma TxGroup(ds: seq<Desc>, i: nat, p: Packet)
    requires Sendable(p) && i + |p.segs| <= |ds|
    requires forall k :: 0 <= k < |p.segs| ==> ds[i + k] == TxDescs(p)[k]
    ensures var j := i + |p.segs|;
            FirstEnd(ds, i) == j - 1 && GroupOk(ds, i, j) && ToPacket(ds, i, j) == AsReceived(p)
  {
    var n := |p.segs|;
    forall j | i <= j < i + n ensures ds[j] == TxDescs(p)[j - i] { assert ds[i + (j - i)] == ds[j]; }
    FirstEndAt(ds, i, i + n - 1);
    TxLen(ds, i, p, n);
    forall k | 0 <= k < n ensures SegFor(ds[i + k]) == p.segs[k].(cap := p.segs[k].len) {}
    assert ToPacket(ds, i, i + n).segs == AsReceived(p).segs;
  }

  lemma ParseGroup(ds: seq<Desc>, i: nat, j: nat)
    requires i < j <= |ds| && FirstEnd(ds, i) == j - 1 && GroupOk(ds, i, j)
    ensures Parse(ds, i) == ([ToPacket(ds, i, j)] + Parse(ds, j).0, Parse(ds, j).1)
  {
  }

  lemma SuffixStep(ds: seq<Desc>, i: nat, g: seq<Desc>, rest: seq<Desc>)
    requires i <= |ds| && ds[i..] == g + rest
    ensures i + |g| <= |ds| && ds[i + |g|..] == rest && forall k :: 0 <= k < |g| ==> ds[i + k] == g[k]
  {
  }

  /** From `i` on the stream holds exactly these packets. */
  predicate ParsesTo(ds: seq<Desc>, i: nat, ps: seq<Packet>)
    requires i <= |ds|
  {
    Parse(ds, i) == (ps, |ds|)
  }

  lemma TxParseStep(ds: seq<Desc>, i: nat, p: Packet, rest: seq<Desc>, ps: seq<Packet>)
    requires i <= |ds| && ds[i..] == TxDescs(p) + rest && Sendable(p)
    requires i + |p.segs| <= |ds| && ds[i + |p.segs|..] == rest ==> ParsesTo(ds, i + |p.segs|, ps)
    ensures ParsesTo(ds, i, [AsReceived(p)] + ps)
  {
    SuffixStep(ds, i, TxDescs(p), rest);
    TxGroup(ds, i, p);
    ParseGroup(ds, i, i + |p.segs|);
  }

  /** Main theorem: parsing the stream the transmitter emits gives the same packets, in order. */
  lemma {:induction false} TxParsesBack(ds: seq<Desc>, i: nat, ps: seq<Packet>, k: nat)
    requires k <= |ps| && i <= |ds| && ds[i..] == TxStream(ps, k)
    requires forall j :: k <= j < |ps| ==> Sendable(ps[j])
    ensures ParsesTo(ds, i, AllReceived(ps, k))
    decreases |ps| - k
  {
    if k == |ps| {
      assert |ds[i..]| == |ds| - i;
    } else {
      SuffixStep(ds, i, TxDescs(ps[k]), TxStream(ps, k + 1));
      TxParsesBack(ds, i + |ps[k].segs|, ps, k + 1);
      TxParseStep(ds, i, ps[k], TxStream(ps, k + 1), AllReceived(ps, k + 1));
    }
  }
}
