/** Packets scattered over UMEM frames: linearise, write back, free. */
module Frames {
  import opened Bytes
  import opened Limits
  import opened Ring

  const FRAME := 4096
  const MAX_SEGS := 4

  /** A UMEM frame is named by its number; its address is the number times the frame size. */
  type Addr = nat

  type Frame = f: seq<byte> | |f| == FRAME witness seq(FRAME, i => 0)
  type Memory = seq<Frame>

  datatype Seg = Seg(addr: Addr, len: nat, cap: nat)
  datatype Packet = Packet(segs: seq<Seg>, len: nat)

  /** A zeroed packet owns nothing. */
  const NO_PACKET := Packet([], 0)

  function Addrs(segs: seq<Seg>): (a: seq<Addr>)
    ensures |a| == |segs|
    ensures forall i :: 0 <= i < |a| ==> a[i] == segs[i].addr
  {
    seq(|segs|, i requires 0 <= i < |segs| => segs[i].addr)
  }

  function FramesOf(p: Packet): multiset<Addr> { multiset(Addrs(p.segs)) }

  // ---- memory ---------------------------------------------------------------

  /** Segments in distinct frames, no longer than their room, which may be none. */
  ghost predicate SegsOk(segs: seq<Seg>, frames: nat) {
    && |segs| <= MAX_SEGS
    && (forall i :: 0 <= i < |segs| ==> segs[i].addr < frames && segs[i].len <= segs[i].cap <= FRAME)
    && (forall i, j :: 0 <= i < j < |segs| ==> segs[i].addr != segs[j].addr)
  }

  /** Every segment has room for at least one byte. */
  predicate Roomy(segs: seq<Seg>) { forall i :: 0 <= i < |segs| ==> 1 <= segs[i].cap }

  /** Bytes in the first `n` segments. */
  function LenSum(segs: seq<Seg>, n: nat): nat
    requires n <= |segs|
  {
    if n == 0 then 0 else LenSum(segs, n - 1) + segs[n - 1].len
  }

  /** Room in the first `n` segments. */
  function CapSum(segs: seq<Seg>, n: nat): nat
    requires n <= |segs|
  {
    if n == 0 then 0 else CapSum(segs, n - 1) + segs[n - 1].cap
  }

  /** Packets as the receiver and ne_packet_write leave them: no segment empty or longer than a
      frame, and the length is that of the segments. */
  predicate Proper(p: Packet) {
    && 1 <= |p.segs| <= MAX_SEGS && p.len == LenSum(p.segs, |p.segs|) <= JUMBO_MAX
    && forall i :: 0 <= i < |p.segs| ==> 1 <= p.segs[i].len <= p.segs[i].cap <= FRAME
  }

  /** A packet being written: its segments have room, and it is not the bare form. */
  predicate Growable(p: Packet) {
    && |p.segs| <= MAX_SEGS && (p.segs == [] ==> p.len == 0)
    && forall i :: 0 <= i < |p.segs| ==> p.segs[i].len <= p.segs[i].cap && 1 <= p.segs[i].cap <= FRAME
  }

  ghost predicate Inside(m: Memory, segs: seq<Seg>) {
    forall i :: 0 <= i < |segs| ==> segs[i].addr < |m| && segs[i].len <= FRAME
  }

  function Piece(m: Memory, s: Seg): seq<byte>
    requires s.addr < |m| && s.len <= FRAME
  {
    m[s.addr][..s.len]
  }

  /** The bytes of the first `n` segments, in segment order. */
  ghost function GatherTo(m: Memory, segs: seq<Seg>, n: nat): (r: seq<byte>)
    requires n <= |segs| && Inside(m, segs)
    ensures |r| == LenSum(segs, n)
  {
    if n == 0 then [] else GatherTo(m, segs, n - 1) + Piece(m, segs[n - 1])
  }

  /** The bytes of a packet. */
  ghost function Gather(m: Memory, segs: seq<Seg>): seq<byte>
    requires Inside(m, segs)
  {
    GatherTo(m, segs, |segs|)
  }

  lemma SegsInside(segs: seq<Seg>, m: Memory)
    requires SegsOk(segs, |m|)
    ensures Inside(m, segs)
  {
  }

  lemma {:induction false} SumPrefix(segs: seq<Seg>, i: nat, j: nat)
    requires i <= j <= |segs|
    ensures LenSum(segs, i) <= LenSum(segs, j) && CapSum(segs, i) <= CapSum(segs, j)
  {
    if i < j { SumPrefix(segs, i, j - 1); }
  }

  lemma {:induction false} SumSame(a: seq<Seg>, b: seq<Seg>, n: nat)
    requires n <= |a| && n <= |b| && forall i :: 0 <= i < n ==> a[i] == b[i]
    ensures LenSum(a, n) == LenSum(b, n) && CapSum(a, n) == CapSum(b, n)
  {
    if n > 0 { SumSame(a, b, n - 1); }
  }

  /** A packet's bytes depend only on the memory its segments cover. */
  lemma {:induction false} GatherFrame(m: Memory, segs: seq<Seg>, m': Memory, segs': seq<Seg>, n: nat)
    requires Inside(m, segs) && Inside(m', segs') && n <= |segs| && n <= |segs'|
    requires forall i :: 0 <= i < n ==> Piece(m, segs[i]) == Piece(m', segs'[i])
    ensures GatherTo(m, segs, n) == GatherTo(m', segs', n)
  {
    if n > 0 { GatherFrame(m, segs, m', segs', n - 1); }
  }

  /** Every frame outside `touched` holds the same bytes in both memories. */
  ghost predicate SameElsewhere(m: Memory, m': Memory, touched: seq<Addr>) {
    |m| == |m'| && forall a :: 0 <= a < |m| && a !in touched ==> m[a] == m'[a]
  }

  lemma ElsewhereWider(m: Memory, m': Memory, a: seq<Addr>, b: seq<Addr>, all: seq<Addr>)
    requires SameElsewhere(m, m', a) && a + b == all
    ensures SameElsewhere(m, m', all)
  {
  }

  // ---- linearise -------------------------------------------------------------

  /** A packet with a length, but no segment or a single empty one: its length then counts as that of
      one segment, at address 0 if there is none. */
  predicate Bare(p: Packet) { p.len > 0 && (p.segs == [] || (|p.segs| == 1 && p.segs[0].len == 0)) }

  function BareAddr(p: Packet): Addr { if p.segs == [] then 0 else p.segs[0].addr }

  /** `n` bytes from the start of frame `a` on, running over into the next ones. */
  function ReadFrom(m: Memory, a: Addr, n: nat): (r: seq<byte>)
    requires n <= (|m| - a) * FRAME
    ensures |r| == n
    decreases n
  {
    if n == 0 then [] else if n <= FRAME then m[a][..n] else m[a] + ReadFrom(m, a + 1, n - FRAME)
  }

  method Linearize(mem: array<Frame>, p: Packet, room: nat) returns (r: Option<seq<byte>>)
    requires SegsOk(p.segs, mem.Length) && (Bare(p) && p.len <= room ==> p.len <= (mem.Length - BareAddr(p)) * FRAME)
    ensures Bare(p) ==> r == if p.len <= room then Some(ReadFrom(mem[..], BareAddr(p), p.len)) else None
    ensures !Bare(p) ==> (r.Some? <==> p.len <= room && LenSum(p.segs, |p.segs|) == p.len)
    ensures !Bare(p) && r.Some? ==> Inside(mem[..], p.segs) && r.value == Gather(mem[..], p.segs)
  {
    if p.len > room { return None; }
    if Bare(p) { return Some(ReadFrom(mem[..], BareAddr(p), p.len)); }
    var out: seq<byte> := [];
    SegsInside(p.segs, mem[..]);
    for i := 0 to |p.segs|
      invariant out == GatherTo(mem[..], p.segs, i) && |out| <= p.len
    {
      var s := p.segs[i];
      if s.len > p.len - |out| {
        SumPrefix(p.segs, i + 1, |p.segs|);
        return None;
      }
      out := out + mem[s.addr][..s.len];
    }
    if |out| != p.len { return None; }
    r := Some(out);
  }

  // ---- growing a packet from the pool --------------------------------------------

  /** How many frames are taken when `n` segments have room `cap`, `need` is asked for and `free`
      frames are left. */
  function Taken(cap: nat, n: nat, free: nat, need: nat): (k: nat)
    ensures k <= free
    ensures n <= MAX_SEGS ==> n + k <= MAX_SEGS
    decreases free
  {
    if cap >= need || n >= MAX_SEGS || free == 0 then 0 else 1 + Taken(cap + FRAME, n + 1, free - 1, need)
  }

  /** Empty segments for the first `k` frames. */
  function NewSegs(free: seq<Addr>, k: nat): (segs: seq<Seg>)
    requires k <= |free|
    ensures |segs| == k && forall i :: 0 <= i < k ==> segs[i] == Seg(free[i], 0, FRAME)
  {
    seq(k, i requires 0 <= i < k => Seg(free[i], 0, FRAME))
  }

  function TakenFor(segs: seq<Seg>, free: seq<Addr>, need: nat): (k: nat)
    ensures k <= |free| && (|segs| <= MAX_SEGS ==> |segs| + k <= MAX_SEGS)
  {
    Taken(CapSum(segs, |segs|), |segs|, |free|, need)
  }

  function Grown(segs: seq<Seg>, free: seq<Addr>, need: nat): (out: seq<Seg>)
    ensures |out| == |segs| + TakenFor(segs, free, need)
  {
    segs + NewSegs(free, TakenFor(segs, free, need))
  }

  lemma {:induction false} NewSegsRoom(segs: seq<Seg>, free: seq<Addr>, k: nat)
    requires k <= |free|
    ensures CapSum(segs + NewSegs(free, k), |segs| + k) == CapSum(segs, |segs|) + FRAME * k
  {
    var all := segs + NewSegs(free, k);
    if k == 0 {
      assert all == segs;
    } else {
      var fewer := segs + NewSegs(free, k - 1);
      NewSegsRoom(segs, free, k - 1);
      SumSame(all, fewer, |segs| + k - 1);
    }
  }

  lemma NewSegsNext(segs: seq<Seg>, free: seq<Addr>, k: nat)
    requires k < |free|
    ensures segs + NewSegs(free, k) + [Seg(free[k], 0, FRAME)] == segs + NewSegs(free, k + 1)
    ensures free[k..][0] == free[k] && free[k..][1..] == free[k + 1..]
  {
  }

  /** The growing stops with enough room exactly if segments and pool have it. */
  lemma {:induction false} TakenFits(cap: nat, n: nat, free: nat, need: nat)
    requires n <= MAX_SEGS
    ensures cap + FRAME * Taken(cap, n, free, need) >= need <==>
            need <= cap + FRAME * (if free < MAX_SEGS - n then free else MAX_SEGS - n)
    decreases free
  {
    if cap < need && n < MAX_SEGS && free > 0 { TakenFits(cap + FRAME, n + 1, free - 1, need); }
  }

  /** Bytes a packet can take: its own segments plus what the pool can still add. */
  function Room(segs: seq<Seg>, free: nat): nat
    requires |segs| <= MAX_SEGS
  {
    CapSum(segs, |segs|) + FRAME * (if free < MAX_SEGS - |segs| then free else MAX_SEGS - |segs|)
  }

  lemma GrownFits(segs: seq<Seg>, free: seq<Addr>, need: nat)
    requires |segs| <= MAX_SEGS
    ensures var out := Grown(segs, free, need); CapSum(out, |out|) >= need <==> need <= Room(segs, |free|)
  {
    NewSegsRoom(segs, free, TakenFor(segs, free, need));
    TakenFits(CapSum(segs, |segs|), |segs|, |free|, need);
  }

  /** After `k` frames were taken. */
  ghost predicate Growing(segs: seq<Seg>, free: seq<Addr>, need: nat, k: nat,
                          out: seq<Seg>, rest: seq<Addr>, capacity: nat)
  {
    && k <= |free| && rest == free[k..] && out == segs + NewSegs(free, k) && |out| <= MAX_SEGS
    && capacity == CapSum(segs, |segs|) + FRAME * k
    && TakenFor(segs, free, need) == k + Taken(capacity, |out|, |free| - k, need)
  }

  lemma GrowingNext(segs: seq<Seg>, free: seq<Addr>, need: nat, k: nat, out: seq<Seg>, rest: seq<Addr>, capacity: nat)
    requires Growing(segs, free, need, k, out, rest, capacity)
    requires capacity < need && |out| < MAX_SEGS && rest != []
    ensures Growing(segs, free, need, k + 1, out + [Seg(rest[0], 0, FRAME)], rest[1..], capacity + FRAME)
  {
    NewSegsNext(segs, free, k);
  }

  lemma GrowingDone(segs: seq<Seg>, free: seq<Addr>, need: nat, k: nat, out: seq<Seg>, rest: seq<Addr>, capacity: nat)
    requires Growing(segs, free, need, k, out, rest, capacity)
    requires capacity >= need || |out| >= MAX_SEGS || rest == []
    ensures out == Grown(segs, free, need) && rest == free[TakenFor(segs, free, need)..]
  {
  }

  /** Takes frames from the pool until `need` bytes fit, the packet is full or the pool is empty. */
  method Grow(pool: Ring<Addr>, segs: seq<Seg>, need: nat) returns (out: seq<Seg>)
    requires pool.Valid() && |segs| <= MAX_SEGS
    modifies pool`tail, pool`pops
    ensures pool.Valid() && out == Grown(segs, old(pool.Contents()), need)
    ensures pool.Contents() == old(pool.Contents())[TakenFor(segs, old(pool.Contents()), need)..]
  {
    out := segs;
    ghost var free, k: nat := pool.Contents(), 0;
    var capacity: nat := CapSum(segs, |segs|);
    assert segs + NewSegs(free, 0) == segs;
    while capacity < need && |out| < MAX_SEGS
      invariant pool.Valid() && Growing(segs, free, need, k, out, pool.Contents(), capacity)
      decreases MAX_SEGS - |out|
    {
      ghost var rest := pool.Contents();
      var a := pool.TryPop();
      if a.None? { break; }
      GrowingNext(segs, free, need, k, out, rest, capacity);
      out := out + [Seg(a.value, 0, FRAME)];
      capacity := capacity + FRAME;
      k := k + 1;
    }
    GrowingDone(segs, free, need, k, out, pool.Contents(), capacity);
  }

  // ---- filling and trimming --------------------------------------------------------

  /** How many of `total` bytes segment `i` gets when filling front to back. */
  function Share(segs: seq<Seg>, i: nat, total: nat): nat
    requires i < |segs|
  {
    var before := CapSum(segs, i);
    if total <= before then 0 else if total - before < segs[i].cap then total - before else segs[i].cap
  }

  function Spread(segs: seq<Seg>, total: nat): (out: seq<Seg>)
    ensures |out| == |segs|
  {
    seq(|segs|, i requires 0 <= i < |segs| => segs[i].(len := Share(segs, i, total)))
  }

  lemma SpreadOk(segs: seq<Seg>, total: nat, frames: nat)
    requires SegsOk(segs, frames)
    ensures SegsOk(Spread(segs, total), frames) && Addrs(Spread(segs, total)) == Addrs(segs)
  {
  }

  /** How many of `total` bytes the first `i` segments take. */
  function Filled(segs: seq<Seg>, i: nat, total: nat): nat
    requires i <= |segs|
  {
    if total < CapSum(segs, i) then total else CapSum(segs, i)
  }

  lemma {:induction false} SpreadLen(segs: seq<Seg>, total: nat, n: nat)
    requires n <= |segs|
    ensures LenSum(Spread(segs, total), n) == Filled(segs, n, total)
  {
    if n > 0 { SpreadLen(segs, total, n - 1); }
  }

  /** First segment from `i` on that got no byte, or the number of segments. */
  function Used(segs: seq<Seg>, i: nat): (n: nat)
    requires i <= |segs|
    ensures i <= n <= |segs|
    ensures forall j :: i <= j < n ==> segs[j].len > 0
    ensures n < |segs| ==> segs[n].len == 0
    decreases |segs| - i
  {
    if i == |segs| || segs[i].len == 0 then i else Used(segs, i + 1)
  }

  function UsedOf(segs: seq<Seg>, total: nat): (n: nat)
    ensures n <= |segs|
  {
    Used(Spread(segs, total), 0)
  }

  /** What ne_packet_write makes of a packet and the pool, in frames and lengths. */
  datatype Written = Written(ok: bool, packet: Packet, pool: seq<Addr>)

  function WriteOutcome(p: Packet, free: seq<Addr>, n: nat): Written {
    if n == 0 || n > JUMBO_MAX then Written(false, p, free)
    else
      var segs, rest := Grown(p.segs, free, n), free[TakenFor(p.segs, free, n)..];
      if CapSum(segs, |segs|) < n then Written(false, Packet(segs, p.len), rest)
      else
        var sp, u := Spread(segs, n), UsedOf(segs, n);
        Written(true, Packet(sp[..u], n), rest + Addrs(sp[u..]))
  }

  /** It succeeds exactly if the bytes fit. */
  lemma WriteFits(p: Packet, free: seq<Addr>, n: nat)
    requires |p.segs| <= MAX_SEGS
    ensures WriteOutcome(p, free, n).ok <==> 0 < n <= JUMBO_MAX && n <= Room(p.segs, |free|)
  {
    GrownFits(p.segs, free, n);
  }

  /** Growing first and then writing with nothing more to take comes to the same: the steps other
      threads may come between. */
  lemma WriteInSteps(p: Packet, free: seq<Addr>, n: nat)
    requires 0 < n <= JUMBO_MAX
    ensures var segs, rest := Grown(p.segs, free, n), free[TakenFor(p.segs, free, n)..];
            var o := WriteOutcome(Packet(segs, p.len), [], n);
            WriteOutcome(p, free, n) ==
              if CapSum(segs, |segs|) < n then Written(false, Packet(segs, p.len), rest)
              else Written(true, o.packet, rest + o.pool)
  {
    var segs := Grown(p.segs, free, n);
    assert Grown(segs, [], n) == segs;
    assert forall s: seq<Addr> :: [] + s == s;
  }

  lemma AddrsSplit(segs: seq<Seg>, n: nat)
    requires n <= |segs|
    ensures Addrs(segs) == Addrs(segs[..n]) + Addrs(segs[n..])
  {
  }

  lemma GrownAddrs(segs: seq<Seg>, free: seq<Addr>, need: nat)
    ensures Addrs(Grown(segs, free, need)) + free[TakenFor(segs, free, need)..] == Addrs(segs) + free
  {
    var k := TakenFor(segs, free, need);
    assert Addrs(Grown(segs, free, need)) == Addrs(segs) + free[..k];
  }

  lemma SameTotal(a: seq<Addr>, b: seq<Addr>, c: seq<Addr>, d: seq<Addr>)
    requires a + b == c + d
    ensures multiset(a) + multiset(b) == multiset(c) + multiset(d) && |a| + |b| == |c| + |d|
  {
    assert multiset(a) + multiset(b) == multiset(a + b);
    assert multiset(c + d) == multiset(c) + multiset(d);
    assert |a + b| == |c + d|;
  }

  lemma TrimConserves(segs: seq<Seg>, rest: seq<Addr>, n: nat)
    ensures var sp, u := Spread(segs, n), UsedOf(segs, n);
            multiset(Addrs(sp[..u])) + multiset(rest + Addrs(sp[u..])) == multiset(Addrs(segs)) + multiset(rest)
  {
    var sp, u := Spread(segs, n), UsedOf(segs, n);
    assert Addrs(sp) == Addrs(segs);
    AddrsSplit(sp, u);
    assert multiset(Addrs(sp)) == multiset(Addrs(sp[..u])) + multiset(Addrs(sp[u..]));
    assert multiset(rest + Addrs(sp[u..])) == multiset(rest) + multiset(Addrs(sp[u..]));
  }

  /** Whether it succeeds or not, packet and pool together own what they owned before. */
  lemma WriteConserves(p: Packet, free: seq<Addr>, n: nat)
    ensures var w := WriteOutcome(p, free, n);
            && FramesOf(w.packet) + multiset(w.pool) == FramesOf(p) + multiset(free)
            && |w.packet.segs| + |w.pool| == |p.segs| + |free|
  {
    var w := WriteOutcome(p, free, n);
    var segs, rest := Grown(p.segs, free, n), free[TakenFor(p.segs, free, n)..];
    GrownAddrs(p.segs, free, n);
    SameTotal(Addrs(segs), rest, Addrs(p.segs), free);
    if w.ok { TrimConserves(segs, rest, n); }
  }

  // ---- what the trim keeps -------------------------------------------------------------

  /** No segment without room lies before the end of the data. */
  predicate NoGap(segs: seq<Seg>, total: nat) {
    forall i :: 0 <= i < |segs| && segs[i].cap == 0 ==> CapSum(segs, i) >= total
  }

  /** The trim loop stops at the first empty segment. For arbitrary capacities, zero included, it
      keeps all the data exactly when no zero-capacity segment lies before the end of the data. */
  lemma TrimFaithfulIff(segs: seq<Seg>, total: nat)
    requires total <= CapSum(segs, |segs|)
    ensures LenSum(Spread(segs, total), UsedOf(segs, total)) == total <==> NoGap(segs, total)
  {
    var sp, n := Spread(segs, total), UsedOf(segs, total);
    SpreadLen(segs, total, n);
    forall i | 0 <= i < |segs| && segs[i].cap == 0 ensures n <= i && CapSum(segs, n) <= CapSum(segs, i) {
      assert sp[i].len == 0;
      SumPrefix(segs, n, i);
    }
    if n < |segs| { assert Share(segs, n, total) == 0; }
  }

  lemma GrownGap(segs: seq<Seg>, free: seq<Addr>, need: nat, total: nat)
    ensures NoGap(Grown(segs, free, need), total) <==> NoGap(segs, total)
  {
    var out := Grown(segs, free, need);
    forall i | 0 <= i <= |segs| ensures CapSum(out, i) == CapSum(segs, i) {
      SumSame(out, segs, i);
    }
    forall i | 0 <= i < |segs| ensures out[i] == segs[i] {}
    if NoGap(out, total) {
      forall i | 0 <= i < |segs| && segs[i].cap == 0 ensures CapSum(segs, i) >= total {
        assert out[i].cap == 0;
      }
    }
  }

  /** A successful write keeps all the bytes exactly if the packet had no gap before their end. */
  lemma WriteKeepsAllIff(p: Packet, free: seq<Addr>, n: nat)
    requires WriteOutcome(p, free, n).ok
    ensures var q := WriteOutcome(p, free, n).packet;
            LenSum(q.segs, |q.segs|) == q.len == n <==> NoGap(p.segs, n)
  {
    var segs := Grown(p.segs, free, n);
    GrownGap(p.segs, free, n, n);
    TrimFaithfulIff(segs, n);
    SumSame(Spread(segs, n), Spread(segs, n)[..UsedOf(segs, n)], UsedOf(segs, n));
  }

  /** Without empty descriptors the packet left is proper. */
  lemma WriteProper(p: Packet, free: seq<Addr>, n: nat)
    requires WriteOutcome(p, free, n).ok && Growable(p)
    ensures Proper(WriteOutcome(p, free, n).packet) && WriteOutcome(p, free, n).packet.len == n
  {
    var q, segs := WriteOutcome(p, free, n).packet, Grown(p.segs, free, n);
    WriteKeepsAllIff(p, free, n);
    forall i | 0 <= i < |q.segs| ensures 1 <= q.segs[i].len <= q.segs[i].cap <= FRAME {
      assert q.segs[i] == Spread(segs, n)[i];
    }
  }

  /** If the first descriptor was empty, a successful write gives every frame back and leaves a
      packet with a length and no segments. */
  lemma EmptyFirstGivesAllBack(p: Packet, free: seq<Addr>, n: nat)
    requires WriteOutcome(p, free, n).ok && p.segs != [] && p.segs[0].cap == 0
    ensures WriteOutcome(p, free, n).packet == Packet([], n)
  {
    var segs := Grown(p.segs, free, n);
    assert Spread(segs, n)[0].len == 0;
  }

  // ---- the code -----------------------------------------------------------------------

  /** The first `i` segments hold the first `off` bytes and no foreign frame has changed. */
  ghost predicate Copied(m0: Memory, m: Memory, segs: seq<Seg>, src: seq<byte>, i: nat, off: nat) {
    && i <= |segs| && off == Filled(segs, i, |src|) <= |src|
    && Inside(m, Spread(segs, |src|)) && GatherTo(m, Spread(segs, |src|), i) == src[..off]
    && SameElsewhere(m0, m, Addrs(segs))
  }

  lemma CopiedNext(m0: Memory, m: Memory, segs: seq<Seg>, src: seq<byte>, i: nat, off: nat, f: Frame)
    requires SegsOk(segs, |m|) && i < |segs| && Copied(m0, m, segs, src, i, off)
    requires off + Share(segs, i, |src|) <= |src|
    requires f[..Share(segs, i, |src|)] == src[off..off + Share(segs, i, |src|)]
    ensures Copied(m0, m[segs[i].addr := f], segs, src, i + 1, off + Share(segs, i, |src|))
  {
    var sp, m', n := Spread(segs, |src|), m[segs[i].addr := f], Share(segs, i, |src|);
    assert forall j :: 0 <= j < i ==> sp[j].addr != segs[i].addr;
    GatherFrame(m, sp, m', sp, i);
    PrefixPlus(src, off, n);
    assert Addrs(segs)[i] == segs[i].addr;
  }

  /** A frame whose first bytes have been overwritten. */
  function Overlay(f: Frame, t: seq<byte>): (r: Frame)
    requires |t| <= FRAME
    ensures r[..|t|] == t
  {
    t + f[|t|..]
  }

  method CopyOne(mem: array<Frame>, segs: seq<Seg>, src: seq<byte>, i: nat, off: nat, ghost m0: Memory) returns (n: nat)
    requires SegsOk(segs, mem.Length) && i < |segs| && Copied(m0, mem[..], segs, src, i, off)
    modifies mem
    ensures n == Share(segs, i, |src|) && Copied(m0, mem[..], segs, src, i + 1, off + n)
  {
    var s := segs[i];
    n := if |src| - off > s.cap then s.cap else |src| - off;
    assert n == Share(segs, i, |src|);
    ghost var m := mem[..];
    var f := Overlay(mem[s.addr], src[off..off + n]);
    CopiedNext(m0, m, segs, src, i, off, f);
    mem[s.addr] := f;
    assert mem[..] == m[s.addr := f];
  }

  /** The first `i` segments of the spread, with the bytes in place. */
  ghost predicate Scattering(m0: Memory, m: Memory, segs: seq<Seg>, src: seq<byte>, i: nat, off: nat, out: seq<Seg>) {
    Copied(m0, m, segs, src, i, off) && out == Spread(segs, |src|)[..i]
  }

  lemma ScatteringNext(m0: Memory, m: Memory, segs: seq<Seg>, src: seq<byte>, i: nat, off: nat, out: seq<Seg>)
    requires i < |segs| && out == Spread(segs, |src|)[..i]
    requires Copied(m0, m, segs, src, i + 1, off + Share(segs, i, |src|))
    ensures var n := Share(segs, i, |src|);
            Scattering(m0, m, segs, src, i + 1, off + n, out + [segs[i].(len := n)])
  {
    PrefixNext(Spread(segs, |src|), i);
  }

  lemma ScatteringDone(m0: Memory, m: Memory, segs: seq<Seg>, src: seq<byte>, off: nat, out: seq<Seg>)
    requires Scattering(m0, m, segs, src, |segs|, off, out) && |src| <= CapSum(segs, |segs|)
    ensures out == Spread(segs, |src|) && Inside(m, out) && Gather(m, out) == src && SameElsewhere(m0, m, Addrs(segs))
  {
    assert Spread(segs, |src|)[..|segs|] == Spread(segs, |src|);
    assert src[..|src|] == src;
  }

  /** Copies the bytes into the segments front to back and records how much each one got. */
  method Scatter(mem: array<Frame>, segs: seq<Seg>, src: seq<byte>) returns (out: seq<Seg>)
    requires SegsOk(segs, mem.Length) && |src| <= CapSum(segs, |segs|)
    modifies mem
    ensures out == Spread(segs, |src|)
    ensures Inside(mem[..], out) && Gather(mem[..], out) == src
    ensures SameElsewhere(old(mem[..]), mem[..], Addrs(segs))
  {
    ghost var m0 := mem[..];
    SpreadOk(segs, |src|, mem.Length);
    SegsInside(Spread(segs, |src|), mem[..]);
    out := [];
    var off: nat := 0;
    for i := 0 to |segs|
      invariant Scattering(m0, mem[..], segs, src, i, off, out)
    {
      var n := CopyOne(mem, segs, src, i, off, m0);
      ScatteringNext(m0, mem[..], segs, src, i, off, out);
      out := out + [segs[i].(len := n)];
      off := off + n;
    }
    ScatteringDone(m0, mem[..], segs, src, off, out);
  }

  /** Gives frames back one by one. With room in the pool none is dropped. */
  method FreeFrames(pool: Ring<Addr>, addrs: seq<Addr>)
    requires pool.Valid() && |pool.Contents()| + |addrs| <= pool.cap
    modifies pool`head, pool`pushes, pool.buf
    ensures pool.Valid() && pool.Contents() == old(pool.Contents()) + addrs
  {
    for i := 0 to |addrs|
      invariant pool.Valid() && pool.Contents() == old(pool.Contents()) + addrs[..i]
    {
      var ok := pool.TryPush(addrs[i]);
      PrefixNext(addrs, i);
    }
    assert addrs[..|addrs|] == addrs;
  }

  /** The frames the code frees for a packet: a packet with a length and no segments counts as one
      segment at address 0. */
  function Freed(p: Packet): (a: seq<Addr>)
    ensures |a| <= |p.segs| + 1
  {
    if p.segs == [] && p.len > 0 then [0] else Addrs(p.segs)
  }

  /** ne_packet_free: the packet is zeroed, so freeing it again frees nothing. */
  method PacketFree(pool: Ring<Addr>, p: Packet) returns (q: Packet)
    requires pool.Valid() && |pool.Contents()| + |Freed(p)| <= pool.cap
    modifies pool`head, pool`pushes, pool.buf
    ensures pool.Valid() && q == NO_PACKET
    ensures pool.Contents() == old(pool.Contents()) + Freed(p)
  {
    FreeFrames(pool, Freed(p));
    q := NO_PACKET;
  }

  ghost predicate Distinct(a: seq<Addr>) { forall i, j :: 0 <= i < j < |a| ==> a[i] != a[j] }

  /** The packet and the pool own different frames, all of them proper frames. */
  ghost predicate Disjoint(p: Packet, free: seq<Addr>, frames: nat) {
    && SegsOk(p.segs, frames)
    && Distinct(Addrs(p.segs) + free)
    && forall i :: 0 <= i < |free| ==> free[i] < frames
  }

  /** Growing a packet from the pool keeps its segments in order. */
  lemma GrownOk(p: Packet, free: seq<Addr>, need: nat, frames: nat)
    requires Disjoint(p, free, frames)
    ensures SegsOk(Grown(p.segs, free, need), frames)
  {
    var out, all := Grown(p.segs, free, need), Addrs(p.segs) + free;
    forall i | 0 <= i < |out| ensures out[i].addr == all[i] && all[i] < frames {
      if i >= |p.segs| { assert all[i] == free[i - |p.segs|]; }
    }
  }

  /** And so does the whole write. */
  lemma WriteOk(p: Packet, free: seq<Addr>, n: nat, frames: nat)
    requires Disjoint(p, free, frames)
    ensures SegsOk(WriteOutcome(p, free, n).packet.segs, frames)
  {
    var w, segs := WriteOutcome(p, free, n), Grown(p.segs, free, n);
    GrownOk(p, free, n, frames);
    SpreadOk(segs, n, frames);
    if w.ok { assert w.packet.segs == Spread(segs, n)[..UsedOf(segs, n)]; }
  }

  lemma {:induction false} GatherPrefix(m: Memory, segs: seq<Seg>, n: nat, k: nat)
    requires Inside(m, segs) && n <= k <= |segs|
    ensures GatherTo(m, segs, n) <= GatherTo(m, segs, k)
  {
    if n < k { GatherPrefix(m, segs, n, k - 1); }
  }

  /** The bytes left in the used segments are the first ones. */
  lemma UsedPrefix(m: Memory, sp: seq<Seg>, u: nat, src: seq<byte>)
    requires u <= |sp| && Inside(m, sp) && Gather(m, sp) == src
    ensures Inside(m, sp[..u]) && LenSum(sp[..u], u) <= |src| && Gather(m, sp[..u]) == src[..LenSum(sp[..u], u)]
  {
    GatherPrefix(m, sp, u, |sp|);
    GatherFrame(m, sp, m, sp[..u], u);
  }

  /** The copying and trimming half of ne_packet_write. */
  method Refit(pool: Ring<Addr>, mem: array<Frame>, segs: seq<Seg>, src: seq<byte>) returns (out: seq<Seg>)
    requires pool.Valid() && SegsOk(segs, mem.Length) && |src| <= CapSum(segs, |segs|)
    requires |pool.Contents()| + |segs| <= pool.cap && mem as object != pool.buf
    modifies pool`head, pool`pushes, pool.buf, mem
    ensures pool.Valid() && out == Spread(segs, |src|)[..UsedOf(segs, |src|)]
    ensures pool.Contents() == old(pool.Contents()) + Addrs(Spread(segs, |src|)[UsedOf(segs, |src|)..])
    ensures Inside(mem[..], out) && LenSum(out, |out|) <= |src| && Gather(mem[..], out) == src[..LenSum(out, |out|)]
    ensures SameElsewhere(old(mem[..]), mem[..], Addrs(segs))
  {
    var sp := Scatter(mem, segs, src);
    ghost var m := mem[..];
    var u := Used(sp, 0);
    out := sp[..u];
    UsedPrefix(m, sp, u, src);
    FreeFrames(pool, Addrs(sp[u..]));
    assert mem[..] == m;
  }

  /** ne_packet_write on a packet with its segment count: segments and pool are exactly those of
      `WriteOutcome`, the segments hold the leading bytes, and frames owned by others are
      untouched. */
  method PacketWrite(pool: Ring<Addr>, mem: array<Frame>, p: Packet, src: seq<byte>)
    returns (ok: bool, q: Packet)
    requires pool.Valid() && Disjoint(p, pool.Contents(), mem.Length)
    requires |pool.Contents()| + |p.segs| <= pool.cap && mem as object != pool.buf
    modifies pool, pool.buf, mem
    ensures pool.Valid()
    ensures Written(ok, q, pool.Contents()) == WriteOutcome(p, old(pool.Contents()), |src|)
    ensures ok ==> Inside(mem[..], q.segs) && LenSum(q.segs, |q.segs|) <= |src|
    ensures ok ==> Gather(mem[..], q.segs) == src[..LenSum(q.segs, |q.segs|)]
    ensures SameElsewhere(old(mem[..]), mem[..], Addrs(p.segs) + old(pool.Contents()))
  {
    if |src| == 0 || |src| > JUMBO_MAX { return false, p; }
    ghost var free := pool.Contents();
    var segs := Grow(pool, p.segs, |src|);
    ghost var rest := pool.Contents();
    GrownAddrs(p.segs, free, |src|);
    GrownOk(p, free, |src|, mem.Length);
    if CapSum(segs, |segs|) < |src| { return false, Packet(segs, p.len); }
    var out := Refit(pool, mem, segs, src);
    ElsewhereWider(old(mem[..]), mem[..], Addrs(segs), rest, Addrs(p.segs) + free);
    return true, Packet(out, |src|);
  }

  /** The packet a successful write leaves is bare exactly if its first segment had no room. */
  lemma NotBare(p: Packet, free: seq<Addr>, n: nat)
    requires WriteOutcome(p, free, n).ok
    ensures Bare(WriteOutcome(p, free, n).packet) <==> p.segs != [] && p.segs[0].cap == 0
    ensures p.segs != [] && p.segs[0].cap == 0 ==> WriteOutcome(p, free, n).packet.segs == [] && !NoGap(p.segs, n)
  {
    var segs := Grown(p.segs, free, n);
    var sp, u := Spread(segs, n), UsedOf(segs, n);
    if p.segs != [] && p.segs[0].cap == 0 {
      EmptyFirstGivesAllBack(p, free, n);
    } else {
      if p.segs == [] { assert segs[0].cap == FRAME; }
      assert sp[0].len > 0;
    }
  }

  /** Scatter round trip. Whatever ne_packet_write accepts, ne_packet_linearize gives back if the
      packet had no gap; behind a gap the bytes are refused; and if the first descriptor was empty,
      bytes of frame 0 and the following ones come back, which the packet does not own. */
  method WriteThenLinearize(pool: Ring<Addr>, mem: array<Frame>, p: Packet, src: seq<byte>)
    returns (r: Option<seq<byte>>, q: Packet)
    requires pool.Valid() && Disjoint(p, pool.Contents(), mem.Length) && mem.Length >= 3
    requires |pool.Contents()| + |p.segs| <= pool.cap && mem as object != pool.buf
    modifies pool, pool.buf, mem
    ensures var fits := 0 < |src| <= JUMBO_MAX && |src| <= Room(p.segs, old(|pool.Contents()|));
            r == if !fits then None
                 else if NoGap(p.segs, |src|) then Some(src)
                 else if p.segs[0].cap == 0 then Some(ReadFrom(mem[..], 0, |src|))
                 else None
    ensures pool.Valid() && pool.Contents() == WriteOutcome(p, old(pool.Contents()), |src|).pool
  {
    ghost var free := pool.Contents();
    var ok;
    ok, q := PacketWrite(pool, mem, p, src);
    WriteFits(p, free, |src|);
    if !ok { return None, q; }
    WriteOk(p, free, |src|, mem.Length);
    WriteKeepsAllIff(p, free, |src|);
    NotBare(p, free, |src|);
    r := Linearize(mem, q, JUMBO_MAX);
    if NoGap(p.segs, |src|) { assert src[..|src|] == src; }
  }
}
