/** The sticky flow table: lock-free lookups, locked inserts, no eviction. */
module FlowTable {
  import opened Bytes
  import opened RingIndex

  const WAYS := 8

  // ---- canonical keys ------------------------------------------------------------

  datatype Tuple = Tuple(src: u32, dst: u32, srcPort: u16, dstPort: u16, proto: byte)
  datatype Key = Key(ipA: u32, ipB: u32, portA: u16, portB: u16, proto: byte)

  /** Only TCP and UDP have keys. The direction says whether the endpoints were swapped. */
  function KeyOf(t: Tuple): Option<(Key, bool)> {
    if t.proto != 6 && t.proto != 17 then None
    else if t.src > t.dst || (t.src == t.dst && t.srcPort > t.dstPort)
    then Some((Key(t.dst, t.src, t.dstPort, t.srcPort, t.proto), true))
    else Some((Key(t.src, t.dst, t.srcPort, t.dstPort, t.proto), false))
  }

  function Reverse(t: Tuple): Tuple { Tuple(t.dst, t.src, t.dstPort, t.srcPort, t.proto) }

  /** Both directions of a flow share one key and differ in direction; key and direction together
      give the five-tuple back. */
  lemma KeyIsCanonical(t: Tuple, u: Tuple)
    ensures KeyOf(t).Some? ==>
              && KeyOf(Reverse(t)).Some? && KeyOf(Reverse(t)).value.0 == KeyOf(t).value.0
              && (t != Reverse(t) ==> KeyOf(Reverse(t)).value.1 != KeyOf(t).value.1)
    ensures KeyOf(t).Some? && KeyOf(t) == KeyOf(u) ==> t == u
    ensures KeyOf(t).Some? && KeyOf(u).Some? && KeyOf(t).value.0 == KeyOf(u).value.0 ==> u == t || u == Reverse(t)
  {
  }

  // ---- placement -------------------------------------------------------------------

  /** dp_route_least_loaded's loop after `off` of `n` probes starting at `start`. */
  function LeastFrom(counts: seq<nat>, n: nat, start: nat, off: nat): (best: nat)
    requires 0 < n <= |counts| && off <= n
    ensures best < n
  {
    if off == 0 then 0
    else
      var b := LeastFrom(counts, n, start, off - 1);
      var idx := Slot(start + off - 1, n);
      if off == 1 || counts[idx] < counts[b] then idx else b
  }

  lemma {:induction false} LeastSeen(counts: seq<nat>, n: nat, start: nat, off: nat, k: nat)
    requires 0 < n <= |counts| && k < off <= n
    ensures counts[LeastFrom(counts, n, start, off)] <= counts[Slot(start + k, n)]
  {
    if k < off - 1 { LeastSeen(counts, n, start, off - 1, k); }
  }

  /** Stepping by less than a lap either advances the slot or wraps it once. */
  lemma {:induction false} SlotAdvance(start: nat, k: nat, n: nat)
    requires k < n
    ensures Slot(start + k, n) == if Slot(start, n) + k < n then Slot(start, n) + k else Slot(start, n) + k - n
  {
    if start >= n { SlotAdvance(start - n, k, n); }
  }

  /** The number of probes after which a scan from `start` reaches slot `i`. */
  function ProbeOf(start: nat, n: nat, i: nat): (k: nat)
    requires i < n
    ensures k < n
  {
    if i >= Slot(start, n) then i - Slot(start, n) else i + n - Slot(start, n)
  }

  function LeastLoaded(counts: seq<nat>, n: nat, start: nat): (best: nat)
    requires 0 < n <= |counts|
    ensures best < n
  {
    LeastFrom(counts, n, start, n)
  }

  /** Wherever the cursor stands, the slot chosen is one of the least loaded. */
  lemma LeastLoadedIsLeast(counts: seq<nat>, n: nat, start: nat)
    requires 0 < n <= |counts|
    ensures forall i :: 0 <= i < n ==> counts[LeastLoaded(counts, n, start)] <= counts[i]
  {
    forall i | 0 <= i < n ensures counts[LeastLoaded(counts, n, start)] <= counts[i] {
      var k := ProbeOf(start, n, i);
      SlotAdvance(start, k, n);
      LeastSeen(counts, n, start, n, k);
    }
  }

  lemma {:induction false} LeastProbed(counts: seq<nat>, n: nat, start: nat, off: nat)
    requires 0 < off <= n <= |counts|
    ensures ProbeOf(start, n, LeastFrom(counts, n, start, off)) < off
  {
    SlotAdvance(start, off - 1, n);
    if off > 1 { LeastProbed(counts, n, start, off - 1); }
  }

  lemma {:induction false} LeastIsFirst(counts: seq<nat>, n: nat, start: nat, off: nat, k: nat)
    requires k < off <= n <= |counts| && k < ProbeOf(start, n, LeastFrom(counts, n, start, off))
    ensures counts[LeastFrom(counts, n, start, off)] < counts[Slot(start + k, n)]
  {
    LeastProbed(counts, n, start, off);
    LeastSeen(counts, n, start, off - 1, k);
    if LeastFrom(counts, n, start, off) == LeastFrom(counts, n, start, off - 1) {
      LeastProbed(counts, n, start, off - 1);
      LeastIsFirst(counts, n, start, off - 1, k);
    }
  }

  /** Ties go round robin: every slot between the cursor and the choice is strictly busier. */
  lemma TiesGoRoundRobin(counts: seq<nat>, n: nat, start: nat, i: nat)
    requires 0 < n <= |counts| && i < n
    ensures ProbeOf(start, n, i) < ProbeOf(start, n, LeastLoaded(counts, n, start)) ==>
              counts[LeastLoaded(counts, n, start)] < counts[i]
  {
    var k := ProbeOf(start, n, i);
    SlotAdvance(start, k, n);
    if k < ProbeOf(start, n, LeastLoaded(counts, n, start)) { LeastIsFirst(counts, n, start, n, k); }
  }

  /** The loop as written: start at the cursor, keep the first strictly smaller load. Loads stay
      below 2^64 - 1, the loop's initial best, and the cursor below 2^32 - n: FlowSteps proves both
      of every reachable state. */
  method PickLeastLoaded(counts: seq<nat>, n: nat, start: u32) returns (best: nat)
    requires 0 < n <= |counts| && start + n < WRAP
    requires forall i :: 0 <= i < n ==> counts[i] < 0xFFFF_FFFF_FFFF_FFFF
    ensures best == LeastLoaded(counts, n, start)
    ensures best < n && forall i :: 0 <= i < n ==> counts[best] <= counts[i]
  {
    var bestCount := 0xFFFF_FFFF_FFFF_FFFF;
    best := 0;
    for off := 0 to n
      invariant best == LeastFrom(counts, n, start, off)
      invariant off == 0 ==> bestCount == 0xFFFF_FFFF_FFFF_FFFF
      invariant off > 0 ==> bestCount == counts[best]
    {
      SlotIsMod(start + off, n);
      var idx := (start + off) % WRAP % n;
      if counts[idx] < bestCount {
        bestCount, best := counts[idx], idx;
      }
    }
    LeastLoadedIsLeast(counts, n, start);
  }
}
