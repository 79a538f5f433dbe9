/** The worker-local fallback for sequence numbers of flows whose route set is saturated: four ways
    per set, replaced least recently used first. */
module SeqLru {
  import opened Bytes
  import opened RingIndex
  import opened FlowTable

  const LRU_WAYS := 4

  // ---- reference: a list in order of use, most recent last ----------------------------------

  datatype Rec = Rec(key: Key, seq0: u32, seq1: u32)

  function NextOf(r: Rec, dir: bool): u32 { if dir then r.seq1 else r.seq0 }

  function Advance(r: Rec, dir: bool): Rec {
    if dir then r.(seq1 := Bump(r.seq1, 1)) else r.(seq0 := Bump(r.seq0, 1))
  }

  function Fresh(k: Key): Rec { Rec(k, 0, 0) }

  predicate DistinctKeys(q: seq<Rec>) { forall i, j :: 0 <= i < j < |q| ==> q[i].key != q[j].key }

  /** Index of the flow's record, or |q|. */
  function IndexOf(q: seq<Rec>, k: Key, n: nat): (i: nat)
    requires n <= |q|
    ensures i == |q| || (i < n && q[i].key == k)
    ensures i == |q| ==> forall j :: 0 <= j < n ==> q[j].key != k
  {
    if n == 0 then |q| else if q[n - 1].key == k then n - 1 else IndexOf(q, k, n - 1)
  }

  /** Serve one request: a known flow's record is advanced and becomes most recent; a new flow is
      appended, in place of the least recently used record only when all ways are taken. */
  function Serve(q: seq<Rec>, k: Key, dir: bool): (seq<Rec>, u32) {
    var i := IndexOf(q, k, |q|);
    if i < |q| then (q[..i] + q[i + 1..] + [Advance(q[i], dir)], NextOf(q[i], dir))
    else ((if |q| < LRU_WAYS then q else q[1..]) + [Advance(Fresh(k), dir)], 0)
  }

  function ServeAll(q: seq<Rec>, reqs: seq<(Key, bool)>): seq<Rec>
    decreases |reqs|
  {
    if reqs == [] then q else ServeAll(Serve(q, reqs[0].0, reqs[0].1).0, reqs[1..])
  }

  lemma ServeKeepsList(q: seq<Rec>, k: Key, dir: bool)
    requires DistinctKeys(q) && |q| <= LRU_WAYS
    ensures DistinctKeys(Serve(q, k, dir).0) && 0 < |Serve(q, k, dir).0| <= LRU_WAYS
  {
  }

  // ---- the numbering a flow can count on --------------------------------------------------

  function Keys(q: seq<Rec>): set<Key> { set r | r in q :: r.key }

  function Asked(reqs: seq<(Key, bool)>): set<Key> { set r | r in reqs :: r.0 }

  lemma {:induction false} KeyCount(q: seq<Rec>)
    requires DistinctKeys(q)
    ensures |Keys(q)| == |q|
  {
    if q != [] {
      var front := q[..|q| - 1];
      KeyCount(front);
      assert q == front + [q[|q| - 1]];
      assert Keys(q) == Keys(front) + {q[|q| - 1].key};
    }
  }

  lemma KeysConcat(a: seq<Rec>, b: seq<Rec>)
    ensures Keys(a + b) == Keys(a) + Keys(b)
  {
  }

  lemma HitBefore(q: seq<Rec>, i: nat, j: nat, r: Rec)
    requires j < i < |q|
    ensures var q' := q[..j] + q[j + 1..] + [r];
            q'[i - 1] == q[i] && Keys(q'[i..]) == Keys(q[i + 1..]) + {r.key}
  {
    assert (q[..j] + q[j + 1..] + [r])[i..] == q[i + 1..] + [r];
    KeysConcat(q[i + 1..], [r]);
    assert Keys([r]) == {r.key};
  }

  lemma HitAfter(q: seq<Rec>, i: nat, j: nat, r: Rec)
    requires i < j < |q| && q[j].key == r.key
    ensures var q' := q[..j] + q[j + 1..] + [r];
            q'[i] == q[i] && Keys(q'[i + 1..]) == Keys(q[i + 1..]) + {r.key}
  {
    var left, right := q[i + 1..j], q[j + 1..];
    assert (q[..j] + q[j + 1..] + [r])[i + 1..] == left + right + [r];
    assert q[i + 1..] == left + [q[j]] + right;
    KeysConcat(left + right, [r]);
    KeysConcat(left, right);
    KeysConcat(left + [q[j]], right);
    KeysConcat(left, [q[j]]);
    assert Keys([q[j]]) == {r.key} && Keys([r]) == {r.key};
  }

  lemma HitShifts(q: seq<Rec>, i: nat, j: nat, x: Key, dir: bool) returns (i': nat)
    requires DistinctKeys(q) && i < |q| && j < |q| && i != j && q[j].key == x
    ensures var q' := q[..j] + q[j + 1..] + [Advance(q[j], dir)];
            i' < |q'| && q'[i'] == q[i] && Keys(q'[i' + 1..]) == Keys(q[i + 1..]) + {x}
  {
    if j < i {
      i' := i - 1;
      HitBefore(q, i, j, Advance(q[j], dir));
    } else {
      i' := i;
      HitAfter(q, i, j, Advance(q[j], dir));
    }
  }

  lemma MissShifts(q: seq<Rec>, i: nat, x: Key, dir: bool) returns (i': nat)
    requires i < |q| && (i > 0 || |q| < LRU_WAYS)
    ensures var q' := (if |q| < LRU_WAYS then q else q[1..]) + [Advance(Fresh(x), dir)];
            i' < |q'| && q'[i'] == q[i] && Keys(q'[i' + 1..]) == Keys(q[i + 1..]) + {x}
  {
    var tail := [Advance(Fresh(x), dir)];
    assert Keys(tail) == {x};
    KeysConcat(q[i + 1..], tail);
    i' := if |q| < LRU_WAYS then i else i - 1;
    assert ((if |q| < LRU_WAYS then q else q[1..]) + tail)[i' + 1..] == q[i + 1..] + tail;
  }

  /** Where another flow's request leaves the record at index `i`. */
  lemma Shifted(q: seq<Rec>, i: nat, x: Key, dir: bool) returns (i': nat)
    requires DistinctKeys(q) && i < |q| <= LRU_WAYS && x != q[i].key
    requires x in Keys(q) || i > 0 || |q| < LRU_WAYS
    ensures var q' := Serve(q, x, dir).0;
            i' < |q'| && q'[i'] == q[i] && Keys(q'[i' + 1..]) == Keys(q[i + 1..]) + {x}
  {
    var j := IndexOf(q, x, |q|);
    if j < |q| { i' := HitShifts(q, i, j, x, dir); } else { i' := MissShifts(q, i, x, dir); }
  }

  /** A new flow evicts the record at index 0 only after three more recent ones. */
  lemma NotYetEvicted(q: seq<Rec>, i: nat, x: Key, bound: set<Key>)
    requires DistinctKeys(q) && i < |q| && x !in Keys(q)
    requires Keys(q[i + 1..]) + {x} <= bound && |bound| < LRU_WAYS
    ensures i > 0 || |q| < LRU_WAYS
  {
    KeyCount(q[i + 1..]);
    assert x !in Keys(q[i + 1..]);
    SubsetCount(Keys(q[i + 1..]) + {x}, bound);
  }

  /** A record outlives any requests by other flows as long as the flows used after it number at
      most three. */
  lemma {:induction false} Retained(q: seq<Rec>, i: nat, reqs: seq<(Key, bool)>, bound: set<Key>)
    requires DistinctKeys(q) && i < |q| <= LRU_WAYS && |bound| < LRU_WAYS
    requires q[i].key !in bound && Keys(q[i + 1..]) <= bound && forall r :: r in reqs ==> r.0 in bound
    ensures q[i] in ServeAll(q, reqs)
    decreases |reqs|
  {
    if reqs != [] {
      var x, dir := reqs[0].0, reqs[0].1;
      assert reqs[0] in reqs;
      if x !in Keys(q) { NotYetEvicted(q, i, x, bound); }
      var i' := Shifted(q, i, x, dir);
      ServeKeepsList(q, x, dir);
      Retained(Serve(q, x, dir).0, i', reqs[1..], bound);
    }
  }

  lemma {:induction false} ServeAllKeepsList(q: seq<Rec>, reqs: seq<(Key, bool)>)
    requires DistinctKeys(q) && |q| <= LRU_WAYS
    ensures DistinctKeys(ServeAll(q, reqs)) && |ServeAll(q, reqs)| <= LRU_WAYS
    decreases |reqs|
  {
    if reqs != [] {
      ServeKeepsList(q, reqs[0].0, reqs[0].1);
      ServeAllKeepsList(Serve(q, reqs[0].0, reqs[0].1).0, reqs[1..]);
    }
  }

  /** Of the list: while at most three other flows are active between two of its requests, a flow's
      numbers stay consecutive. */
  lemma ListStaysConsecutive(q: seq<Rec>, k: Key, dir: bool, others: seq<(Key, bool)>)
    requires DistinctKeys(q) && |q| <= LRU_WAYS
    requires k !in Asked(others) && |Asked(others)| < LRU_WAYS
    ensures var (q', v) := Serve(q, k, dir);
            Serve(ServeAll(q', others), k, dir).1 == Bump(v, 1)
  {
    var (q', v) := Serve(q, k, dir);
    ServeKeepsList(q, k, dir);
    var i: nat := |q'| - 1;
    assert q'[i].key == k && NextOf(q'[i], dir) == Bump(v, 1);
    assert Keys(q'[i + 1..]) == {};
    Retained(q', i, others, Asked(others));
    ServeAllKeepsList(q', others);
    var z := ServeAll(q', others);
    var j := IndexOf(z, k, |z|);
    var m :| 0 <= m < |z| && z[m] == q'[i];
    assert j == m;
  }

  // ---- the stamped ways -----------------------------------------------------------------------

  datatype Way = Way(valid: bool, stamp: u32, rec: Rec)

  /** `order` lists taken ways by increasing stamp, none above `stamp`. */
  predicate Ascending(ways: seq<Way>, order: seq<nat>, stamp: u32) {
    && (forall i :: 0 <= i < |order| ==> order[i] < |ways| && ways[order[i]].valid && 0 < ways[order[i]].stamp <= stamp)
    && (forall i, j :: 0 <= i < j < |order| ==> ways[order[i]].stamp < ways[order[j]].stamp)
  }

  /** Every taken way is listed; free ways keep stamp 0. */
  predicate Listed(ways: seq<Way>, order: seq<nat>) {
    forall w :: 0 <= w < |ways| ==> if ways[w].valid then w in order else ways[w].stamp == 0
  }

  function TakenWays(ways: seq<Way>): nat
    requires |ways| == LRU_WAYS
  {
    One(ways[0].valid) + One(ways[1].valid) + One(ways[2].valid) + One(ways[3].valid)
  }

  predicate Ordered(ways: seq<Way>, order: seq<nat>, stamp: u32) {
    |ways| == LRU_WAYS && Ascending(ways, order, stamp) && Listed(ways, order) && |order| == TakenWays(ways)
  }

  predicate Indexes(ways: seq<Way>, order: seq<nat>) { forall i :: 0 <= i < |order| ==> order[i] < |ways| }

  /** The records, least recently used first. */
  function Recs(ways: seq<Way>, order: seq<nat>): (q: seq<Rec>)
    requires Indexes(ways, order)
    ensures |q| == |order| && forall i :: 0 <= i < |q| ==> q[i] == ways[order[i]].rec
  {
    seq(|order|, i requires 0 <= i < |order| => ways[order[i]].rec)
  }

  /** Drop the `i`-th, if there is one, and append `x`. */
  function Requeue<T>(s: seq<T>, i: nat, x: T): seq<T>
    requires i <= |s|
  {
    s[..i] + (if i < |s| then s[i + 1..] else []) + [x]
  }

  lemma HitServes(q: seq<Rec>, i: nat, k: Key, dir: bool)
    requires DistinctKeys(q) && i < |q| && q[i].key == k
    ensures Serve(q, k, dir) == (Requeue(q, i, Advance(q[i], dir)), NextOf(q[i], dir))
  {
  }

  lemma MissServes(q: seq<Rec>, i: nat, k: Key, dir: bool)
    requires IndexOf(q, k, |q|) == |q| <= LRU_WAYS && i == if |q| < LRU_WAYS then |q| else 0
    ensures Serve(q, k, dir) == (Requeue(q, i, Advance(Fresh(k), dir)), 0)
  {
    assert Requeue(q, i, Advance(Fresh(k), dir)) == (if |q| < LRU_WAYS then q else q[1..]) + [Advance(Fresh(k), dir)];
  }

  /** The way is listed at index `i`, or it is free and `i` is the end of the order. */
  predicate Place(ways: seq<Way>, order: seq<nat>, i: nat, w: nat) {
    w < |ways| && if i < |order| then order[i] == w else i == |order| && !ways[w].valid
  }

  lemma RequeueAscends(ways: seq<Way>, order: seq<nat>, stamp: u32, i: nat, w: nat, r: Rec)
    requires Ascending(ways, order, stamp) && Place(ways, order, i, w) && stamp + 1 < WRAP
    ensures Ascending(ways[w := Way(true, stamp + 1, r)], Requeue(order, i, w), stamp + 1)
  {
  }

  lemma RequeueLists(ways: seq<Way>, order: seq<nat>, stamp: u32, i: nat, w: nat, r: Rec)
    requires Listed(ways, order) && Place(ways, order, i, w) && stamp + 1 < WRAP
    ensures Listed(ways[w := Way(true, stamp + 1, r)], Requeue(order, i, w))
  {
  }

  lemma RequeueRecs(ways: seq<Way>, order: seq<nat>, stamp: u32, i: nat, w: nat, x: Way)
    requires Ascending(ways, order, stamp) && Place(ways, order, i, w)
    ensures Indexes(ways[w := x], Requeue(order, i, w))
    ensures Recs(ways[w := x], Requeue(order, i, w)) == Requeue(Recs(ways, order), i, x.rec)
  {
  }

  lemma RequeueCounts(ways: seq<Way>, order: seq<nat>, stamp: u32, i: nat, w: nat, x: Way)
    requires Ordered(ways, order, stamp) && Place(ways, order, i, w) && x.valid
    ensures |Requeue(order, i, w)| == TakenWays(ways[w := x])
  {
  }

  /** Restamping the way at index `i` of the order, or a free way at its end, keeps it ordered and
      makes its record the most recent. */
  lemma RequeueKeepsOrder(ways: seq<Way>, order: seq<nat>, stamp: u32, i: nat, w: nat, r: Rec)
    requires Ordered(ways, order, stamp) && stamp + 1 < WRAP && Place(ways, order, i, w)
    ensures var ways', order' := ways[w := Way(true, stamp + 1, r)], Requeue(order, i, w);
            && Ordered(ways', order', stamp + 1)
            && Recs(ways', order') == Requeue(Recs(ways, order), i, r)
  {
    RequeueAscends(ways, order, stamp, i, w, r);
    RequeueLists(ways, order, stamp, i, w, r);
    RequeueCounts(ways, order, stamp, i, w, Way(true, stamp + 1, r));
    RequeueRecs(ways, order, stamp, i, w, Way(true, stamp + 1, r));
  }

  /** The way to replace after looking at `n` of them: the last free one, or the smallest stamp. */
  function Victim(ways: seq<Way>, n: nat): (v: nat)
    requires 0 < |ways| && n <= |ways|
    ensures v < |ways| && (n == 0 ==> v == 0) && (n > 0 ==> v < n)
  {
    if n == 0 then 0
    else
      var v := Victim(ways, n - 1);
      if !ways[n - 1].valid || ways[n - 1].stamp < ways[v].stamp then n - 1 else v
  }

  lemma {:induction false} VictimSmallest(ways: seq<Way>, n: nat)
    requires 0 < |ways| && n <= |ways| && forall w :: 0 <= w < |ways| && !ways[w].valid ==> ways[w].stamp == 0
    ensures forall w :: 0 <= w < n ==> ways[Victim(ways, n)].stamp <= ways[w].stamp
  {
    if n > 0 { VictimSmallest(ways, n - 1); }
  }

  lemma FreeMeansRoom(ways: seq<Way>, w: nat)
    requires |ways| == LRU_WAYS && w < LRU_WAYS && !ways[w].valid
    ensures TakenWays(ways) < LRU_WAYS
  {
  }

  /** A free way is replaced while there is one; otherwise the least recently used way is. */
  lemma VictimIsOldest(ways: seq<Way>, order: seq<nat>, stamp: u32) returns (i: nat)
    requires Ordered(ways, order, stamp)
    ensures Place(ways, order, i, Victim(ways, |ways|))
    ensures |order| <= LRU_WAYS && i == if |order| < LRU_WAYS then |order| else 0
  {
    var w := Victim(ways, |ways|);
    VictimSmallest(ways, |ways|);
    if !ways[w].valid {
      i := |order|;
      FreeMeansRoom(ways, w);
    } else {
      i := 0;
      assert forall v :: 0 <= v < LRU_WAYS ==> ways[v].stamp > 0;
      assert forall v :: 0 <= v < LRU_WAYS ==> ways[v].valid;
      assert ways[w].stamp <= ways[order[0]].stamp;
      var m :| 0 <= m < |order| && order[m] == w;
    }
  }

  /** The first way holding `k` among the first `n`, or 4. */
  function Hit(ways: seq<Way>, k: Key, n: nat): (h: nat)
    requires |ways| == LRU_WAYS && n <= LRU_WAYS
    ensures h < n ==> ways[h].valid && ways[h].rec.key == k
    ensures h < n || (h == LRU_WAYS && forall v :: 0 <= v < n ==> !(ways[v].valid && ways[v].rec.key == k))
  {
    if n == 0 then LRU_WAYS
    else
      var h := Hit(ways, k, n - 1);
      if h < n - 1 then h else if ways[n - 1].valid && ways[n - 1].rec.key == k then n - 1 else LRU_WAYS
  }

  /** One call on the ways: the way and the record it starts from. */
  function Chosen(ways: seq<Way>, k: Key): (r: (nat, Rec))
    requires |ways| == LRU_WAYS
    ensures r.0 < LRU_WAYS
  {
    var h := Hit(ways, k, |ways|);
    if h < LRU_WAYS then (h, ways[h].rec) else (Victim(ways, |ways|), Fresh(k))
  }

  /** One call on the ways: the new ways and the number served. `stamp` is the worker's clock before
      the call; its sets share it. */
  function NextWays(ways: seq<Way>, stamp: u32, k: Key, dir: bool): (r: (seq<Way>, u32))
    requires |ways| == LRU_WAYS
    ensures |r.0| == LRU_WAYS
  {
    var (w, rec) := Chosen(ways, k);
    (ways[w := Way(true, Bump(stamp, 1), Advance(rec, dir))], NextOf(rec, dir))
  }

  /** The ways stand for the list `q`, by way of the order of use. */
  ghost predicate Represents(ways: seq<Way>, order: seq<nat>, stamp: u32, q: seq<Rec>) {
    Ordered(ways, order, stamp) && q == Recs(ways, order) && DistinctKeys(q)
  }

  /** The shared clock may run on between two calls. */
  lemma RepresentsLater(ways: seq<Way>, order: seq<nat>, stamp: u32, later: u32, q: seq<Rec>)
    requires Represents(ways, order, stamp, q) && stamp <= later
    ensures Represents(ways, order, later, q)
  {
  }

  /** Where the chosen way stands in the order of use, and what the list then serves. */
  lemma ChosenServes(ways: seq<Way>, order: seq<nat>, stamp: u32, q: seq<Rec>, k: Key, dir: bool) returns (i: nat)
    requires Represents(ways, order, stamp, q)
    ensures var (w, rec) := Chosen(ways, k);
            && Place(ways, order, i, w)
            && Serve(q, k, dir) == (Requeue(q, i, Advance(rec, dir)), NextOf(rec, dir))
  {
    var h := Hit(ways, k, |ways|);
    if h < LRU_WAYS {
      i :| 0 <= i < |order| && order[i] == h;
      HitServes(q, i, k, dir);
    } else {
      i := VictimIsOldest(ways, order, stamp);
      forall j | 0 <= j < |q| ensures q[j].key != k {
        assert ways[order[j]].valid;
      }
      MissServes(q, i, k, dir);
    }
  }

  lemma KeepsDistinct(ways: seq<Way>, order: seq<nat>, stamp: u32, q: seq<Rec>, k: Key, dir: bool)
    requires Represents(ways, order, stamp, q)
    ensures DistinctKeys(Serve(q, k, dir).0)
  {
    var i := VictimIsOldest(ways, order, stamp);
    ServeKeepsList(q, k, dir);
  }

  /** The number served is always the list's; until the stamp wraps the ways go on as the list. */
  lemma NextRefines(ways: seq<Way>, order: seq<nat>, stamp: u32, q: seq<Rec>, k: Key, dir: bool)
    returns (order': seq<nat>)
    requires Represents(ways, order, stamp, q)
    ensures NextWays(ways, stamp, k, dir).1 == Serve(q, k, dir).1
    ensures stamp + 1 < WRAP ==> Represents(NextWays(ways, stamp, k, dir).0, order', stamp + 1, Serve(q, k, dir).0)
  {
    var i := ChosenServes(ways, order, stamp, q, k, dir);
    var (w, rec) := Chosen(ways, k);
    order' := Requeue(order, i, w);
    if stamp + 1 < WRAP {
      RequeueKeepsOrder(ways, order, stamp, i, w, Advance(rec, dir));
      KeepsDistinct(ways, order, stamp, q, k, dir);
    }
  }

  // ---- when the stamp wraps ------------------------------------------------------------------

  /** The way that would be replaced next is a free one if there is one, and otherwise the one the
      list would replace. */
  predicate RightVictim(ways: seq<Way>, order: seq<nat>)
    requires |ways| == LRU_WAYS
  {
    Place(ways, order, if |order| < LRU_WAYS then |order| else 0, Victim(ways, |ways|))
  }

  lemma FreeWayIsVictim(ways: seq<Way>, n: nat, free: nat)
    requires free < n <= |ways| && !ways[free].valid
    requires forall w :: 0 <= w < |ways| && !ways[w].valid ==> ways[w].stamp == 0
    ensures !ways[Victim(ways, n)].valid
  {
    if n - 1 != free && ways[n - 1].valid { FreeWayIsVictim(ways, n - 1, free); }
  }

  /** In a full set a way restamped 0 is the next one replaced. */
  lemma ZeroStampIsVictim(ways: seq<Way>, w: nat)
    requires |ways| == LRU_WAYS && w < LRU_WAYS && ways[w].stamp == 0
    requires forall v :: 0 <= v < LRU_WAYS ==> ways[v].valid && (v != w ==> ways[v].stamp > 0)
    ensures Victim(ways, |ways|) == w
  {
    VictimSmallest(ways, |ways|);
    assert ways[Victim(ways, |ways|)].stamp <= ways[w].stamp;
  }

  lemma AllTaken(ways: seq<Way>)
    requires |ways| == LRU_WAYS
    ensures TakenWays(ways) == LRU_WAYS <==> forall w :: 0 <= w < LRU_WAYS ==> ways[w].valid
    ensures TakenWays(ways) < LRU_WAYS <==> exists w :: 0 <= w < LRU_WAYS && !ways[w].valid
  {
    if forall w :: 0 <= w < LRU_WAYS ==> ways[w].valid {
      assert ways[0].valid && ways[1].valid && ways[2].valid && ways[3].valid;
    }
  }

  /** In a set of more than one, the way just served is not at the front. */
  lemma RequeueFront(ways: seq<Way>, order: seq<nat>, stamp: u32, i: nat, w: nat)
    requires Ascending(ways, order, stamp) && Place(ways, order, i, w) && |Requeue(order, i, w)| > 1
    ensures Requeue(order, i, w)[0] != w
  {
    var m := if i == 0 then 1 else 0;
    assert Requeue(order, i, w)[0] == order[m];
    if i < |order| { assert ways[order[m]].stamp != ways[order[i]].stamp; }
  }

  /** The wrapped case: right exactly while a way is still free. */
  lemma WrappedVictimIff(ways: seq<Way>, order: seq<nat>, stamp: u32, i: nat, w: nat, r: Rec)
    requires Ordered(ways, order, stamp) && Place(ways, order, i, w)
    ensures var ways', order' := ways[w := Way(true, 0, r)], Requeue(order, i, w);
            RightVictim(ways', order') <==> |order'| < LRU_WAYS
  {
    var ways', order' := ways[w := Way(true, 0, r)], Requeue(order, i, w);
    RequeueCounts(ways, order, stamp, i, w, Way(true, 0, r));
    AllTaken(ways');
    if |order'| < LRU_WAYS {
      var free :| 0 <= free < LRU_WAYS && !ways'[free].valid;
      FreeWayIsVictim(ways', |ways'|, free);
    } else {
      assert forall v :: 0 <= v < LRU_WAYS && v != w ==> ways[v].valid && v in order;
      ZeroStampIsVictim(ways', w);
      assert order'[|order'| - 1] == w;
      RequeueFront(ways, order, stamp, i, w);
    }
  }

  /** The other case: always right. */
  lemma UnwrappedVictim(ways: seq<Way>, order: seq<nat>, stamp: u32, i: nat, w: nat, r: Rec)
    requires Ordered(ways, order, stamp) && Place(ways, order, i, w) && stamp + 1 < WRAP
    ensures RightVictim(ways[w := Way(true, stamp + 1, r)], Requeue(order, i, w))
  {
    RequeueKeepsOrder(ways, order, stamp, i, w, r);
    var j := VictimIsOldest(ways[w := Way(true, stamp + 1, r)], Requeue(order, i, w), stamp + 1);
  }

  /** After any call the next replacement is the right one if and only if the stamp has not wrapped
      or a way is still free. */
  lemma NextVictimIff(ways: seq<Way>, order: seq<nat>, stamp: u32, q: seq<Rec>, k: Key, dir: bool) returns (i: nat)
    requires Represents(ways, order, stamp, q)
    ensures Place(ways, order, i, Chosen(ways, k).0)
    ensures var order' := Requeue(order, i, Chosen(ways, k).0);
            RightVictim(NextWays(ways, stamp, k, dir).0, order') <==> stamp + 1 < WRAP || |order'| < LRU_WAYS
  {
    i := ChosenServes(ways, order, stamp, q, k, dir);
    var (w, rec) := Chosen(ways, k);
    if stamp + 1 < WRAP {
      UnwrappedVictim(ways, order, stamp, i, w, Advance(rec, dir));
    } else {
      WrappedVictimIff(ways, order, stamp, i, w, Advance(rec, dir));
    }
  }

  // ---- runs -----------------------------------------------------------------------------------

  /** A request and the worker's clock when it comes. */
  datatype Request = Request(stamp: u32, key: Key, dir: bool)

  /** The clock runs on from `stamp` and does not wrap. */
  predicate Clocked(stamp: u32, reqs: seq<Request>)
    decreases |reqs|
  {
    reqs == [] || (stamp <= reqs[0].stamp && reqs[0].stamp + 1 < WRAP && Clocked(reqs[0].stamp + 1, reqs[1..]))
  }

  function RunWays(ways: seq<Way>, reqs: seq<Request>): (r: seq<Way>)
    requires |ways| == LRU_WAYS
    ensures |r| == LRU_WAYS
    decreases |reqs|
  {
    if reqs == [] then ways
    else RunWays(NextWays(ways, reqs[0].stamp, reqs[0].key, reqs[0].dir).0, reqs[1..])
  }

  function Unclocked(reqs: seq<Request>): (r: seq<(Key, bool)>)
    ensures |r| == |reqs| && forall i :: 0 <= i < |r| ==> r[i] == (reqs[i].key, reqs[i].dir)
  {
    seq(|reqs|, i requires 0 <= i < |reqs| => (reqs[i].key, reqs[i].dir))
  }

  function LastStamp(stamp: u32, reqs: seq<Request>): u32
    requires Clocked(stamp, reqs)
    decreases |reqs|
  {
    if reqs == [] then stamp else LastStamp(reqs[0].stamp + 1, reqs[1..])
  }

  /** Over every run until the stamp wraps the ways do what the list does. */
  lemma {:induction false} RunRefines(ways: seq<Way>, order: seq<nat>, stamp: u32, q: seq<Rec>, reqs: seq<Request>)
    returns (order': seq<nat>)
    requires Represents(ways, order, stamp, q) && Clocked(stamp, reqs)
    ensures Represents(RunWays(ways, reqs), order', LastStamp(stamp, reqs), ServeAll(q, Unclocked(reqs)))
    decreases |reqs|
  {
    if reqs == [] {
      order' := order;
    } else {
      var r := reqs[0];
      RepresentsLater(ways, order, stamp, r.stamp, q);
      var next := NextRefines(ways, order, r.stamp, q, r.key, r.dir);
      assert Unclocked(reqs)[0] == (r.key, r.dir) && Unclocked(reqs)[1..] == Unclocked(reqs[1..]);
      var (ways', q') := (NextWays(ways, r.stamp, r.key, r.dir).0, Serve(q, r.key, r.dir).0);
      order' := RunRefines(ways', next, r.stamp + 1, q', reqs[1..]);
    }
  }

  /** Until the stamp wraps, while at most three other flows of its set are active between two of
      its requests, a flow's fallback numbers stay consecutive. */
  lemma ConsecutiveWhileRetained(ways: seq<Way>, order: seq<nat>, stamp: u32, q: seq<Rec>,
                                 r: Request, others: seq<Request>, last: Request)
    requires Represents(ways, order, stamp, q) && last.key == r.key && last.dir == r.dir
    requires stamp <= r.stamp && r.stamp + 1 < WRAP && Clocked(r.stamp + 1, others)
    requires LastStamp(r.stamp + 1, others) <= last.stamp
    requires r.key !in Asked(Unclocked(others)) && |Asked(Unclocked(others))| < LRU_WAYS
    ensures var (ways1, v) := NextWays(ways, r.stamp, r.key, r.dir);
            NextWays(RunWays(ways1, others), last.stamp, r.key, r.dir).1 == Bump(v, 1)
  {
    RepresentsLater(ways, order, stamp, r.stamp, q);
    var order1 := NextRefines(ways, order, r.stamp, q, r.key, r.dir);
    var ways1, q1 := NextWays(ways, r.stamp, r.key, r.dir).0, Serve(q, r.key, r.dir).0;
    var order2 := RunRefines(ways1, order1, r.stamp + 1, q1, others);
    var ways2, q2 := RunWays(ways1, others), ServeAll(q1, Unclocked(others));
    RepresentsLater(ways2, order2, LastStamp(r.stamp + 1, others), last.stamp, q2);
    var order3 := NextRefines(ways2, order2, last.stamp, q2, r.key, r.dir);
    var i := VictimIsOldest(ways, order, stamp);
    ListStaysConsecutive(q, r.key, r.dir, Unclocked(others));
  }

  // ---- the code -----------------------------------------------------------------------------

  lemma {:induction false} HitStays(ways: seq<Way>, k: Key, n: nat)
    requires |ways| == LRU_WAYS && n <= LRU_WAYS && Hit(ways, k, n) < n
    ensures Hit(ways, k, |ways|) == Hit(ways, k, n)
    decreases LRU_WAYS - n
  {
    if n < LRU_WAYS { HitStays(ways, k, n + 1); }
  }

  /** One set of ways of one worker; `stamp` is the worker's clock, shared by its sets. */
  class LruSet {
    const ways: array<Way>

    constructor ()
      ensures fresh(ways) && Represents(ways[..], [], 0, [])
    {
      ways := new Way[LRU_WAYS](_ => Way(false, 0, Fresh(Key(0, 0, 0, 0, 0))));
    }

    /** The way holding `k`, or else the way to replace. */
    method Search(k: Key) returns (hit: bool, w: nat)
      requires ways.Length == LRU_WAYS
      ensures hit <==> Hit(ways[..], k, ways.Length) < LRU_WAYS
      ensures w == Chosen(ways[..], k).0
    {
      hit, w := false, 0;
      for way := 0 to LRU_WAYS
        invariant w == Victim(ways[..], way) && !hit && Hit(ways[..], k, way) == LRU_WAYS
      {
        if ways[way].valid && ways[way].rec.key == k {
          HitStays(ways[..], k, way + 1);
          hit, w := true, way;
          return;
        }
        if !ways[way].valid {
          w := way;
        } else if ways[way].stamp < ways[w].stamp {
          w := way;
        }
      }
    }

    method Next(k: Key, dir: bool, stamp: u32) returns (value: u32, stamp': u32)
      requires ways.Length == LRU_WAYS
      modifies ways
      ensures stamp' == Bump(stamp, 1)
      ensures (ways[..], value) == NextWays(old(ways[..]), stamp, k, dir)
    {
      var hit, w := Search(k);
      var rec := if hit then ways[w].rec else Fresh(k);
      stamp' := Bump(stamp, 1);
      value := NextOf(rec, dir);
      ways[w] := Way(true, stamp', Advance(rec, dir));
    }
  }
}
