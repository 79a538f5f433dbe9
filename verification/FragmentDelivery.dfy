/** Delivery: when a datagram whose halves both arrive in time is handed on, and when it is lost. */
module FragmentDelivery {
  import opened Bytes
  import opened Limits
  import opened Wire
  import opened Codec
  import opened Reassembly
  import opened FragmentRun

  ghost predicate Untouched(evs: seq<Event>, k: Key) {
    forall i :: 0 <= i < |evs| && evs[i].Arrival? ==> evs[i].f.key != k
  }

  /** All events happen no later than `t2`. */
  ghost predicate NoLater(evs: seq<Event>, t2: u64) {
    forall i :: 0 <= i < |evs| ==> evs[i].now <= t2
  }

  lemma MonotoneEarlier(t: u64, s: u64, evs: seq<Event>)
    requires s <= t && Monotone(t, evs)
    ensures Monotone(s, evs)
  {
  }

  lemma {:induction false} MonotoneSplit(t: u64, evs: seq<Event>, last: Event)
    requires Monotone(t, evs + [last])
    ensures Monotone(t, evs) && NoLater(evs, last.now) && t <= last.now
    decreases |evs|
  {
    if evs != [] {
      assert (evs + [last])[1..] == evs[1..] + [last];
      MonotoneSplit(evs[0].now, evs[1..], last);
      assert forall i :: 0 < i < |evs| ==> evs[i] == evs[1..][i - 1];
    } else {
      assert (evs + [last])[0] == last;
    }
  }

  function KeyOf(l: Label): Key { Key(l.epoch, l.id) }

  // ---- what takes a pending half away ----------------------------------------------------

  /** The arrival meets a full window in which this datagram has waited longest. */
  predicate Displaces(h: Hash, es: Table, f: Fragment, now: u64, k: Key) {
    MeetsFullWindow(h, es, f, now) && es[At(h, f.key, Oldest(h, es, f.key, now, PROBES))].key == k
  }

  /** Some arrival of the run displaces the datagram. */
  predicate Displaced(h: Hash, es: Table, evs: seq<Event>, k: Key)
    decreases |evs|
  {
    evs != [] &&
    match evs[0]
    case Arrival(f, now) => Displaces(h, es, f, now, k) || Displaced(h, Arrive(h, es, f, now).0, evs[1..], k)
    case Collect(now) => Displaced(h, Collected(es, now), evs[1..], k)
  }

  /** A run that meets no full window displaces nothing. */
  lemma {:induction false} NoFullWindowDisplacesNone(h: Hash, es: Table, evs: seq<Event>, k: Key)
    requires NoFullWindow(h, es, evs)
    ensures !Displaced(h, es, evs, k)
    decreases |evs|
  {
    if evs != [] {
      match evs[0] {
        case Arrival(f, now) => NoFullWindowDisplacesNone(h, Arrive(h, es, f, now).0, evs[1..], k);
        case Collect(now) => NoFullWindowDisplacesNone(h, Collected(es, now), evs[1..], k);
      }
    }
  }

  /** No entry of the datagram, expired or not. */
  ghost predicate Nowhere(es: Table, k: Key) {
    forall x :: 0 <= x < SLOTS && Occupied(es[x]) ==> es[x].key != k
  }

  lemma StaysAway(h: Hash, es: Table, f: Fragment, now: u64, k: Key)
    requires Nowhere(es, k) && f.key != k
    ensures Nowhere(Arrive(h, es, f, now).0, k)
  {
    SweptAt(h, es, f.key, now, FirstMatch(h, es, f.key, now, 0));
  }

  lemma DisplacedIsGone(h: Hash, es: Table, f: Fragment, now: u64, k: Key)
    requires TableInv(h, es) && Displaces(h, es, f, now, k)
    ensures Nowhere(Arrive(h, es, f, now).0, k)
  {
    FullWindowPicks(h, es, f.key, now);
  }

  lemma OtherwiseKept(h: Hash, es: Table, f: Fragment, now: u64, x: Slot)
    requires TableInv(h, es) && Live(es[x], now) && es[x].key != f.key
    requires !Displaces(h, es, f, now, es[x].key)
    ensures Arrive(h, es, f, now).0[x] == es[x]
  {
    PickFacts(h, es, f.key, now);
    if Acceptable(f) && Pick(h, es, f.key, now) == x {
      FullWindowPicks(h, es, f.key, now);
    }
  }

  /** The entry in slot `x` is this one. */
  ghost predicate Keeps(h: Hash, es: Table, x: Slot, e: Entry) { TableInv(h, es) && es[x] == e && Occupied(e) }

  lemma {:induction false} GoneForGood(h: Hash, es: Table, k: Key, evs: seq<Event>)
    requires Nowhere(es, k) && Untouched(evs, k)
    ensures Nowhere(RunTable(h, es, evs).0, k)
    decreases |evs|
  {
    if evs != [] {
      assert Untouched(evs[1..], k);
      match evs[0] {
        case Arrival(f, now) =>
          StaysAway(h, es, f, now, k);
          GoneForGood(h, Arrive(h, es, f, now).0, k, evs[1..]);
        case Collect(now) => GoneForGood(h, Collected(es, now), k, evs[1..]);
      }
    }
  }

  /** Through events of other datagrams and within the timeout a stored half stays exactly if no
      arrival displaces it, and is gone altogether otherwise. */
  lemma {:induction false} KeptOrGone(h: Hash, es: Table, x: Slot, e: Entry, evs: seq<Event>, t2: u64)
    requires Keeps(h, es, x, e) && e.stamp <= t2 && t2 - e.stamp <= TIMEOUT
    requires Untouched(evs, e.key) && NoLater(evs, t2) && Monotone(e.stamp, evs)
    ensures var es' := RunTable(h, es, evs).0;
            if Displaced(h, es, evs, e.key) then Nowhere(es', e.key) else Keeps(h, es', x, e)
    decreases |evs|
  {
    if evs != [] {
      assert Untouched(evs[1..], e.key) && NoLater(evs[1..], t2);
      MonotoneEarlier(evs[0].now, e.stamp, evs[1..]);
      match evs[0] {
        case Arrival(f, now) =>
          ArriveKeepsInv(h, es, f, now);
          if Displaces(h, es, f, now, e.key) {
            DisplacedIsGone(h, es, f, now, e.key);
            GoneForGood(h, Arrive(h, es, f, now).0, e.key, evs[1..]);
          } else {
            OtherwiseKept(h, es, f, now, x);
            KeptOrGone(h, Arrive(h, es, f, now).0, x, e, evs[1..], t2);
          }
        case Collect(now) =>
          CollectKeepsInv(h, es, now);
          KeptOrGone(h, Collected(es, now), x, e, evs[1..], t2);
      }
    }
  }

  // ---- the two halves --------------------------------------------------------------------

  /** The sender's halves are always acceptable to the table. */
  lemma SentAcceptable(l: Label, p: seq<byte>, second: bool)
    requires Splittable(p) && |p| <= JUMBO_MAX
    ensures Acceptable(Sent(l, p, second))
  {
  }

  /** The entry after one half of `p` alone has arrived. */
  function HalfEntry(l: Label, p: seq<byte>, tail: bool, now: u64): Entry
    requires |p| > L3_OFF
  {
    Entry(KeyOf(l), l.flowSeq, now, if tail then None else Some(HeadOf(p)), if tail then Some(TailOf(p)) else None)
  }

  lemma FirstHalfStored(h: Hash, es: Table, l: Label, p: seq<byte>, tail: bool, now: u64) returns (x: Slot)
    requires TableInv(h, es) && Splittable(p) && |p| <= JUMBO_MAX && !Holds(es, KeyOf(l), now)
    ensures Arrive(h, es, Sent(l, p, tail), now).1 == None
    ensures Keeps(h, Arrive(h, es, Sent(l, p, tail), now).0, x, HalfEntry(l, p, tail, now))
  {
    var f := Sent(l, p, tail);
    x := Pick(h, es, f.key, now);
    SentAcceptable(l, p, tail);
    PickFacts(h, es, f.key, now);
    ArriveKeepsInv(h, es, f, now);
    var t := Probed(h, es, f.key, now);
    assert Occupied(t[x]) ==> t[x] == es[x] && t[x].key != f.key;
  }

  /** A live entry is what probing for its datagram picks. */
  lemma FoundAgain(h: Hash, es: Table, x: Slot, now: u64)
    requires TableInv(h, es) && Live(es[x], now)
    ensures Pick(h, es, es[x].key, now) == x && Probed(h, es, es[x].key, now)[x] == es[x]
  {
    PickFacts(h, es, es[x].key, now);
  }

  /** The other half completes the packet if it finds the entry, and waits alone if it does not. */
  lemma OtherHalf(h: Hash, es: Table, x: Slot, l: Label, p: seq<byte>, tail: bool, t1: u64, now: u64)
    requires TableInv(h, es) && Splittable(p) && |p| <= JUMBO_MAX && t1 <= now && now - t1 <= TIMEOUT
    requires Keeps(h, es, x, HalfEntry(l, p, tail, t1)) || Nowhere(es, KeyOf(l))
    ensures Arrive(h, es, Sent(l, p, !tail), now).1 == if Nowhere(es, KeyOf(l)) then None else Some(p)
  {
    var f := Sent(l, p, !tail);
    SentAcceptable(l, p, !tail);
    if Nowhere(es, KeyOf(l)) {
      SweptAt(h, es, f.key, now, FirstMatch(h, es, f.key, now, 0));
    } else {
      FoundAgain(h, es, x, now);
      JoinRestores(p);
    }
  }

  lemma GoneIffDisplaced(h: Hash, es: Table, evs: seq<Event>, x: Slot, e: Entry, t2: u64)
    requires Keeps(h, es, x, e) && e.stamp <= t2 && t2 - e.stamp <= TIMEOUT
    requires Untouched(evs, e.key) && NoLater(evs, t2) && Monotone(e.stamp, evs)
    ensures TableInv(h, RunTable(h, es, evs).0)
    ensures Nowhere(RunTable(h, es, evs).0, e.key) <==> Displaced(h, es, evs, e.key)
  {
    KeptOrGone(h, es, x, e, evs, t2);
    RunKeepsInv(h, es, evs);
  }

  // ---- late halves -----------------------------------------------------------------------

  /** More than 200 milliseconds, in nanoseconds. */
  predicate TooLate(t1: u64, t2: u64) { t2 - t1 > 200 * 1_000_000 }

  /** Whatever the table holds of the datagram came at `t1`. */
  ghost predicate OnlySince(es: Table, k: Key, t1: u64) {
    forall x :: 0 <= x < SLOTS && Occupied(es[x]) && es[x].key == k ==> es[x].stamp == t1
  }

  lemma OthersKeepSince(h: Hash, es: Table, f: Fragment, now: u64, k: Key, t1: u64)
    requires OnlySince(es, k, t1) && f.key != k
    ensures OnlySince(Arrive(h, es, f, now).0, k, t1)
  {
    SweptAt(h, es, f.key, now, FirstMatch(h, es, f.key, now, 0));
  }

  lemma {:induction false} RunKeepsSince(h: Hash, es: Table, k: Key, evs: seq<Event>, t1: u64)
    requires OnlySince(es, k, t1) && Untouched(evs, k)
    ensures OnlySince(RunTable(h, es, evs).0, k, t1)
    decreases |evs|
  {
    if evs != [] {
      assert Untouched(evs[1..], k);
      match evs[0] {
        case Arrival(f, now) =>
          OthersKeepSince(h, es, f, now, k, t1);
          RunKeepsSince(h, Arrive(h, es, f, now).0, k, evs[1..], t1);
        case Collect(now) => RunKeepsSince(h, Collected(es, now), k, evs[1..], t1);
      }
    }
  }

  lemma FirstHalfSince(h: Hash, es: Table, x: Slot, e: Entry)
    requires Keeps(h, es, x, e)
    ensures OnlySince(es, e.key, e.stamp)
  {
  }

  /** A half that comes too late finds nothing to join, even where the old entry still stands. */
  lemma LateHalfWaits(h: Hash, es: Table, f: Fragment, t1: u64, t2: u64)
    requires OnlySince(es, f.key, t1) && t1 <= t2 && TooLate(t1, t2)
    ensures Arrive(h, es, f, t2).1 == None
  {
    SweptAt(h, es, f.key, t2, FirstMatch(h, es, f.key, t2, 0));
    var t, x := Probed(h, es, f.key, t2), Pick(h, es, f.key, t2);
    assert t[x] == es[x] || t[x] == EMPTY;
  }

  lemma LateDelivers(h: Hash, es: Table, l: Label, p: seq<byte>, tailFirst: bool, mid: seq<Event>, t1: u64, t2: u64)
    requires TableInv(h, es) && Splittable(p) && |p| <= JUMBO_MAX && !Holds(es, KeyOf(l), t1)
    requires Untouched(mid, KeyOf(l)) && t1 <= t2 && TooLate(t1, t2)
    ensures var es1 := Arrive(h, es, Sent(l, p, tailFirst), t1).0;
            Arrive(h, RunTable(h, es1, mid).0, Sent(l, p, !tailFirst), t2).1 == None
  {
    var es1, e := Arrive(h, es, Sent(l, p, tailFirst), t1).0, HalfEntry(l, p, tailFirst, t1);
    var x := FirstHalfStored(h, es, l, p, tailFirst, t1);
    FirstHalfSince(h, es1, x, e);
    RunKeepsSince(h, es1, KeyOf(l), mid, t1);
    LateHalfWaits(h, RunTable(h, es1, mid).0, Sent(l, p, !tailFirst), t1, t2);
  }

  /** Main theorem: the two halves of `p` arrive, in either order, with any events of other datagrams
      between. Then the second half yields `p` if and only if it comes within 200 milliseconds and
      no arrival between them met a full window in which the first half had waited longest. */
  lemma SecondHalfDelivers(h: Hash, es: Table, l: Label, p: seq<byte>, tailFirst: bool,
                           mid: seq<Event>, t1: u64, t2: u64)
    requires TableInv(h, es) && Splittable(p) && |p| <= JUMBO_MAX && !Holds(es, KeyOf(l), t1)
    requires Untouched(mid, KeyOf(l)) && Monotone(t1, mid + [Arrival(Sent(l, p, !tailFirst), t2)])
    ensures var es1 := Arrive(h, es, Sent(l, p, tailFirst), t1).0;
            Arrive(h, RunTable(h, es1, mid).0, Sent(l, p, !tailFirst), t2).1 ==
            if TooLate(t1, t2) || Displaced(h, es1, mid, KeyOf(l)) then None else Some(p)
  {
    var es1, e := Arrive(h, es, Sent(l, p, tailFirst), t1).0, HalfEntry(l, p, tailFirst, t1);
    MonotoneSplit(t1, mid, Arrival(Sent(l, p, !tailFirst), t2));
    if TooLate(t1, t2) {
      LateDelivers(h, es, l, p, tailFirst, mid, t1, t2);
    } else {
      var x := FirstHalfStored(h, es, l, p, tailFirst, t1);
      KeptOrGone(h, es1, x, e, mid, t2);
      GoneIffDisplaced(h, es1, mid, x, e, t2);
      OtherHalf(h, RunTable(h, es1, mid).0, x, l, p, tailFirst, t1, t2);
    }
  }

  /** A cleared table stands for the reassembler with nothing pending. */
  lemma ClearedTable(h: Hash, es: Table)
    requires forall x :: 0 <= x < SLOTS ==> es[x] == EMPTY
    ensures TableInv(h, es) && Represents(es, map[], 0)
  {
  }
}
