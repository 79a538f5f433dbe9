/** The per-worker reassembly table: 256 entries, 8 probes, lazy expiry, oldest-first eviction. */
module Reassembly {
  import opened Bytes
  import opened Limits
  import opened Wire

  const SLOTS := 256
  const PROBES := 8
  const TIMEOUT: u64 := 200_000_000

  type Header = h: seq<byte> | |h| == L3_OFF witness seq(L3_OFF, i => 0)

  datatype Key = Key(epoch: u32, id: u32)
  datatype Head = Head(eth: Header, body: seq<byte>)
  datatype Entry = Entry(key: Key, flowSeq: u32, stamp: u64,
                         first: Option<Head>, second: Option<seq<byte>>)
  datatype Fragment = Fragment(key: Key, flowSeq: u32, second: bool, eth: Header, inner: seq<byte>)

  const EMPTY := Entry(Key(0, 0), 0, 0, None, None)

  type Table = es: seq<Entry> | |es| == SLOTS witness seq(SLOTS, i => EMPTY)

  // ---- entries -----------------------------------------------------------

  predicate Occupied(e: Entry) { e.first.Some? || e.second.Some? }

  /** Unsigned 64-bit difference, as the source computes it. */
  function Age(now: u64, stamp: u64): u64 {
    if stamp <= now then now - stamp else now - stamp + 0x1_0000_0000_0000_0000
  }

  predicate Expired(e: Entry, now: u64) { Occupied(e) && Age(now, e.stamp) > TIMEOUT }

  predicate Live(e: Entry, now: u64) { Occupied(e) && !Expired(e, now) }

  function Prepared(e: Entry, k: Key, flowSeq: u32, now: u64): Entry {
    (if e.key != k || e.flowSeq != flowSeq || Expired(e, now) then EMPTY else e)
    .(key := k, flowSeq := flowSeq, stamp := now)
  }

  function Stored(e: Entry, f: Fragment, now: u64): Entry {
    var q := Prepared(e, f.key, f.flowSeq, now);
    if f.second then q.(second := Some(f.inner)) else q.(first := Some(Head(f.eth, f.inner)))
  }

  /** An entry that belongs to this datagram and flow sequence number since `now`. */
  predicate Labelled(e: Entry, k: Key, flowSeq: u32, now: u64) {
    e.key == k && e.flowSeq == flowSeq && e.stamp == now
  }

  /** What the entry holds is still good for this datagram and flow sequence number. */
  predicate StaysLive(e: Entry, k: Key, flowSeq: u32, now: u64) {
    Live(e, now) && e.key == k && e.flowSeq == flowSeq
  }

  /** What the table accepts for storage. */
  predicate Acceptable(f: Fragment) {
    && |f.inner| <= JUMBO_MAX
    && (f.second || (|f.inner| >= 20 && f.inner[0] / 16 == 4 && 20 <= f.inner[0] % 16 * 4 <= |f.inner|))
  }

  function Join(first: Head, second: seq<byte>): Option<seq<byte>> {
    if |first.body| + |second| + L3_OFF > JUMBO_MAX then None
    else Some(first.eth[..ET_OFF] + [0x08, 0x00] + first.body + second)
  }

  // ---- probing -----------------------------------------------------------

  /** The slot a key is probed from. The proofs hold for every hash; the source's is `Mix`. */
  type Slot = x: nat | x < SLOTS
  type Hash = Key -> Slot

  function Mix(k: Key): Slot {
    Xor(k.id, k.epoch * 0x9e3779b9, 32) % SLOTS
  }

  function At(h: Hash, k: Key, i: nat): (x: nat)
    requires i < SLOTS
    ensures x == if h(k) + i < SLOTS then h(k) + i else h(k) + i - SLOTS
  {
    (h(k) + i) % SLOTS
  }

  /** Distance of slot `x` from the key's first probe. */
  function Dist(h: Hash, k: Key, x: nat): nat
    requires x < SLOTS
  {
    if h(k) <= x then x - h(k) else x - h(k) + SLOTS
  }

  lemma AtDist(h: Hash, k: Key, x: nat)
    requires x < SLOTS
    ensures Dist(h, k, x) < SLOTS && At(h, k, Dist(h, k, x)) == x
  {
  }

  /** First probe from `i` on that holds a live entry of this datagram, or 8. */
  function FirstMatch(h: Hash, es: Table, k: Key, now: u64, i: nat): (m: nat)
    requires i <= PROBES
    ensures i <= m <= PROBES
    decreases PROBES - i, |es|
  {
    if i == PROBES || (Live(es[At(h, k, i)], now) && es[At(h, k, i)].key == k) then i
    else FirstMatch(h, es, k, now, i + 1)
  }

  /** First probe from `i` on that is free or expired, or 8. */
  function FirstFree(h: Hash, es: Table, k: Key, now: u64, i: nat): (m: nat)
    requires i <= PROBES
    ensures i <= m <= PROBES
    decreases PROBES - i, |es|
  {
    if i == PROBES || !Live(es[At(h, k, i)], now) then i else FirstFree(h, es, k, now, i + 1)
  }

  /** Earliest of the `n` first probes whose age none of them exceeds. */
  function Oldest(h: Hash, es: Table, k: Key, now: u64, n: nat): (m: nat)
    requires 0 < n <= PROBES
    ensures m < n
    decreases n, |es|
  {
    if n == 1 then 0
    else var b := Oldest(h, es, k, now, n - 1);
         if Age(now, es[At(h, k, n - 1)].stamp) > Age(now, es[At(h, k, b)].stamp) then n - 1 else b
  }

  lemma {:induction false} FirstMatchIsFirst(h: Hash, es: Table, k: Key, now: u64, i: nat)
    requires i <= PROBES
    ensures var m := FirstMatch(h, es, k, now, i);
            && (forall j :: i <= j < m ==> !(Live(es[At(h, k, j)], now) && es[At(h, k, j)].key == k))
            && (m < PROBES ==> Live(es[At(h, k, m)], now) && es[At(h, k, m)].key == k)
    decreases PROBES - i
  {
    if FirstMatch(h, es, k, now, i) != i { FirstMatchIsFirst(h, es, k, now, i + 1); }
  }

  lemma {:induction false} FirstFreeIsFirst(h: Hash, es: Table, k: Key, now: u64, i: nat)
    requires i <= PROBES
    ensures var m := FirstFree(h, es, k, now, i);
            && (forall j :: i <= j < m ==> Live(es[At(h, k, j)], now))
            && (m < PROBES ==> !Live(es[At(h, k, m)], now))
    decreases PROBES - i
  {
    if FirstFree(h, es, k, now, i) != i { FirstFreeIsFirst(h, es, k, now, i + 1); }
  }

  lemma {:induction false} OldestIsOldest(h: Hash, es: Table, k: Key, now: u64, n: nat)
    requires 0 < n <= PROBES
    ensures var m := Oldest(h, es, k, now, n);
            forall j :: 0 <= j < n ==> Age(now, es[At(h, k, j)].stamp) <= Age(now, es[At(h, k, m)].stamp)
  {
    if n > 1 { OldestIsOldest(h, es, k, now, n - 1); }
  }

  /** The expired entries among the first `n` probes are cleared. */
  function Swept(h: Hash, es: Table, k: Key, now: u64, n: nat): Table
    requires n <= PROBES
    decreases n, |es|
  {
    if n == 0 then es
    else var x := At(h, k, n - 1);
         Swept(h, es, k, now, n - 1)[x := if Expired(es[x], now) then EMPTY else es[x]]
  }

  lemma {:induction false} SweptAt(h: Hash, es: Table, k: Key, now: u64, n: nat)
    requires n <= PROBES
    ensures forall y :: 0 <= y < SLOTS ==>
              Swept(h, es, k, now, n)[y] ==
              if Dist(h, k, y) < n && Expired(es[y], now) then EMPTY else es[y]
  {
    if n > 0 {
      SweptAt(h, es, k, now, n - 1);
      forall y | 0 <= y < SLOTS && Dist(h, k, y) == n - 1 ensures y == At(h, k, n - 1) {
        AtDist(h, k, y);
      }
    }
  }

  /** Probes still ahead are untouched. */
  lemma SweptAhead(h: Hash, es: Table, k: Key, now: u64, i: nat)
    requires i < PROBES
    ensures Swept(h, es, k, now, i)[At(h, k, i)] == es[At(h, k, i)]
  {
    SweptAt(h, es, k, now, i);
    assert Dist(h, k, At(h, k, i)) == i;
  }

  /** The probe loop's locals: first free slot, oldest live slot and its age (-1: none yet). */
  datatype Scan = Scan(empty: int, oldest: int, oldestAge: u64)

  function Consider(s: Scan, e: Entry, x: nat, now: u64): Scan {
    if !Live(e, now) then (if s.empty < 0 then s.(empty := x) else s)
    else if s.oldest < 0 || Age(now, e.stamp) > s.oldestAge
    then s.(oldest := x, oldestAge := Age(now, e.stamp))
    else s
  }

  /** What the locals mean after `i` probes without a match. */
  ghost predicate Scanned(h: Hash, es: Table, k: Key, now: u64, i: nat, s: Scan)
    requires i <= PROBES
  {
    && FirstMatch(h, es, k, now, 0) == FirstMatch(h, es, k, now, i)
    && if s.empty < 0
       then && FirstFree(h, es, k, now, 0) == FirstFree(h, es, k, now, i)
            && if i == 0 then s.oldest < 0
               else && s.oldest == At(h, k, Oldest(h, es, k, now, i))
                    && s.oldestAge == Age(now, es[s.oldest].stamp)
       else FirstFree(h, es, k, now, 0) < PROBES && s.empty == At(h, k, FirstFree(h, es, k, now, 0))
  }

  lemma ScannedNext(h: Hash, es: Table, k: Key, now: u64, i: nat, s: Scan)
    requires i < PROBES && Scanned(h, es, k, now, i, s)
    ensures var x := At(h, k, i);
            if Live(es[x], now) && es[x].key == k then FirstMatch(h, es, k, now, 0) == i
            else Scanned(h, es, k, now, i + 1, Consider(s, es[x], x, now))
  {
  }

  function Pick(h: Hash, es: Table, k: Key, now: u64): (x: nat)
    ensures x < SLOTS
  {
    var m := FirstMatch(h, es, k, now, 0);
    if m < PROBES then At(h, k, m)
    else var f := FirstFree(h, es, k, now, 0);
         if f < PROBES then At(h, k, f) else At(h, k, Oldest(h, es, k, now, PROBES))
  }

  function Probed(h: Hash, es: Table, k: Key, now: u64): Table {
    Swept(h, es, k, now, FirstMatch(h, es, k, now, 0))
  }

  /** One fragment meets the table: the new table and the datagram it completes, if any. */
  function Arrive(h: Hash, es: Table, f: Fragment, now: u64): (Table, Option<seq<byte>>) {
    var swept := Probed(h, es, f.key, now);
    var x := Pick(h, es, f.key, now);
    if !Acceptable(f) then (swept, None)
    else
      var e := Stored(swept[x], f, now);
      if e.first.Some? && e.second.Some?
      then (swept[x := EMPTY], Join(e.first.value, e.second.value))
      else (swept[x := e], None)
  }

  function Collected(es: Table, now: u64): Table {
    seq(SLOTS, x requires 0 <= x < SLOTS => if Expired(es[x], now) then EMPTY else es[x])
  }

  function FragmentOf(sh: Shim, packet: seq<byte>): Fragment
    requires |packet| >= L3_OFF
  {
    Fragment(Key(sh.epoch, sh.id), sh.flowSeq, sh.kind.Frag1?, packet[..L3_OFF], packet[L3_OFF..])
  }

  // ---- the table object --------------------------------------------------

  class ReassemblyTable {
    const entries: array<Entry>
    const home: Hash
    var gcCursor: nat

    ghost predicate Valid()
      reads this
    {
      entries.Length == SLOTS && gcCursor < SLOTS
    }

    constructor (home: Hash)
      ensures Valid() && fresh(entries) && this.home == home
      ensures forall x :: 0 <= x < SLOTS ==> entries[x] == EMPTY
    {
      this.home := home;
      entries := new Entry[SLOTS](i => EMPTY);
      gcCursor := 0;
    }

    /** Clears the entry if it has expired; says whether a live one remains. */
    method Expire(x: nat, now: u64) returns (occupied: bool)
      requires Valid() && x < SLOTS
      modifies entries
      ensures occupied == Live(old(entries[x]), now)
      ensures entries[..] == old(entries[..])[x := if Expired(old(entries[x]), now) then EMPTY
                                                   else old(entries[x])]
    {
      occupied := Occupied(entries[x]);
      if occupied && Age(now, entries[x].stamp) > TIMEOUT {
        entries[x] := EMPTY;
        occupied := false;
      }
    }

    /** One turn of the probe loop, on the table `es` that it started from. */
    method Probe(k: Key, now: u64, i: nat, scan: Scan, ghost es: Table) returns (hit: bool, next: Scan)
      requires Valid() && i < PROBES
      requires entries[..] == Swept(home, es, k, now, i) && Scanned(home, es, k, now, i, scan)
      modifies entries
      ensures hit ==> FirstMatch(home, es, k, now, 0) == i && entries[..] == Swept(home, es, k, now, i)
      ensures !hit ==> entries[..] == Swept(home, es, k, now, i + 1) && Scanned(home, es, k, now, i + 1, next)
    {
      var idx := At(home, k, i);
      SweptAhead(home, es, k, now, i);
      ScannedNext(home, es, k, now, i, scan);
      var e := entries[..][idx];
      var occupied := Expire(idx, now);
      hit := occupied && e.key == k;
      next := Consider(scan, e, idx, now);
      if hit { assert entries[..] == Swept(home, es, k, now, i); }
    }

    method PickSlot(k: Key, now: u64) returns (x: nat)
      requires Valid()
      modifies entries
      ensures x == Pick(home, old(entries[..]), k, now)
      ensures entries[..] == Probed(home, old(entries[..]), k, now)
    {
      ghost var es: Table := entries[..];
      var scan := Scan(-1, -1, 0);
      for i := 0 to PROBES
        invariant entries[..] == Swept(home, es, k, now, i)
        invariant Scanned(home, es, k, now, i, scan)
      {
        var hit, next := Probe(k, now, i, scan, es);
        if hit { return At(home, k, i); }
        scan := next;
      }
      x := if scan.empty >= 0 then scan.empty else scan.oldest;
    }

    /** opt_prepare_entry: another datagram's entry, or an expired one, is cleared before it is
        labelled. */
    method Prepare(x: nat, k: Key, flowSeq: u32, now: u64)
      requires Valid() && x < SLOTS
      modifies entries
      ensures entries[..] == old(entries[..])[x := Prepared(old(entries[x]), k, flowSeq, now)]
    {
      var e := entries[x];
      if e.key != k || e.flowSeq != flowSeq || (Occupied(e) && Age(now, e.stamp) > TIMEOUT) {
        entries[x] := EMPTY;
      }
      entries[x] := entries[x].(key := k, flowSeq := flowSeq, stamp := now);
    }

    /** The first half is stored under its labels. A second half that was there stays exactly if it
        is a live half of the same datagram and flow sequence number. */
    method StoreFirst(x: nat, k: Key, flowSeq: u32, eth: Header, body: seq<byte>, now: u64) returns (ok: bool)
      requires Valid() && x < SLOTS
      modifies entries
      ensures ok <==> |body| <= JUMBO_MAX
      ensures forall y :: 0 <= y < SLOTS && (y != x || !ok) ==> entries[y] == old(entries[y])
      ensures ok ==> Labelled(entries[x], k, flowSeq, now) && entries[x].first == Some(Head(eth, body))
      ensures ok && StaysLive(old(entries[x]), k, flowSeq, now) ==> entries[x].second == old(entries[x]).second
      ensures ok && !StaysLive(old(entries[x]), k, flowSeq, now) ==> entries[x].second.None?
    {
      if |body| > JUMBO_MAX { return false; }
      Prepare(x, k, flowSeq, now);
      entries[x] := entries[x].(first := Some(Head(eth, body)));
      ok := true;
    }

    /** The same for the second half. The caller first clears a matching expired entry; preparing
        the entry does that anyway. */
    method StoreSecond(x: nat, k: Key, flowSeq: u32, body: seq<byte>, now: u64) returns (ok: bool)
      requires Valid() && x < SLOTS
      modifies entries
      ensures ok <==> |body| <= JUMBO_MAX
      ensures forall y :: 0 <= y < SLOTS && (y != x || !ok) ==> entries[y] == old(entries[y])
      ensures ok ==> Labelled(entries[x], k, flowSeq, now) && entries[x].second == Some(body)
      ensures ok && StaysLive(old(entries[x]), k, flowSeq, now) ==> entries[x].first == old(entries[x]).first
      ensures ok && !StaysLive(old(entries[x]), k, flowSeq, now) ==> entries[x].first.None?
    {
      if |body| > JUMBO_MAX { return false; }
      if Occupied(entries[x]) && entries[x].key == k && Age(now, entries[x].stamp) > TIMEOUT {
        entries[x] := EMPTY;
      }
      Prepare(x, k, flowSeq, now);
      entries[x] := entries[x].(second := Some(body));
      ok := true;
    }

    method EmitJoin(x: nat) returns (out: Option<seq<byte>>)
      requires Valid() && x < SLOTS
      modifies entries
      ensures var e := old(entries[x]);
              if e.first.Some? && e.second.Some?
              then entries[..] == old(entries[..])[x := EMPTY] && out == Join(e.first.value, e.second.value)
              else entries[..] == old(entries[..]) && out == None
    {
      var e := entries[x];
      if e.first.None? || e.second.None? { return None; }
      out := Join(e.first.value, e.second.value);
      entries[x] := EMPTY;
    }

    /** Stores a decrypted fragment and returns the rejoined packet once both halves are in. */
    method Reassemble(sh: Shim, packet: seq<byte>, now: u64) returns (out: Option<seq<byte>>)
      requires Valid() && !sh.kind.Full? && KnownEther(packet)
      modifies entries
      ensures entries[..] == Arrive(home, old(entries[..]), FragmentOf(sh, packet), now).0
      ensures out == Arrive(home, old(entries[..]), FragmentOf(sh, packet), now).1
    {
      ghost var f := FragmentOf(sh, packet);
      var k := Key(sh.epoch, sh.id);
      var inner := packet[L3_OFF..];
      var x := PickSlot(k, now);
      ghost var t: Table := entries[..];
      assert t == Probed(home, old(entries[..]), k, now);
      if sh.kind.Frag0? {
        if |inner| < 20 || inner[0] / 16 != 4 { return None; }
        var ipHdrLen := inner[0] % 16 * 4;
        if ipHdrLen < 20 || |inner| < ipHdrLen || |inner| > JUMBO_MAX { return None; }
        var ok := StoreFirst(x, k, sh.flowSeq, packet[..L3_OFF], inner, now);
        assert ok;
      } else {
        var ok := StoreSecond(x, k, sh.flowSeq, inner, now);
        if !ok { return None; }
      }
      assert entries[x] == Stored(t[x], f, now);
      assert entries[..] == t[x := Stored(t[x], f, now)];
      out := EmitJoin(x);
    }

    method CollectGarbage(now: u64)
      requires Valid()
      modifies this, entries
      ensures Valid() && gcCursor == old(gcCursor)
      ensures entries[..] == Collected(old(entries[..]), now)
      ensures forall x :: 0 <= x < SLOTS ==>
                entries[x] == if Occupied(old(entries[x])) && Age(now, old(entries[x].stamp)) > 200 * 1_000_000
                              then EMPTY else old(entries[x])
    {
      var start := gcCursor;
      ghost var es: Table := entries[..];
      for n := 0 to SLOTS
        invariant Valid() && gcCursor == start
        invariant forall y :: 0 <= y < SLOTS ==>
                    entries[y] == if (if start <= y then y - start else y - start + SLOTS) < n
                                  then Collected(es, now)[y] else es[y]
      {
        var i := (start + n) % SLOTS;
        if Occupied(entries[i]) && Age(now, entries[i].stamp) > TIMEOUT {
          entries[i] := EMPTY;
        }
      }
      gcCursor := (start + SLOTS) % SLOTS;
    }
  }

  /** An entry is live for 200 milliseconds from its stamp on. With a clock that has run backwards the
      unsigned difference is huge, and it counts as expired. */
  lemma LiveIff(e: Entry, now: u64)
    ensures Live(e, now) <==>
              Occupied(e) && (if e.stamp <= now then now - e.stamp <= 200 * 1_000_000
                              else e.stamp - now >= 0x1_0000_0000_0000_0000 - 200 * 1_000_000)
  {
  }

  // ---- the table invariant -----------------------------------------------

  /** Every entry lies in its key's probe window and no datagram occupies two entries. */
  ghost predicate TableInv(h: Hash, es: Table) {
    && (forall x :: 0 <= x < SLOTS && Occupied(es[x]) ==> Dist(h, es[x].key, x) < PROBES)
    && (forall x, y :: 0 <= x < y < SLOTS && Occupied(es[x]) && Occupied(es[y]) ==>
          es[x].key != es[y].key)
  }

  /** A full probe without a match leaves no trace of the datagram anywhere in the table. */
  lemma NoMatchNowhere(h: Hash, es: Table, k: Key, now: u64)
    requires TableInv(h, es) && FirstMatch(h, es, k, now, 0) == PROBES
    ensures var t := Probed(h, es, k, now);
            forall y :: 0 <= y < SLOTS && Occupied(t[y]) ==> t[y].key != k
  {
    var t := Probed(h, es, k, now);
    SweptAt(h, es, k, now, PROBES);
    FirstMatchIsFirst(h, es, k, now, 0);
    forall y | 0 <= y < SLOTS && Occupied(t[y]) ensures t[y].key != k {
      if Dist(h, k, y) < PROBES {
        AtDist(h, k, y);
        assert !(Live(es[At(h, k, Dist(h, k, y))], now) && es[At(h, k, Dist(h, k, y))].key == k);
      }
    }
  }

  lemma PickedInWindow(h: Hash, es: Table, k: Key, now: u64)
    ensures Dist(h, k, Pick(h, es, k, now)) < PROBES
  {
  }

  /** Without a match only a window full of other live entries yields one of them. */
  lemma ForeignPick(h: Hash, es: Table, k: Key, now: u64)
    ensures var x, t := Pick(h, es, k, now), Probed(h, es, k, now);
            && (Occupied(t[x]) ==> Live(t[x], now))
            && (Occupied(t[x]) && t[x].key != k ==>
                  forall i :: 0 <= i < PROBES ==> Live(es[At(h, k, i)], now) && es[At(h, k, i)].key != k)
  {
    SweptAt(h, es, k, now, FirstMatch(h, es, k, now, 0));
    FirstMatchIsFirst(h, es, k, now, 0);
    FirstFreeIsFirst(h, es, k, now, 0);
  }

  /** What probing guarantees: the picked slot lies in the window, and it is the only slot
      that can hold the datagram; without a match it is free unless eight others are live. */
  lemma PickFacts(h: Hash, es: Table, k: Key, now: u64)
    requires TableInv(h, es)
    ensures var x, t := Pick(h, es, k, now), Probed(h, es, k, now);
            && Dist(h, k, x) < PROBES
            && (forall y :: 0 <= y < SLOTS && y != x && Occupied(t[y]) ==> t[y].key != k)
            && (Occupied(t[x]) ==> Live(t[x], now))
            && (Occupied(t[x]) && t[x].key != k ==>
                  forall i :: 0 <= i < PROBES ==> Live(es[At(h, k, i)], now) && es[At(h, k, i)].key != k)
            && (forall y :: 0 <= y < SLOTS ==> t[y] == es[y] || (t[y] == EMPTY && Expired(es[y], now)))
  {
    var m := FirstMatch(h, es, k, now, 0);
    PickedInWindow(h, es, k, now);
    ForeignPick(h, es, k, now);
    SweptAt(h, es, k, now, m);
    if m == PROBES { NoMatchNowhere(h, es, k, now); } else { FirstMatchIsFirst(h, es, k, now, 0); }
  }

  /** The half a fragment brings. */
  predicate HasHalf(e: Entry, f: Fragment, now: u64) {
    && e.key == f.key && e.flowSeq == f.flowSeq && e.stamp == now
    && if f.second then e.second == Some(f.inner) else e.first == Some(Head(f.eth, f.inner))
  }

  /** A fragment is stored, or completes its datagram, exactly if it is no larger than 9216 bytes and,
      as the first one, starts with a whole IPv4 header; otherwise it only clears expired entries. */
  lemma StoredIff(h: Hash, es: Table, f: Fragment, now: u64)
    requires TableInv(h, es)
    ensures var (es', r), x := Arrive(h, es, f, now), Pick(h, es, f.key, now);
            if && |f.inner| <= 9216
               && (f.second || (|f.inner| >= 20 && f.inner[0] / 16 == 4 && 5 <= f.inner[0] % 16
                                && f.inner[0] % 16 * 4 <= |f.inner|))
            then HasHalf(es'[x], f, now) || (es'[x] == EMPTY && es[x].key == f.key && Live(es[x], now))
            else r == None && forall y :: 0 <= y < SLOTS ==> es'[y] == es[y] || (es'[y] == EMPTY && Expired(es[y], now))
  {
    PickFacts(h, es, f.key, now);
    var t, x := Probed(h, es, f.key, now), Pick(h, es, f.key, now);
    assert Occupied(t[x]) ==> t[x] == es[x];
  }

  lemma StoreKeepsInv(h: Hash, t: Table, x: nat, k: Key, e: Entry)
    requires TableInv(h, t) && x < SLOTS && Dist(h, k, x) < PROBES
    requires forall y :: 0 <= y < SLOTS && y != x && Occupied(t[y]) ==> t[y].key != k
    requires Occupied(e) ==> e.key == k
    ensures TableInv(h, t[x := e])
  {
  }

  lemma ArriveKeepsInv(h: Hash, es: Table, f: Fragment, now: u64)
    requires TableInv(h, es)
    ensures TableInv(h, Arrive(h, es, f, now).0)
  {
    var t, x := Probed(h, es, f.key, now), Pick(h, es, f.key, now);
    PickFacts(h, es, f.key, now);
    assert TableInv(h, t);
    StoreKeepsInv(h, t, x, f.key, EMPTY);
    StoreKeepsInv(h, t, x, f.key, Stored(t[x], f, now));
  }

  lemma CollectKeepsInv(h: Hash, es: Table, now: u64)
    requires TableInv(h, es)
    ensures TableInv(h, Collected(es, now))
  {
  }

  // ---- the ideal reassembler ----------------------------------------------

  /** An unbounded reassembler: one pending datagram per key, nothing is ever evicted. */
  datatype Pending = Pending(flowSeq: u32, stamp: u64, first: Option<Head>, second: Option<seq<byte>>)
  type Ideal = map<Key, Pending>

  function Unexpired(m: Ideal, now: u64): Ideal {
    map k | k in m && Age(now, m[k].stamp) <= TIMEOUT :: m[k]
  }

  function IdealStored(live: Ideal, f: Fragment, now: u64): Pending {
    var was := if f.key in live && live[f.key].flowSeq == f.flowSeq then live[f.key]
               else Pending(f.flowSeq, now, None, None);
    if f.second then Pending(f.flowSeq, now, was.first, Some(f.inner))
    else Pending(f.flowSeq, now, Some(Head(f.eth, f.inner)), was.second)
  }

  function IdealArrive(m: Ideal, f: Fragment, now: u64): (Ideal, Option<seq<byte>>) {
    var live := Unexpired(m, now);
    if !Acceptable(f) then (live, None)
    else
      var p := IdealStored(live, f, now);
      if p.first.Some? && p.second.Some? then (live - {f.key}, Join(p.first.value, p.second.value))
      else (live[f.key := p], None)
  }

  function PendingOf(e: Entry): Pending { Pending(e.flowSeq, e.stamp, e.first, e.second) }

  ghost predicate Holds(es: Table, k: Key, t: u64) {
    exists x :: 0 <= x < SLOTS && Live(es[x], t) && es[x].key == k
  }

  /** At time `t` the table holds exactly the ideal reassembler's unexpired datagrams. */
  ghost predicate Represents(es: Table, m: Ideal, t: u64) {
    && (forall x :: 0 <= x < SLOTS && Occupied(es[x]) ==> es[x].stamp <= t)
    && (forall k :: k in m ==> m[k].stamp <= t && (m[k].first.Some? || m[k].second.Some?))
    && (forall x :: 0 <= x < SLOTS && Live(es[x], t) ==>
          es[x].key in m && m[es[x].key] == PendingOf(es[x]))
    && (forall k :: k in m && Age(t, m[k].stamp) <= TIMEOUT ==> Holds(es, k, t))
  }

  /** Time passes: what is still alive was alive before. */
  lemma RepresentsLater(es: Table, m: Ideal, t: u64, now: u64)
    requires Represents(es, m, t) && t <= now
    ensures Represents(es, m, now) && Represents(es, Unexpired(m, now), now)
  {
  }

  /** Forgetting expired entries is invisible. */
  lemma RepresentsSwept(es: Table, es': Table, m: Ideal, now: u64)
    requires Represents(es, m, now)
    requires forall y :: 0 <= y < SLOTS ==> es'[y] == es[y] || (es'[y] == EMPTY && Expired(es[y], now))
    ensures Represents(es', m, now)
  {
  }

  ghost function WindowKeys(h: Hash, es: Table, k: Key): seq<Key> {
    seq(PROBES, i requires 0 <= i < PROBES => es[At(h, k, i)].key)
  }

  /** A sequence without repetitions has as many members as positions. */
  lemma {:induction false} DistinctCount(ks: seq<Key>)
    requires forall i, j :: 0 <= i < j < |ks| ==> ks[i] != ks[j]
    ensures |set k | k in ks| == |ks|
  {
    if ks != [] {
      var init, last := ks[..|ks| - 1], ks[|ks| - 1];
      DistinctCount(init);
      assert (set k | k in ks) == (set k | k in init) + {last};
    }
  }

  lemma WindowDistinct(h: Hash, es: Table, k: Key, now: u64, i: nat, j: nat)
    requires TableInv(h, es) && i < j < PROBES
    requires Live(es[At(h, k, i)], now) && Live(es[At(h, k, j)], now)
    ensures es[At(h, k, i)].key != es[At(h, k, j)].key
  {
  }

  /** All eight probes hold live entries of other datagrams. */
  predicate FullWindow(h: Hash, es: Table, k: Key, now: u64) {
    forall i :: 0 <= i < 8 ==> Live(es[At(h, k, i)], now) && es[At(h, k, i)].key != k
  }

  /** With a probe free or its own, the picked slot is free or belongs to the datagram. */
  lemma NoEviction(h: Hash, es: Table, m: Ideal, k: Key, now: u64)
    requires TableInv(h, es) && Represents(es, m, now) && !FullWindow(h, es, k, now)
    requires forall j :: j in m ==> Age(now, m[j].stamp) <= TIMEOUT
    ensures var x, t := Pick(h, es, k, now), Probed(h, es, k, now);
            if k in m then Live(t[x], now) && t[x].key == k else !Occupied(t[x])
  {
    var x, t := Pick(h, es, k, now), Probed(h, es, k, now);
    PickFacts(h, es, k, now);
    if k in m {
      assert Holds(es, k, now);
      var y :| 0 <= y < SLOTS && Live(es[y], now) && es[y].key == k;
      assert t[y] == es[y];
    }
  }

  /** Overwriting the picked slot with what the ideal now holds for the datagram. */
  lemma RepresentsStore(t: Table, live: Ideal, k: Key, x: nat, e: Entry, now: u64)
    requires Represents(t, live, now) && x < SLOTS
    requires forall y :: 0 <= y < SLOTS && y != x && Occupied(t[y]) ==> t[y].key != k
    requires Live(t[x], now) ==> t[x].key == k
    requires Occupied(e) ==> e.key == k && e.stamp == now
    ensures Represents(t[x := e], if Occupied(e) then live[k := PendingOf(e)] else live - {k}, now)
  {
    var t' := t[x := e];
    var m' := if Occupied(e) then live[k := PendingOf(e)] else live - {k};
    forall j | j in m' && Age(now, m'[j].stamp) <= TIMEOUT ensures Holds(t', j, now) {
      if j == k {
        assert t'[x] == e && Live(e, now);
      } else {
        assert Holds(t, j, now);
        var y :| 0 <= y < SLOTS && Live(t[y], now) && t[y].key == j;
        assert t'[y] == t[y];
      }
    }
  }

  /** With room in the window, the slot after the store is what the ideal reassembler stores. */
  lemma StoredIsIdeal(h: Hash, es: Table, live: Ideal, f: Fragment, now: u64)
    requires TableInv(h, es) && Represents(es, live, now) && !FullWindow(h, es, f.key, now)
    requires forall j :: j in live ==> Age(now, live[j].stamp) <= TIMEOUT
    ensures var e := Stored(Probed(h, es, f.key, now)[Pick(h, es, f.key, now)], f, now);
            PendingOf(e) == IdealStored(live, f, now) && e.key == f.key
  {
    var t, x := Probed(h, es, f.key, now), Pick(h, es, f.key, now);
    NoEviction(h, es, live, f.key, now);
    PickFacts(h, es, f.key, now);
    assert Occupied(t[x]) ==> t[x] == es[x];
  }

  lemma StoreRefines(h: Hash, es: Table, live: Ideal, f: Fragment, now: u64)
    requires TableInv(h, es) && Represents(es, live, now) && Acceptable(f) && !FullWindow(h, es, f.key, now)
    requires forall j :: j in live ==> Age(now, live[j].stamp) <= TIMEOUT
    ensures var p := IdealStored(live, f, now);
            if p.first.Some? && p.second.Some?
            then && Arrive(h, es, f, now).1 == Join(p.first.value, p.second.value)
                 && Represents(Arrive(h, es, f, now).0, live - {f.key}, now)
            else && Arrive(h, es, f, now).1 == None
                 && Represents(Arrive(h, es, f, now).0, live[f.key := p], now)
  {
    var t, x := Probed(h, es, f.key, now), Pick(h, es, f.key, now);
    StoredIsIdeal(h, es, live, f, now);
    NoEviction(h, es, live, f.key, now);
    PickFacts(h, es, f.key, now);
    RepresentsSwept(es, t, live, now);
    var e := Stored(t[x], f, now);
    if e.first.Some? && e.second.Some? {
      RepresentsStore(t, live, f.key, x, EMPTY, now);
    } else {
      RepresentsStore(t, live, f.key, x, e, now);
    }
  }

  /** A fragment that is stored finds no free probe and no half of its own datagram. */
  predicate MeetsFullWindow(h: Hash, es: Table, f: Fragment, now: u64) {
    Acceptable(f) && FullWindow(h, es, f.key, now)
  }

  /** One arrival that finds a probe free or its own: the bounded table answers exactly as the
      unbounded reassembler does. */
  lemma ArriveRefines(h: Hash, es: Table, m: Ideal, f: Fragment, t: u64, now: u64)
    requires TableInv(h, es) && Represents(es, m, t) && t <= now
    requires !MeetsFullWindow(h, es, f, now)
    ensures Arrive(h, es, f, now).1 == IdealArrive(m, f, now).1
    ensures Represents(Arrive(h, es, f, now).0, IdealArrive(m, f, now).0, now)
  {
    var live := Unexpired(m, now);
    RepresentsLater(es, m, t, now);
    if Acceptable(f) {
      StoreRefines(h, es, live, f, now);
    } else {
      PickFacts(h, es, f.key, now);
      RepresentsSwept(es, Probed(h, es, f.key, now), live, now);
    }
  }

  /** In a full window nothing is cleared, and the oldest entry is picked. */
  lemma FullWindowPicks(h: Hash, es: Table, k: Key, now: u64)
    requires FullWindow(h, es, k, now)
    ensures Probed(h, es, k, now) == es
    ensures Pick(h, es, k, now) == At(h, k, Oldest(h, es, k, now, PROBES))
  {
    FirstMatchIsFirst(h, es, k, now, 0);
    FirstFreeIsFirst(h, es, k, now, 0);
    SweptAt(h, es, k, now, PROBES);
    forall y | 0 <= y < SLOTS ensures Probed(h, es, k, now)[y] == es[y] {
      if Dist(h, k, y) < PROBES { AtDist(h, k, y); }
    }
  }

  /** A datagram meeting a full window overwrites the datagram in it that has waited longest. */
  lemma FullWindowEvicts(h: Hash, es: Table, f: Fragment, now: u64) returns (v: nat)
    requires TableInv(h, es) && MeetsFullWindow(h, es, f, now)
    ensures v < PROBES && !Holds(Arrive(h, es, f, now).0, es[At(h, f.key, v)].key, now)
    ensures forall i :: 0 <= i < PROBES ==> Age(now, es[At(h, f.key, i)].stamp) <= Age(now, es[At(h, f.key, v)].stamp)
  {
    v := Oldest(h, es, f.key, now, PROBES);
    OldestIsOldest(h, es, f.key, now, PROBES);
    FullWindowPicks(h, es, f.key, now);
    var x := At(h, f.key, v);
    assert Arrive(h, es, f, now).0 == es[x := Stored(es[x], f, now)];
  }

  /** The exact condition: an arrival loses nothing if and only if it meets no full window. */
  lemma KeepsAllIff(h: Hash, es: Table, m: Ideal, f: Fragment, t: u64, now: u64)
    requires TableInv(h, es) && Represents(es, m, t) && t <= now
    ensures Represents(Arrive(h, es, f, now).0, IdealArrive(m, f, now).0, now) <==> !MeetsFullWindow(h, es, f, now)
  {
    if MeetsFullWindow(h, es, f, now) {
      var v := FullWindowEvicts(h, es, f, now);
      var k := es[At(h, f.key, v)].key;
      RepresentsLater(es, m, t, now);
      assert k in Unexpired(m, now);
      assert k in IdealArrive(m, f, now).0 && IdealArrive(m, f, now).0[k] == m[k];
    } else {
      ArriveRefines(h, es, m, f, t, now);
    }
  }

  /** A full window of other datagrams means eight of them are pending. */
  lemma FullWindowCount(h: Hash, es: Table, m: Ideal, k: Key, now: u64)
    requires TableInv(h, es) && FullWindow(h, es, k, now)
    requires forall x :: 0 <= x < SLOTS && Live(es[x], now) ==> es[x].key in m
    ensures |m.Keys - {k}| >= PROBES
  {
    var ks := WindowKeys(h, es, k);
    forall i, j | 0 <= i < j < PROBES ensures ks[i] != ks[j] {
      WindowDistinct(h, es, k, now, i, j);
    }
    DistinctCount(ks);
    SubsetCount((set j | j in ks), m.Keys - {k});
  }

  lemma FullWindowForeign(h: Hash, es: Table, k: Key, now: u64)
    requires TableInv(h, es) && FullWindow(h, es, k, now)
    ensures !Holds(es, k, now)
  {
    if Holds(es, k, now) {
      var y :| 0 <= y < SLOTS && Live(es[y], now) && es[y].key == k;
      AtDist(h, k, y);
    }
  }

  /** An arrival that meets a full window leaves at least nine datagrams pending. */
  lemma FullWindowMeansNine(h: Hash, es: Table, m: Ideal, f: Fragment, t: u64, now: u64)
    requires TableInv(h, es) && Represents(es, m, t) && t <= now
    requires MeetsFullWindow(h, es, f, now)
    ensures |IdealArrive(m, f, now).0| > PROBES
  {
    var live := Unexpired(m, now);
    RepresentsLater(es, m, t, now);
    FullWindowForeign(h, es, f.key, now);
    assert f.key !in live;
    FullWindowCount(h, es, live, f.key, now);
    assert IdealArrive(m, f, now).0.Keys == live.Keys + {f.key};
    assert live.Keys - {f.key} == live.Keys;
  }

  // ---- runs ----------------------------------------------------------------

  datatype Event = Arrival(f: Fragment, now: u64) | Collect(now: u64)

  function RunTable(h: Hash, es: Table, evs: seq<Event>): (Table, seq<Option<seq<byte>>>)
    decreases |evs|
  {
    if evs == [] then (es, [])
    else match evs[0]
      case Arrival(f, now) =>
        var (es1, o) := Arrive(h, es, f, now);
        var (es2, os) := RunTable(h, es1, evs[1..]);
        (es2, [o] + os)
      case Collect(now) => RunTable(h, Collected(es, now), evs[1..])
  }

  lemma {:induction false} RunKeepsInv(h: Hash, es: Table, evs: seq<Event>)
    requires TableInv(h, es)
    ensures TableInv(h, RunTable(h, es, evs).0)
    decreases |evs|
  {
    if evs != [] {
      match evs[0] {
        case Arrival(f, now) =>
          ArriveKeepsInv(h, es, f, now);
          RunKeepsInv(h, Arrive(h, es, f, now).0, evs[1..]);
        case Collect(now) =>
          CollectKeepsInv(h, es, now);
          RunKeepsInv(h, Collected(es, now), evs[1..]);
      }
    }
  }

  function RunIdeal(m: Ideal, evs: seq<Event>): (Ideal, seq<Option<seq<byte>>>)
    decreases |evs|
  {
    if evs == [] then (m, [])
    else match evs[0]
      case Arrival(f, now) =>
        var (m1, o) := IdealArrive(m, f, now);
        var (m2, os) := RunIdeal(m1, evs[1..]);
        (m2, [o] + os)
      case Collect(now) => RunIdeal(m, evs[1..])
  }

  /** The clock never runs backwards from `t`. */
  ghost predicate Monotone(t: u64, evs: seq<Event>)
    decreases |evs|
  {
    evs == [] || (t <= evs[0].now && Monotone(evs[0].now, evs[1..]))
  }

  /** No arrival of the run meets a full window. */
  predicate NoFullWindow(h: Hash, es: Table, evs: seq<Event>)
    decreases |evs|
  {
    evs == [] ||
    match evs[0]
    case Arrival(f, now) => !MeetsFullWindow(h, es, f, now) && NoFullWindow(h, Arrive(h, es, f, now).0, evs[1..])
    case Collect(now) => NoFullWindow(h, Collected(es, now), evs[1..])
  }

  lemma CollectRepresents(h: Hash, es: Table, m: Ideal, t: u64, now: u64)
    requires TableInv(h, es) && Represents(es, m, t) && t <= now
    ensures TableInv(h, Collected(es, now)) && Represents(Collected(es, now), m, now)
  {
    RepresentsLater(es, m, t, now);
    RepresentsSwept(es, Collected(es, now), m, now);
    CollectKeepsInv(h, es, now);
  }

  /** Main theorem: over every run in which no arrival meets a full window, the 256-entry table
      with 8 probes produces exactly the outputs of the unbounded reassembler. */
  lemma {:induction false} TableRefinesIdeal(h: Hash, es: Table, m: Ideal, t: u64, evs: seq<Event>)
    requires TableInv(h, es) && Represents(es, m, t)
    requires Monotone(t, evs) && NoFullWindow(h, es, evs)
    ensures RunTable(h, es, evs).1 == RunIdeal(m, evs).1
    decreases |evs|
  {
    if evs != [] {
      match evs[0] {
        case Arrival(f, now) =>
          ArriveRefines(h, es, m, f, t, now);
          ArriveKeepsInv(h, es, f, now);
          TableRefinesIdeal(h, Arrive(h, es, f, now).0, IdealArrive(m, f, now).0, now, evs[1..]);
        case Collect(now) =>
          CollectRepresents(h, es, m, t, now);
          TableRefinesIdeal(h, Collected(es, now), m, now, evs[1..]);
      }
    }
  }

  /** No more than eight datagrams are ever pending at once. */
  ghost predicate AtMostEightPending(m: Ideal, evs: seq<Event>)
    decreases |evs|
  {
    evs == [] ||
    match evs[0]
    case Arrival(f, now) => |IdealArrive(m, f, now).0| <= 8
                            && AtMostEightPending(IdealArrive(m, f, now).0, evs[1..])
    case Collect(now) => AtMostEightPending(m, evs[1..])
  }

  /** While at most eight datagrams are pending at once, no arrival meets a full window, whatever
      the hash. */
  lemma {:induction false} EightSuffice(h: Hash, es: Table, m: Ideal, t: u64, evs: seq<Event>)
    requires TableInv(h, es) && Represents(es, m, t)
    requires Monotone(t, evs) && AtMostEightPending(m, evs)
    ensures NoFullWindow(h, es, evs)
    decreases |evs|
  {
    if evs != [] {
      match evs[0] {
        case Arrival(f, now) =>
          if MeetsFullWindow(h, es, f, now) { FullWindowMeansNine(h, es, m, f, t, now); }
          ArriveRefines(h, es, m, f, t, now);
          ArriveKeepsInv(h, es, f, now);
          EightSuffice(h, Arrive(h, es, f, now).0, IdealArrive(m, f, now).0, now, evs[1..]);
        case Collect(now) =>
          CollectRepresents(h, es, m, t, now);
          EightSuffice(h, Collected(es, now), m, now, evs[1..]);
      }
    }
  }
}
