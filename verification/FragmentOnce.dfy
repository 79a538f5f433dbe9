/** Over a network that loses and reorders but does not duplicate, nothing is delivered twice. */
module FragmentOnce {
  import opened Bytes
  import opened Limits
  import opened Wire
  import opened Codec
  import opened Reassembly
  import opened FragmentRun

  // ---- fresh labels ----------------------------------------------------------

  /** While a worker has numbered at most 2^32 datagrams in this epoch, its ids are below its count. */
  ghost predicate Numbered(s: Net) {
    && |s.counts| == WORKERS
    && (forall l :: l in s.sent ==> l.worker < WORKERS && Sendable(s.sent[l]))
    && (forall l :: l in s.sent && l.epoch == s.epoch && s.counts[l.worker] <= 0x1_0000_0000 ==>
          l.id < s.counts[l.worker])
  }

  /** The sender's side of the bargain: fewer than 2^32 datagrams per worker and epoch, and no
      epoch used twice. The other steps keep their own guards. */
  predicate Disciplined(c: Cipher, s: Net, step: Step) {
    match step
    case Send(w, _, d) => w < WORKERS == |s.counts| && Sendable(d) && s.counts[w] < 0x1_0000_0000
    case Restart(e) => forall l :: l in s.sent ==> l.epoch != e
    case _ => Enabled(c, s, step)
  }

  lemma SendKeepsNumbered(c: Cipher, h: Hash, s: Net, step: Step)
    requires Numbered(s) && Disciplined(c, s, step) && step.Send?
    ensures Enabled(c, s, step) && Numbered(Apply(c, h, s, step))
  {
    var l := NextLabel(s, step.worker, step.flowSeq);
    assert l.id == s.counts[step.worker];
    assert l !in s.sent;
  }

  lemma RestartKeepsNumbered(c: Cipher, h: Hash, s: Net, step: Step)
    requires Numbered(s) && Disciplined(c, s, step) && step.Restart?
    ensures Numbered(Apply(c, h, s, step))
  {
  }

  lemma OthersKeepNumbered(c: Cipher, h: Hash, s: Net, step: Step)
    requires Numbered(s) && Enabled(c, s, step) && !step.Send? && !step.Restart?
    ensures Numbered(Apply(c, h, s, step))
  {
    var s' := Apply(c, h, s, step);
    assert s'.sent == s.sent && s'.counts == s.counts && s'.epoch == s.epoch;
  }

  /** Under that discipline labels never repeat, so every send is enabled. */
  lemma DisciplineSuffices(c: Cipher, h: Hash, s: Net, step: Step)
    requires Numbered(s) && Disciplined(c, s, step)
    ensures Enabled(c, s, step) && Numbered(Apply(c, h, s, step))
  {
    if step.Send? {
      SendKeepsNumbered(c, h, s, step);
    } else if step.Restart? {
      RestartKeepsNumbered(c, h, s, step);
    } else {
      OthersKeepNumbered(c, h, s, step);
    }
  }

  /** Every step of the run keeps the discipline. */
  ghost predicate DisciplinedRun(c: Cipher, h: Hash, s: Net, steps: seq<Step>)
    requires Numbered(s)
    decreases |steps|
  {
    steps == [] ||
    (Disciplined(c, s, steps[0]) &&
     (DisciplineSuffices(c, h, s, steps[0]); DisciplinedRun(c, h, Apply(c, h, s, steps[0]), steps[1..])))
  }

  /** So over whole runs every send uses a label never used before. */
  lemma {:induction false} DisciplineEnables(c: Cipher, h: Hash, s: Net, steps: seq<Step>)
    requires Numbered(s) && DisciplinedRun(c, h, s, steps)
    ensures Runs(c, h, s, steps)
    decreases |steps|
  {
    if steps != [] {
      DisciplineSuffices(c, h, s, steps[0]);
      DisciplineEnables(c, h, Apply(c, h, s, steps[0]), steps[1..]);
    }
  }

  // ---- tokens ----------------------------------------------------------------

  ghost predicate HoldsHalf(w: nat, es: Table, l: Label, second: bool) {
    exists x :: 0 <= x < SLOTS && LabelOf(w, es[x]) == l
                && (if second then es[x].second.Some? else es[x].first.Some?)
  }

  function Emitted(s: Net, l: Label): nat
    requires l in s.sent
  {
    s.out[Delivery(l, s.sent[l].p)]
  }

  /** Where half a datagram can be: in flight as frame `f`, in a table, or delivered with the whole. */
  ghost function Tokens(s: Net, l: Label, f: seq<byte>, second: bool): nat
    requires |s.tables| == WORKERS && l in s.sent && l.worker < WORKERS
  {
    s.wire[f] + (if HoldsHalf(l.worker, s.tables[l.worker], l, second) then 1 else 0) + Emitted(s, l)
  }

  /** One token per frame `fs` of the datagram. */
  ghost predicate OnceFor(s: Net, l: Label, fs: seq<seq<byte>>)
    requires |s.tables| == WORKERS && l in s.sent && l.worker < WORKERS
  {
    if s.sent[l].Whole? then |fs| == 1 && s.wire[fs[0]] + Emitted(s, l) <= 1
    else |fs| == 2 && Tokens(s, l, fs[0], false) <= 1 && Tokens(s, l, fs[1], true) <= 1
  }

  ghost predicate Once(c: Cipher, h: Hash, s: Net) {
    && Safe(c, h, s)
    && (forall l :: l in s.sent ==>
          l.worker < WORKERS && Sendable(s.sent[l]) && OnceFor(s, l, Frames(c, l, s.sent[l])))
  }

  lemma FrameOpens(c: Cipher, l: Label, d: Datagram, i: nat)
    requires Lawful(c) && l.worker < WORKERS && Sendable(d) && i < |Frames(c, l, d)|
    ensures var f := Frames(c, l, d)[i];
            && |f| > L3_OFF && f[L3_OFF] == l.worker && OpenUdp(c, f).Some?
            && OpenUdp(c, f).value.shim ==
               ShimFor(if d.Whole? then Full else if i == 0 then Frag0 else Frag1, MetaOf(l))
  {
    match d
    case Whole(p, n) =>
      OpenUdpFrame(c, p[..ET_OFF], l.worker, n, ShimFor(Full, MetaOf(l)), p[L3_OFF..]);
    case Halves(p, n0, n1) =>
      OpenUdpFrame(c, p[..ET_OFF], l.worker, if i == 0 then n0 else n1,
                   ShimFor(if i == 0 then Frag0 else Frag1, MetaOf(l)),
                   if i == 0 then p[L3_OFF..L3_OFF + HeadLen(p)] else p[L3_OFF + HeadLen(p)..]);
  }

  /** A frame tells which datagram and which half it is. */
  lemma FrameDecides(c: Cipher, l: Label, d: Datagram, i: nat, l': Label, d': Datagram, i': nat)
    requires Lawful(c) && l.worker < WORKERS && l'.worker < WORKERS && Sendable(d) && Sendable(d')
    requires i < |Frames(c, l, d)| && i' < |Frames(c, l', d')|
    requires Frames(c, l, d)[i] == Frames(c, l', d')[i']
    ensures l == l' && i == i' && d.Whole? == d'.Whole?
  {
    FrameOpens(c, l, d, i);
    FrameOpens(c, l', d', i');
  }

  /** No frame in flight carries a label that was never used. */
  lemma UnusedNotInFlight(c: Cipher, h: Hash, s: Net, l: Label, d: Datagram, i: nat)
    requires Lawful(c) && Safe(c, h, s) && l !in s.sent && l.worker < WORKERS
    requires Sendable(d) && i < |Frames(c, l, d)|
    ensures s.wire[Frames(c, l, d)[i]] == 0
  {
    var f := Frames(c, l, d)[i];
    if f in s.wire {
      assert Authored(c, s.sent, f);
      var k :| k in s.sent && Sendable(s.sent[k]) && k.worker < WORKERS && f in Frames(c, k, s.sent[k]);
      var j: nat :| j < |Frames(c, k, s.sent[k])| && Frames(c, k, s.sent[k])[j] == f;
      FrameDecides(c, l, d, i, k, s.sent[k], j);
    }
  }

  /** Sending leaves the count of every other frame alone. */
  lemma SendKeepsCount(c: Cipher, s: Net, l: Label, d: Datagram, k: Label, i: nat)
    requires Lawful(c) && l !in s.sent && k in s.sent && l.worker < WORKERS && k.worker < WORKERS
    requires Sendable(d) && Sendable(s.sent[k]) && i < |Frames(c, k, s.sent[k])|
    ensures (s.wire + multiset(Frames(c, l, d)))[Frames(c, k, s.sent[k])[i]]
         == s.wire[Frames(c, k, s.sent[k])[i]]
  {
    var f := Frames(c, k, s.sent[k])[i];
    if f in Frames(c, l, d) {
      var j: nat :| j < |Frames(c, l, d)| && Frames(c, l, d)[j] == f;
      FrameDecides(c, l, d, j, k, s.sent[k], i);
    }
  }

  lemma SendNew(c: Cipher, h: Hash, s: Net, step: Step)
    requires Lawful(c) && Once(c, h, s) && step.Send? && Enabled(c, s, step)
    ensures var l := NextLabel(s, step.worker, step.flowSeq);
            OnceFor(Apply(c, h, s, step), l, Frames(c, l, step.d))
  {
    var l, d := NextLabel(s, step.worker, step.flowSeq), step.d;
    var s' := Apply(c, h, s, step);
    var fs := Frames(c, l, d);
    UnusedNotInFlight(c, h, s, l, d, 0);
    assert !(Delivery(l, d.p) in s.out);
    if d.Halves? {
      UnusedNotInFlight(c, h, s, l, d, 1);
      if fs[0] == fs[1] { FrameDecides(c, l, d, 0, l, d, 1); }
      assert multiset(fs) == multiset{fs[0], fs[1]};
      assert FaithfulTable(h, s.sent, l.worker, s.tables[l.worker]);
      assert !HoldsHalf(l.worker, s.tables[l.worker], l, false);
      assert !HoldsHalf(l.worker, s.tables[l.worker], l, true);
    } else {
      assert multiset(fs) == multiset{fs[0]};
    }
  }

  lemma LesserKeepsOnceFor(s: Net, s': Net, k: Label, fs: seq<seq<byte>>)
    requires |s.tables| == WORKERS && k in s.sent && k.worker < WORKERS && OnceFor(s, k, fs)
    requires s'.tables == s.tables && s'.out <= s.out && k in s'.sent && s'.sent[k] == s.sent[k]
    requires forall f :: f in fs ==> s'.wire[f] <= s.wire[f]
    ensures OnceFor(s', k, fs)
  {
  }

  lemma SendKeepsOld(c: Cipher, s: Net, s': Net, l: Label, d: Datagram, k: Label)
    requires Lawful(c) && |s.tables| == WORKERS && l !in s.sent && k in s.sent && Sendable(d) && l.worker < WORKERS
    requires k.worker < WORKERS && Sendable(s.sent[k]) && OnceFor(s, k, Frames(c, k, s.sent[k]))
    requires s'.tables == s.tables && s'.out == s.out && s'.sent == s.sent[l := d]
    requires s'.wire == s.wire + multiset(Frames(c, l, d))
    ensures OnceFor(s', k, Frames(c, k, s.sent[k]))
  {
    var fs := Frames(c, k, s.sent[k]);
    forall f | f in fs ensures s'.wire[f] <= s.wire[f] {
      var i: nat :| i < |fs| && fs[i] == f;
      SendKeepsCount(c, s, l, d, k, i);
    }
    LesserKeepsOnceFor(s, s', k, fs);
  }

  lemma SendKeepsOnce(c: Cipher, h: Hash, s: Net, step: Step)
    requires Lawful(c) && Once(c, h, s) && step.Send? && Enabled(c, s, step)
    ensures Once(c, h, Apply(c, h, s, step))
  {
    var l := NextLabel(s, step.worker, step.flowSeq);
    var s' := Apply(c, h, s, step);
    SendKeepsSafe(c, h, s, step);
    SendNew(c, h, s, step);
    forall k | k in s'.sent
      ensures k.worker < WORKERS && Sendable(s'.sent[k]) && OnceFor(s', k, Frames(c, k, s'.sent[k]))
    {
      if k != l {
        SendKeepsOld(c, s, s', l, step.d, k);
      }
    }
  }

  // ---- delivery --------------------------------------------------------------

  /** The other half in the arriving one's entry was there before. */
  lemma OtherHalfWasThere(h: Hash, sent: map<Label, Datagram>, w: nat, es: Table, l: Label, second: bool, now: u64)
    requires FaithfulTable(h, sent, w, es) && l in sent && l.worker == w
    requires sent[l].Halves? && Sendable(sent[l])
    ensures var f := Sent(l, sent[l].p, second);
            var e := Arrive(h, es, f, now).0[Pick(h, es, f.key, now)];
            (if second then e.first.Some? else e.second.Some?) ==> HoldsHalf(w, es, l, !second)
  {
    ArriveSent(h, sent, w, es, l, second, now);
  }

  /** A stored half moves nowhere but into the completed packet. */
  lemma ArriveMovesNone(h: Hash, sent: map<Label, Datagram>, w: nat, es: Table, l: Label, second: bool,
                        now: u64, k: Label, kSecond: bool)
    requires FaithfulTable(h, sent, w, es) && l in sent && l.worker == w
    requires sent[l].Halves? && Sendable(sent[l]) && (k, kSecond) != (l, second)
    requires HoldsHalf(w, Arrive(h, es, Sent(l, sent[l].p, second), now).0, k, kSecond)
    ensures HoldsHalf(w, es, k, kSecond)
  {
    var f := Sent(l, sent[l].p, second);
    var es' := Arrive(h, es, f, now).0;
    var x := Pick(h, es, f.key, now);
    ArriveSent(h, sent, w, es, l, second, now);
    var y :| 0 <= y < SLOTS && LabelOf(w, es'[y]) == k
             && (if kSecond then es'[y].second.Some? else es'[y].first.Some?);
    if y != x { assert es'[y] == es[y]; } else { OtherHalfWasThere(h, sent, w, es, l, second, now); }
  }

  lemma OneEntryPerLabel(h: Hash, es: Table, w: nat, x: nat, y: nat)
    requires TableInv(h, es) && x < SLOTS && y < SLOTS && Occupied(es[x]) && Occupied(es[y])
    requires LabelOf(w, es[x]) == LabelOf(w, es[y])
    ensures x == y
  {
  }

  /** Completing a packet takes both its halves out of the table. */
  lemma ArriveCompletes(h: Hash, sent: map<Label, Datagram>, w: nat, es: Table, l: Label, second: bool,
                        now: u64, kSecond: bool)
    requires FaithfulTable(h, sent, w, es) && l in sent && l.worker == w
    requires sent[l].Halves? && Sendable(sent[l])
    requires Arrive(h, es, Sent(l, sent[l].p, second), now).1.Some?
    ensures HoldsHalf(w, es, l, !second)
    ensures !HoldsHalf(w, Arrive(h, es, Sent(l, sent[l].p, second), now).0, l, kSecond)
  {
    var f := Sent(l, sent[l].p, second);
    var es' := Arrive(h, es, f, now).0;
    var x := Pick(h, es, f.key, now);
    ArriveSent(h, sent, w, es, l, second, now);
    if HoldsHalf(w, es', l, kSecond) {
      var y :| 0 <= y < SLOTS && LabelOf(w, es'[y]) == l
               && (if kSecond then es'[y].second.Some? else es'[y].first.Some?);
      assert es'[x] == EMPTY && es'[y] == es[y];
      assert if second then es[x].first.Some? else es[x].second.Some?;
      OneEntryPerLabel(h, es, w, x, y);
    }
  }

  /** Token arithmetic of one absorbed half: it leaves the wire and is stored, lost or delivered. */
  lemma HalfTokens(s: Net, l: Label, f: seq<byte>, second: bool, es: Table, r: Option<seq<byte>>,
                   k: Label, fs: seq<seq<byte>>)
    requires |s.tables| == WORKERS && l in s.sent && l.worker < WORKERS && k in s.sent && k.worker < WORKERS
    requires s.sent[l].Halves? && s.wire[f] > 0 && Tokens(s, l, f, second) <= 1
    requires OnceFor(s, k, fs)
    requires if k == l then fs[if second then 1 else 0] == f != fs[if second then 0 else 1] else f !in fs
    requires r.Some? ==> r.value == s.sent[l].p && HoldsHalf(l.worker, s.tables[l.worker], l, !second)
    requires forall kSecond ::
               && ((k, kSecond) != (l, second) && HoldsHalf(l.worker, es, k, kSecond) ==>
                     HoldsHalf(l.worker, s.tables[l.worker], k, kSecond))
               && (r.Some? ==> !HoldsHalf(l.worker, es, l, kSecond))
    ensures OnceFor(s.(wire := s.wire - multiset{f}, tables := s.tables[l.worker := es],
                       out := if r.Some? then s.out + multiset{Delivery(l, r.value)} else s.out), k, fs)
  {
  }

  /** The state after half `second` of `l` was taken off the wire and met its table. */
  function HalfTaken(h: Hash, s: Net, l: Label, f: seq<byte>, second: bool, now: u64): Net
    requires |s.tables| == WORKERS && l in s.sent && l.worker < WORKERS
    requires Sendable(s.sent[l]) && s.sent[l].Halves?
  {
    var (es, r) := Arrive(h, s.tables[l.worker], Sent(l, s.sent[l].p, second), now);
    s.(wire := s.wire - multiset{f}, tables := s.tables[l.worker := es],
       out := if r.Some? then s.out + multiset{Delivery(l, r.value)} else s.out)
  }

  lemma TakeHalf(h: Hash, s: Net, l: Label, f: seq<byte>, second: bool, now: u64,
                 k: Label, fs: seq<seq<byte>>)
    requires |s.tables| == WORKERS && l in s.sent && l.worker < WORKERS && k in s.sent && k.worker < WORKERS
    requires Sendable(s.sent[l]) && s.sent[l].Halves? && FaithfulTable(h, s.sent, l.worker, s.tables[l.worker])
    requires s.wire[f] > 0 && Tokens(s, l, f, second) <= 1 && OnceFor(s, k, fs)
    requires if k == l then fs[if second then 1 else 0] == f != fs[if second then 0 else 1] else f !in fs
    ensures OnceFor(HalfTaken(h, s, l, f, second, now), k, fs)
  {
    var w, p := l.worker, s.sent[l].p;
    var (es, r) := Arrive(h, s.tables[w], Sent(l, p, second), now);
    ArriveSent(h, s.sent, w, s.tables[w], l, second, now);
    forall kSecond
      ensures && ((k, kSecond) != (l, second) && HoldsHalf(w, es, k, kSecond) ==>
                    HoldsHalf(w, s.tables[w], k, kSecond))
              && (r.Some? ==> HoldsHalf(w, s.tables[w], l, !second) && !HoldsHalf(w, es, l, kSecond))
    {
      if (k, kSecond) != (l, second) && HoldsHalf(w, es, k, kSecond) {
        ArriveMovesNone(h, s.sent, w, s.tables[w], l, second, now, k, kSecond);
      }
      if r.Some? { ArriveCompletes(h, s.sent, w, s.tables[w], l, second, now, kSecond); }
    }
    HalfTokens(s, l, f, second, es, r, k, fs);
  }

  /** Frame `i` of a datagram is none of the other frames ever sent. */
  lemma OtherFrames(c: Cipher, l: Label, d: Datagram, i: nat, k: Label, d': Datagram)
    requires Lawful(c) && l.worker < WORKERS && k.worker < WORKERS && Sendable(d) && Sendable(d')
    requires i < |Frames(c, l, d)|
    ensures forall j: nat :: j < |Frames(c, k, d')| && (k, j) != (l, i) ==>
              Frames(c, k, d')[j] != Frames(c, l, d)[i]
  {
    forall j: nat | j < |Frames(c, k, d')| && (k, j) != (l, i)
      ensures Frames(c, k, d')[j] != Frames(c, l, d)[i]
    {
      if Frames(c, k, d')[j] == Frames(c, l, d)[i] { FrameDecides(c, k, d', j, l, d, i); }
    }
  }

  lemma WholeTokens(s: Net, l: Label, f: seq<byte>, k: Label, fs: seq<seq<byte>>)
    requires |s.tables| == WORKERS && l in s.sent && l.worker < WORKERS && k in s.sent && k.worker < WORKERS
    requires s.sent[l].Whole? && s.wire[f] > 0 && OnceFor(s, k, fs)
    requires if k == l then fs[0] == f else f !in fs
    ensures OnceFor(s.(wire := s.wire - multiset{f}, out := s.out + multiset{Delivery(l, s.sent[l].p)}), k, fs)
  {
  }

  lemma HalfKeepsOnce(c: Cipher, h: Hash, s: Net, l: Label, second: bool, now: u64)
    requires Lawful(c) && Once(c, h, s) && l in s.sent && s.sent[l].Halves?
    requires s.wire[Frames(c, l, s.sent[l])[if second then 1 else 0]] > 0
    ensures var f := Frames(c, l, s.sent[l])[if second then 1 else 0];
            forall k :: k in s.sent ==>
              OnceFor(HalfTaken(h, s, l, f, second, now), k, Frames(c, k, s.sent[k]))
  {
    var f := Frames(c, l, s.sent[l])[if second then 1 else 0];
    assert OnceFor(s, l, Frames(c, l, s.sent[l])) && FaithfulTable(h, s.sent, l.worker, s.tables[l.worker]);
    forall k | k in s.sent
      ensures OnceFor(HalfTaken(h, s, l, f, second, now), k, Frames(c, k, s.sent[k]))
    {
      var fs := Frames(c, k, s.sent[k]);
      OtherFrames(c, l, s.sent[l], if second then 1 else 0, k, s.sent[k]);
      if k != l {
        forall g | g in fs ensures g != f {}
      }
      TakeHalf(h, s, l, f, second, now, k, fs);
    }
  }

  lemma WholeKeepsOnce(c: Cipher, h: Hash, s: Net, l: Label)
    requires Lawful(c) && Once(c, h, s) && l in s.sent && s.sent[l].Whole?
    requires s.wire[Frames(c, l, s.sent[l])[0]] > 0
    ensures var f := Frames(c, l, s.sent[l])[0];
            forall k :: k in s.sent ==>
              OnceFor(s.(wire := s.wire - multiset{f}, out := s.out + multiset{Delivery(l, s.sent[l].p)}),
                      k, Frames(c, k, s.sent[k]))
  {
    var f := Frames(c, l, s.sent[l])[0];
    forall k | k in s.sent
      ensures OnceFor(s.(wire := s.wire - multiset{f}, out := s.out + multiset{Delivery(l, s.sent[l].p)}),
                      k, Frames(c, k, s.sent[k]))
    {
      OtherFrames(c, l, s.sent[l], 0, k, s.sent[k]);
      WholeTokens(s, l, f, k, Frames(c, k, s.sent[k]));
    }
  }

  lemma AbsorbHalf(c: Cipher, h: Hash, s: Net, l: Label, f: seq<byte>, second: bool, now: u64)
    requires Lawful(c) && |s.tables| == WORKERS && l in s.sent && l.worker < WORKERS
    requires Sendable(s.sent[l]) && s.sent[l].Halves?
    requires f == Frames(c, l, s.sent[l])[if second then 1 else 0]
    ensures Absorb(c, h, s.(wire := s.wire - multiset{f}), f, now) == HalfTaken(h, s, l, f, second, now)
  {
    ReceiveHalf(c, h, s.tables, l, s.sent[l], second, now);
  }

  lemma AbsorbWhole(c: Cipher, h: Hash, s: Net, l: Label, f: seq<byte>, now: u64)
    requires Lawful(c) && |s.tables| == WORKERS && l in s.sent && l.worker < WORKERS
    requires Sendable(s.sent[l]) && s.sent[l].Whole? && f == Frames(c, l, s.sent[l])[0]
    ensures Absorb(c, h, s.(wire := s.wire - multiset{f}), f, now)
         == s.(wire := s.wire - multiset{f}, out := s.out + multiset{Delivery(l, s.sent[l].p)})
  {
    ReceiveWhole(c, h, s.tables, l, s.sent[l], now);
  }

  lemma DeliverKeepsTokens(c: Cipher, h: Hash, s: Net, l: Label, f: seq<byte>, now: u64)
    requires Lawful(c) && Once(c, h, s) && f in s.wire && l in s.sent && f in Frames(c, l, s.sent[l])
    ensures var s' := Absorb(c, h, s.(wire := s.wire - multiset{f}), f, now);
            && s'.sent == s.sent && |s'.tables| == WORKERS
            && forall k :: k in s.sent ==> OnceFor(s', k, Frames(c, k, s.sent[k]))
  {
    if s.sent[l].Whole? {
      AbsorbWhole(c, h, s, l, f, now);
      WholeKeepsOnce(c, h, s, l);
    } else {
      AbsorbHalf(c, h, s, l, f, f != Frames(c, l, s.sent[l])[0], now);
      HalfKeepsOnce(c, h, s, l, f != Frames(c, l, s.sent[l])[0], now);
    }
  }

  lemma DeliverKeepsOnce(c: Cipher, h: Hash, s: Net, f: seq<byte>, now: u64)
    requires Lawful(c) && Once(c, h, s) && f in s.wire
    ensures Once(c, h, Absorb(c, h, s.(wire := s.wire - multiset{f}), f, now))
  {
    DeliverKeepsSafe(c, h, s.(wire := s.wire - multiset{f}), f, now);
    assert Authored(c, s.sent, f);
    var l :| l in s.sent && Sendable(s.sent[l]) && l.worker < WORKERS && f in Frames(c, l, s.sent[l]);
    DeliverKeepsTokens(c, h, s, l, f, now);
  }

  lemma CollectTokens(h: Hash, s: Net, w: nat, now: u64, k: Label, fs: seq<seq<byte>>)
    requires |s.tables| == WORKERS && k in s.sent && k.worker < WORKERS && w < WORKERS && OnceFor(s, k, fs)
    ensures OnceFor(s.(tables := s.tables[w := Collected(s.tables[w], now)]), k, fs)
  {
  }

  lemma CollectKeepsOnce(c: Cipher, h: Hash, s: Net, w: nat, now: u64)
    requires Once(c, h, s) && w < WORKERS
    ensures Once(c, h, s.(tables := s.tables[w := Collected(s.tables[w], now)]))
  {
    CollectKeepsSafe(c, h, s, w, now);
    forall k | k in s.sent
      ensures OnceFor(s.(tables := s.tables[w := Collected(s.tables[w], now)]), k, Frames(c, k, s.sent[k]))
    {
      CollectTokens(h, s, w, now, k, Frames(c, k, s.sent[k]));
    }
  }

  /** Losing a frame or restarting the sender only takes tokens away. */
  lemma LesserKeepsOnce(c: Cipher, h: Hash, s: Net, s': Net)
    requires Once(c, h, s) && Safe(c, h, s')
    requires s'.sent == s.sent && s'.tables == s.tables && s'.out == s.out && s'.wire <= s.wire
    ensures Once(c, h, s')
  {
  }

  lemma StepKeepsOnce(c: Cipher, h: Hash, s: Net, step: Step)
    requires Lawful(c) && Once(c, h, s) && Enabled(c, s, step) && !step.Duplicate?
    ensures Once(c, h, Apply(c, h, s, step))
  {
    if step.Send? {
      SendKeepsOnce(c, h, s, step);
    } else if step.Deliver? {
      DeliverKeepsOnce(c, h, s, step.f, step.now);
    } else if step.Collect? {
      CollectKeepsOnce(c, h, s, step.worker, step.now);
    } else {
      StepKeepsSafe(c, h, s, step);
      LesserKeepsOnce(c, h, s, Apply(c, h, s, step));
    }
  }

  /** Main theorem: in a run without duplication no datagram reaches the LAN side twice. */
  lemma {:induction false} RunDeliversAtMostOnce(c: Cipher, h: Hash, s: Net, steps: seq<Step>)
    requires Lawful(c) && Once(c, h, s) && Runs(c, h, s, steps)
    requires forall i :: 0 <= i < |steps| ==> !steps[i].Duplicate?
    ensures Once(c, h, After(c, h, s, steps))
    ensures var s' := After(c, h, s, steps);
            forall l, p :: s'.out[Delivery(l, p)] <= 1
    decreases |steps|
  {
    if steps == [] {
      forall l, p ensures s.out[Delivery(l, p)] <= 1 {
        if Delivery(l, p) in s.out { assert OnceFor(s, l, Frames(c, l, s.sent[l])) && p == s.sent[l].p; }
      }
    } else {
      StepKeepsOnce(c, h, s, steps[0]);
      RunDeliversAtMostOnce(c, h, Apply(c, h, s, steps[0]), steps[1..]);
    }
  }

  lemma InitIsOnce(c: Cipher, h: Hash, s: Net)
    requires Init(s)
    ensures Once(c, h, s) && Numbered(s)
  {
  }

  /** From the cleared state, every disciplined run hands on only what was sent, and without
      duplication nothing twice. */
  lemma DisciplinedRunsDeliver(c: Cipher, h: Hash, s: Net, steps: seq<Step>)
    requires Lawful(c) && Init(s)
    ensures Numbered(s)
    ensures DisciplinedRun(c, h, s, steps) ==> Runs(c, h, s, steps)
    ensures DisciplinedRun(c, h, s, steps) ==>
              var s' := After(c, h, s, steps);
              && (forall d :: d in s'.out ==> d.from in s'.sent && d.packet == s'.sent[d.from].p)
              && ((forall i :: 0 <= i < |steps| ==> !steps[i].Duplicate?) ==> forall d :: s'.out[d] <= 1)
  {
    InitIsSafe(c, h, s);
    InitIsOnce(c, h, s);
    if DisciplinedRun(c, h, s, steps) {
      DisciplineEnables(c, h, s, steps);
      RunIsSafe(c, h, s, steps);
      if forall i :: 0 <= i < |steps| ==> !steps[i].Duplicate? {
        RunDeliversAtMostOnce(c, h, s, steps);
        var s' := After(c, h, s, steps);
        forall d ensures s'.out[d] <= 1 {
          assert s'.out[Delivery(d.from, d.packet)] <= 1;
        }
      }
    }
  }
}
