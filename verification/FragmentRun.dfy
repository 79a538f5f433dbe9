/** Runs of the whole fragment protocol: sending workers, a lossy network, receiving tables. */
module FragmentRun {
  import opened Bytes
  import opened Limits
  import opened Wire
  import opened Codec
  import opened Reassembly

  /** What identifies a datagram on the wire: the sealed ids and the worker byte. */
  datatype Label = Label(worker: nat, epoch: u32, id: u32, flowSeq: u32)
  datatype Datagram = Halves(p: seq<byte>, n0: Nonce, n1: Nonce) | Whole(p: seq<byte>, n: Nonce)
  datatype Delivery = Delivery(from: Label, packet: seq<byte>)

  datatype Net = Net(
    epoch: u32,                 // sender: current boot epoch
    counts: seq<nat>,           // sender: datagrams numbered so far, per worker
    sent: map<Label, Datagram>, // history of everything sent
    wire: multiset<seq<byte>>,  // frames in flight
    tables: seq<Table>,         // receiver: one reassembly table per worker
    out: multiset<Delivery>)    // history of everything handed to the LAN side

  datatype Step =
    | Send(worker: nat, flowSeq: u32, d: Datagram)
    | Restart(epoch: u32)
    | Duplicate(f: seq<byte>)
    | Lose(f: seq<byte>)
    | Deliver(f: seq<byte>, now: u64)
    | Noise(f: seq<byte>, now: u64)
    | Collect(worker: nat, now: u64)

  // ---- the sender ----------------------------------------------------------

  /** The datagram id is the low 32 bits of the worker's counter. */
  function NextLabel(s: Net, w: nat, flowSeq: u32): Label
    requires w < |s.counts|
  {
    Label(w, s.epoch, s.counts[w] % 0x1_0000_0000, flowSeq)
  }

  predicate Sendable(d: Datagram) {
    match d
    case Halves(p, _, _) => Splittable(p) && |p| <= JUMBO_MAX
    case Whole(p, _) => IsIpv4(p) && |p| + UDP_OVERHEAD <= JUMBO_MAX
  }

  function MetaOf(l: Label): Meta { Meta(l.epoch, l.flowSeq, l.id) }

  function Frames(c: Cipher, l: Label, d: Datagram): seq<seq<byte>>
    requires Sendable(d) && l.worker < WORKERS
  {
    match d
    case Halves(p, n0, n1) => [Frame0(c, p, l.worker, n0, MetaOf(l)), Frame1(c, p, l.worker, n1, MetaOf(l))]
    case Whole(p, n) => [FullFrame(c, p, l.worker, n, MetaOf(l))]
  }

  // ---- the receiver --------------------------------------------------------

  /** Worker ids 0..5 name a worker; 6..8 are read as CPU numbers (3..8) instead. */
  function WorkerFor(b: byte): Option<nat> {
    if b < WORKERS then Some(b) else if 3 <= b <= 8 then Some(b - 3) else None
  }

  /** Dispatch, decryption and reassembly of one UDP-format frame. */
  function Receive(c: Cipher, h: Hash, tables: seq<Table>, f: seq<byte>, now: u64)
    : (seq<Table>, Option<Delivery>)
    requires |tables| == WORKERS
  {
    if !IsUdpWire(f) || WorkerFor(f[L3_OFF]).None? || OpenUdp(c, f).None? then (tables, None)
    else
      var w, o := WorkerFor(f[L3_OFF]).value, OpenUdp(c, f).value;
      var from := Label(w, o.shim.epoch, o.shim.id, o.shim.flowSeq);
      if o.shim.kind.Full? then
        (tables, if IsIpv4(o.packet) then Some(Delivery(from, o.packet)) else None)
      else
        var (es, r) := Arrive(h, tables[w], FragmentOf(o.shim, o.packet), now);
        (tables[w := es], if r.Some? then Some(Delivery(from, r.value)) else None)
  }

  // ---- steps ----------------------------------------------------------------

  predicate Enabled(c: Cipher, s: Net, step: Step) {
    match step
    case Send(w, q, d) => w < WORKERS == |s.counts| && Sendable(d) && NextLabel(s, w, q) !in s.sent
    case Restart(_) => true
    case Duplicate(f) => f in s.wire
    case Lose(f) => f in s.wire
    case Deliver(f, _) => f in s.wire && |s.tables| == WORKERS
    case Noise(f, _) => |s.tables| == WORKERS && OpenUdp(c, f).None?
    case Collect(w, _) => w < |s.tables|
  }

  function Absorb(c: Cipher, h: Hash, s: Net, f: seq<byte>, now: u64): Net
    requires |s.tables| == WORKERS
  {
    var (tables, d) := Receive(c, h, s.tables, f, now);
    s.(tables := tables, out := if d.Some? then s.out + multiset{d.value} else s.out)
  }

  function Apply(c: Cipher, h: Hash, s: Net, step: Step): Net
    requires Enabled(c, s, step)
  {
    match step
    case Send(w, q, d) =>
      var l := NextLabel(s, w, q);
      s.(counts := s.counts[w := s.counts[w] + 1], sent := s.sent[l := d],
         wire := s.wire + multiset(Frames(c, l, d)))
    case Restart(e) => s.(epoch := e, counts := seq(WORKERS, i => 0))
    case Duplicate(f) => s.(wire := s.wire + multiset{f})
    case Lose(f) => s.(wire := s.wire - multiset{f})
    case Deliver(f, now) => Absorb(c, h, s.(wire := s.wire - multiset{f}), f, now)
    case Noise(f, now) => Absorb(c, h, s, f, now)
    case Collect(w, now) => s.(tables := s.tables[w := Collected(s.tables[w], now)])
  }

  ghost predicate Init(s: Net) {
    && |s.counts| == WORKERS && (forall w :: 0 <= w < WORKERS ==> s.counts[w] == 0)
    && |s.tables| == WORKERS
    && (forall w, x :: 0 <= w < WORKERS && 0 <= x < SLOTS ==> s.tables[w][x] == EMPTY)
    && s.sent == map[] && s.wire == multiset{} && s.out == multiset{}
  }

  // ---- safety: nothing is ever mixed ------------------------------------------

  ghost predicate Authored(c: Cipher, sent: map<Label, Datagram>, f: seq<byte>) {
    exists l :: l in sent && Sendable(sent[l]) && l.worker < WORKERS && f in Frames(c, l, sent[l])
  }

  function LabelOf(w: nat, e: Entry): Label { Label(w, e.key.epoch, e.key.id, e.flowSeq) }

  function HeadOf(p: seq<byte>): Head
    requires |p| > L3_OFF
  {
    Head(p[..ET_OFF] + [0x10, 0x4B], p[L3_OFF..L3_OFF + HeadLen(p)])
  }

  function TailOf(p: seq<byte>): seq<byte>
    requires |p| > L3_OFF
  {
    p[L3_OFF + HeadLen(p)..]
  }

  /** The halves stored in an entry are halves of the one datagram the entry is labelled with. */
  ghost predicate Faithful(sent: map<Label, Datagram>, w: nat, e: Entry) {
    Occupied(e) ==>
      && LabelOf(w, e) in sent && sent[LabelOf(w, e)].Halves? && Sendable(sent[LabelOf(w, e)])
      && (e.first.Some? ==> e.first.value == HeadOf(sent[LabelOf(w, e)].p))
      && (e.second.Some? ==> e.second.value == TailOf(sent[LabelOf(w, e)].p))
  }

  ghost predicate FaithfulTable(h: Hash, sent: map<Label, Datagram>, w: nat, es: Table) {
    TableInv(h, es) && forall x :: 0 <= x < SLOTS ==> Faithful(sent, w, es[x])
  }

  ghost predicate Safe(c: Cipher, h: Hash, s: Net) {
    && |s.counts| == WORKERS == |s.tables|
    && (forall f :: f in s.wire ==> Authored(c, s.sent, f))
    && (forall w :: 0 <= w < WORKERS ==> FaithfulTable(h, s.sent, w, s.tables[w]))
    && (forall d :: d in s.out ==> d.from in s.sent && d.packet == s.sent[d.from].p)
  }

  /** Joining the two halves of a packet gives the packet back, byte for byte. */
  lemma JoinRestores(p: seq<byte>)
    requires Splittable(p) && |p| <= JUMBO_MAX
    ensures Join(HeadOf(p), TailOf(p)) == Some(p)
  {
    assert p[12..14] == [0x08, 0x00];
    assert p == p[..ET_OFF] + p[12..14] + p[L3_OFF..L3_OFF + HeadLen(p)] + p[L3_OFF + HeadLen(p)..];
  }

  /** A packet of any size is rejoined exactly if it is no larger than the jumbo limit. */
  lemma JoinRestoresIff(p: seq<byte>)
    requires Splittable(p)
    ensures Join(HeadOf(p), TailOf(p)) == Some(p) <==> |p| <= JUMBO_MAX
  {
    if |p| <= JUMBO_MAX { JoinRestores(p); }
  }

  /** The fragment the receiver sees when it opens one of the sender's frames. */
  function Sent(l: Label, p: seq<byte>, second: bool): Fragment
    requires |p| > L3_OFF
  {
    Fragment(Key(l.epoch, l.id), l.flowSeq, second, HeadOf(p).eth,
             if second then TailOf(p) else HeadOf(p).body)
  }

  lemma ReceiveHalf(c: Cipher, h: Hash, tables: seq<Table>, l: Label, d: Datagram, second: bool, now: u64)
    requires Lawful(c) && |tables| == WORKERS && l.worker < WORKERS && Sendable(d) && d.Halves?
    ensures var f := Frames(c, l, d)[if second then 1 else 0];
            var (es, r) := Arrive(h, tables[l.worker], Sent(l, d.p, second), now);
            Receive(c, h, tables, f, now) ==
              (tables[l.worker := es], if r.Some? then Some(Delivery(l, r.value)) else None)
  {
    var p := d.p;
    var f := Frames(c, l, d)[if second then 1 else 0];
    var sh := ShimFor(if second then Frag1 else Frag0, MetaOf(l));
    var plain := if second then TailOf(p) else HeadOf(p).body;
    OpenUdpFrame(c, p[..ET_OFF], l.worker, if second then d.n1 else d.n0, sh, plain);
    var pkt := p[..ET_OFF] + [0x10, 0x4B] + plain;
    assert pkt[..L3_OFF] == HeadOf(p).eth && pkt[L3_OFF..] == plain;
    assert FragmentOf(sh, pkt) == Sent(l, p, second);
  }

  lemma ReceiveWhole(c: Cipher, h: Hash, tables: seq<Table>, l: Label, d: Datagram, now: u64)
    requires Lawful(c) && |tables| == WORKERS && l.worker < WORKERS && Sendable(d) && d.Whole?
    ensures Receive(c, h, tables, Frames(c, l, d)[0], now) == (tables, Some(Delivery(l, d.p)))
  {
    OpenUdpFrame(c, d.p[..ET_OFF], l.worker, d.n, ShimFor(Full, MetaOf(l)), d.p[L3_OFF..]);
    assert d.p[..ET_OFF] + [0x08, 0x00] + d.p[L3_OFF..] == d.p;
  }

  /** What one of the sender's fragments can do to a table: the other entries survive or are
      dropped, and its own entry collects it, or completes and is freed. */
  lemma ArriveSent(h: Hash, sent: map<Label, Datagram>, w: nat, es: Table, l: Label, second: bool, now: u64)
    requires FaithfulTable(h, sent, w, es) && l in sent && l.worker == w
    requires sent[l].Halves? && Sendable(sent[l])
    ensures var f := Sent(l, sent[l].p, second);
            var (es', r) := Arrive(h, es, f, now);
            var x := Pick(h, es, f.key, now);
            && FaithfulTable(h, sent, w, es')
            && (forall y :: 0 <= y < SLOTS && y != x ==> es'[y] == es[y] || es'[y] == EMPTY)
            && (es'[x] == EMPTY || LabelOf(w, es'[x]) == l)
            && (r.Some? ==>
                  && r.value == sent[l].p && es'[x] == EMPTY && LabelOf(w, es[x]) == l
                  && (if second then es[x].first.Some? else es[x].second.Some?))
            && (r.None? ==>
                  && LabelOf(w, es'[x]) == l
                  && (if second then es'[x].first.None? else es'[x].second.None?))
  {
    var p := sent[l].p;
    var f := Sent(l, p, second);
    var x, t := Pick(h, es, f.key, now), Probed(h, es, f.key, now);
    PickFacts(h, es, f.key, now);
    ArriveKeepsInv(h, es, f, now);
    JoinRestores(p);
    assert Acceptable(f);
    var e := Stored(t[x], f, now);
    assert Faithful(sent, w, es[x]) && Faithful(sent, w, t[x]);
    assert Faithful(sent, w, e);
    assert forall y :: 0 <= y < SLOTS ==> Faithful(sent, w, t[y]);
  }

  /** Only one table and the output history change when a frame is absorbed. */
  lemma AbsorbKeepsSafe(c: Cipher, h: Hash, s: Net, w: nat, es: Table, d: Option<Delivery>)
    requires Safe(c, h, s) && w < WORKERS && FaithfulTable(h, s.sent, w, es)
    requires d.Some? ==> d.value.from in s.sent && d.value.packet == s.sent[d.value.from].p
    ensures Safe(c, h, s.(tables := s.tables[w := es],
                          out := if d.Some? then s.out + multiset{d.value} else s.out))
  {
  }

  lemma DeliverHalfKeepsSafe(c: Cipher, h: Hash, s: Net, l: Label, second: bool, now: u64)
    requires Lawful(c) && Safe(c, h, s) && l in s.sent && l.worker < WORKERS
    requires Sendable(s.sent[l]) && s.sent[l].Halves?
    ensures Safe(c, h, Absorb(c, h, s, Frames(c, l, s.sent[l])[if second then 1 else 0], now))
  {
    var p := s.sent[l].p;
    ReceiveHalf(c, h, s.tables, l, s.sent[l], second, now);
    ArriveSent(h, s.sent, l.worker, s.tables[l.worker], l, second, now);
    var (es, r) := Arrive(h, s.tables[l.worker], Sent(l, p, second), now);
    AbsorbKeepsSafe(c, h, s, l.worker, es, if r.Some? then Some(Delivery(l, r.value)) else None);
  }

  lemma DeliverKeepsSafe(c: Cipher, h: Hash, s: Net, f: seq<byte>, now: u64)
    requires Lawful(c) && Safe(c, h, s) && Authored(c, s.sent, f)
    ensures Safe(c, h, Absorb(c, h, s, f, now))
  {
    var l :| l in s.sent && Sendable(s.sent[l]) && l.worker < WORKERS && f in Frames(c, l, s.sent[l]);
    if s.sent[l].Whole? {
      ReceiveWhole(c, h, s.tables, l, s.sent[l], now);
    } else {
      DeliverHalfKeepsSafe(c, h, s, l, f != Frames(c, l, s.sent[l])[0], now);
    }
  }

  /** Sending more changes nothing about what was already sent. */
  lemma AuthoredStays(c: Cipher, sent: map<Label, Datagram>, l: Label, d: Datagram, f: seq<byte>)
    requires l !in sent && Authored(c, sent, f)
    ensures Authored(c, sent[l := d], f)
  {
  }

  lemma FaithfulStays(h: Hash, sent: map<Label, Datagram>, l: Label, d: Datagram, w: nat, es: Table)
    requires l !in sent && FaithfulTable(h, sent, w, es)
    ensures FaithfulTable(h, sent[l := d], w, es)
  {
  }

  lemma SendKeepsSafe(c: Cipher, h: Hash, s: Net, step: Step)
    requires Safe(c, h, s) && step.Send? && Enabled(c, s, step)
    ensures Safe(c, h, Apply(c, h, s, step))
  {
    var l := NextLabel(s, step.worker, step.flowSeq);
    var s' := Apply(c, h, s, step);
    forall f | f in s'.wire ensures Authored(c, s'.sent, f) {
      if f in Frames(c, l, step.d) {
        assert s'.sent[l] == step.d;
      } else {
        AuthoredStays(c, s.sent, l, step.d, f);
      }
    }
    forall w | 0 <= w < WORKERS ensures FaithfulTable(h, s'.sent, w, s'.tables[w]) {
      FaithfulStays(h, s.sent, l, step.d, w, s.tables[w]);
    }
  }

  lemma CollectKeepsSafe(c: Cipher, h: Hash, s: Net, w: nat, now: u64)
    requires Safe(c, h, s) && w < WORKERS
    ensures Safe(c, h, s.(tables := s.tables[w := Collected(s.tables[w], now)]))
  {
    CollectKeepsInv(h, s.tables[w], now);
    var es := Collected(s.tables[w], now);
    assert forall x :: 0 <= x < SLOTS ==> Faithful(s.sent, w, s.tables[w][x]);
    assert FaithfulTable(h, s.sent, w, es);
  }

  lemma StepKeepsSafe(c: Cipher, h: Hash, s: Net, step: Step)
    requires Lawful(c) && Safe(c, h, s) && Enabled(c, s, step)
    ensures Safe(c, h, Apply(c, h, s, step))
  {
    match step {
      case Send(_, _, _) => SendKeepsSafe(c, h, s, step);
      case Deliver(f, now) => DeliverKeepsSafe(c, h, s.(wire := s.wire - multiset{f}), f, now);
      case Collect(w, now) => CollectKeepsSafe(c, h, s, w, now);
      case _ =>
    }
  }

  /** The steps are enabled one after the other. */
  ghost predicate Runs(c: Cipher, h: Hash, s: Net, steps: seq<Step>)
    decreases |steps|
  {
    steps == [] || (Enabled(c, s, steps[0]) && Runs(c, h, Apply(c, h, s, steps[0]), steps[1..]))
  }

  ghost function After(c: Cipher, h: Hash, s: Net, steps: seq<Step>): Net
    requires Runs(c, h, s, steps)
    decreases |steps|
  {
    if steps == [] then s else After(c, h, Apply(c, h, s, steps[0]), steps[1..])
  }

  /** Main theorem: over every run of sends, restarts, losses, reorderings, duplications, noise
      and garbage collections, every packet handed on is one the sender sent under that label. */
  lemma {:induction false} RunIsSafe(c: Cipher, h: Hash, s: Net, steps: seq<Step>)
    requires Lawful(c) && Safe(c, h, s) && Runs(c, h, s, steps)
    ensures Safe(c, h, After(c, h, s, steps))
    decreases |steps|
  {
    if steps != [] {
      StepKeepsSafe(c, h, s, steps[0]);
      RunIsSafe(c, h, Apply(c, h, s, steps[0]), steps[1..]);
    }
  }

  lemma InitIsSafe(c: Cipher, h: Hash, s: Net)
    requires Init(s)
    ensures Safe(c, h, s)
  {
  }
}
