/** From a LAN packet to wire frames and back: which packets are split, sent or refused, how large
    the frames are, and that the far end restores them. */
module EndToEnd {
  import opened Bytes
  import opened Limits
  import opened Wire
  import opened Codec
  import opened MssClamp
  import opened Reassembly
  import opened FragmentRun
  import FragmentDelivery
  import FlowTable
  import opened Dataplane

  // ---- deciding --------------------------------------------------------------------------

  datatype Proto = UdpProto | IcmpProto | DataProto

  function Classify(proto: byte): Proto {
    if proto == UDP then UdpProto else if proto == ICMP then IcmpProto else DataProto
  }

  const NO_FLOW := FlowTable.Tuple(0, 0, 0, 0, 0)

  /** dp_parse_flow: success, and the five-tuple as far as it was read. The protocol is known even
      when the ports are cut off. */
  function ParseFlow(p: seq<byte>): (bool, FlowTable.Tuple) {
    if !IsIpv4(p) || Ihl(p) < 20 || |p| < L3_OFF + Ihl(p) then (false, NO_FLOW)
    else
      var t := FlowTable.Tuple(ReadBe32(p[26..30]), ReadBe32(p[30..34]), 0, 0, p[23]);
      var l4 := L3_OFF + Ihl(p);
      if p[23] != TCP && p[23] != UDP then (true, t)
      else if |p| < l4 + 4 then (false, t)
      else (true, t.(srcPort := Word(p, l4), dstPort := Word(p, l4 + 2)))
  }

  /** An IPv4 packet with these addresses, protocol and ports; everything else about it is free. */
  function FlowPacket(mac: seq<byte>, start: byte, mid: seq<byte>, sum: seq<byte>, opts: seq<byte>,
                      t: FlowTable.Tuple, rest: seq<byte>): seq<byte>
  {
    mac + [0x08, 0x00, start] + mid + [t.proto] + sum + Be32(t.src) + Be32(t.dst) + opts
    + [t.srcPort / 256, t.srcPort % 256, t.dstPort / 256, t.dstPort % 256] + rest
  }

  /** Parsing a packet gives the five-tuple it was made from, without ports unless it is TCP or UDP. */
  lemma ParsesBack(mac: seq<byte>, start: byte, mid: seq<byte>, sum: seq<byte>, opts: seq<byte>,
                   t: FlowTable.Tuple, rest: seq<byte>)
    requires |mac| == 12 && |mid| == 8 && |sum| == 2 && start % 16 >= 5 && |opts| == (start % 16 - 5) * 4
    ensures ParseFlow(FlowPacket(mac, start, mid, sum, opts, t, rest)) ==
            (true, if t.proto == 6 || t.proto == 17 then t else t.(srcPort := 0, dstPort := 0))
  {
    var p := FlowPacket(mac, start, mid, sum, opts, t, rest);
    assert p[26..30] == Be32(t.src) && p[30..34] == Be32(t.dst);
    Be32Inverse(t.src, Be32(0));
    Be32Inverse(t.dst, Be32(0));
  }

  /** A sequence number can be had: the flow has a key and is UDP or ICMP. */
  predicate Sequenced(p: seq<byte>) {
    var (ok, t) := ParseFlow(p);
    ok && FlowTable.KeyOf(t).Some? && (t.proto == UDP || t.proto == ICMP)
  }

  predicate NeedSplit(proto: Proto, len: nat) {
    match proto
    case UdpProto => len > WIRE_MAX - UDP_OVERHEAD
    case IcmpProto => len > WIRE_MAX - DATA_OVERHEAD
    case DataProto => false
  }

  // ---- sending -----------------------------------------------------------------------------

  /** What is sealed: the packet, with the MSS of a TCP SYN clamped. */
  function Outgoing(p: seq<byte>): seq<byte> {
    if Classify(ParseFlow(p).1.proto).UdpProto? then p else Clamped(p, MTU, DATA_OVERHEAD)
  }

  /** encrypt_to_wan as a function of the packet, the metadata and the nonces drawn. */
  function EgressOf(c: Cipher, p: seq<byte>, worker: byte, meta: Meta, first: Option<Nonce>, second: Option<Nonce>)
    : Egress
  {
    var proto, q := Classify(ParseFlow(p).1.proto), Outgoing(p);
    if first.None? then Refused
    else if (proto.UdpProto? || NeedSplit(proto, |p|)) && !(ParseFlow(p).0 && Sequenced(q)) then Refused
    else if NeedSplit(proto, |p|) then
      if Splittable(q) && second.Some?
      then Pair(Frame0(c, q, worker, second.value, meta), Frame1(c, q, worker, first.value, meta))
      else Refused
    else if proto.UdpProto? then
      if IsIpv4(q) then Single(FullFrame(c, q, worker, first.value, meta)) else Refused
    else if KnownEther(q) && MAGIC_OFF <= |q| <= WIRE_MAX - DATA_OVERHEAD
    then Single(DataFrame(c, worker, first.value, q))
    else Refused
  }

  datatype Lengths = Nothing | One(n: nat) | Two(n: nat, m: nat)

  /** The worker's code on its two 9216-byte buffers. The LAN filter lets through at most 9014
      bytes, so no write passes the end of a buffer. */
  method EncryptToWan(c: Cipher, buf: array<byte>, len: nat, aux: array<byte>, worker: byte, meta: Meta,
                      first: Option<Nonce>, second: Option<Nonce>)
    returns (r: Lengths)
    requires Lawful(c) && buf != aux && buf.Length == aux.Length == JUMBO_MAX && len <= WIRE_MAX
    modifies buf, aux
    ensures r == Nothing <==> EgressOf(c, old(buf[..len]), worker, meta, first, second) == Refused
    ensures r.One? ==> r.n <= WIRE_MAX
    ensures r.One? ==> EgressOf(c, old(buf[..len]), worker, meta, first, second) == Single(buf[..r.n])
    ensures r.Two? ==> r.n <= WIRE_MAX && r.m <= WIRE_MAX
    ensures r.Two? ==> EgressOf(c, old(buf[..len]), worker, meta, first, second) == Pair(buf[..r.n], aux[..r.m])
  {
    ghost var p := buf[..len];
    var (flowOk, flow) := ParseFlow(buf[..len]);
    var proto := Classify(flow.proto);
    var split := NeedSplit(proto, len);
    if !proto.UdpProto? {
      var _ := ClampMss(buf, len, MTU, DATA_OVERHEAD);
    }
    ghost var q := buf[..len];
    assert q == Outgoing(p);
    if (proto.UdpProto? || split) && (!flowOk || !Sequenced(buf[..len])) { return Nothing; }
    if split {
      var s := Split(c, buf, len, aux, Some(meta), worker, first, second);
      if s.None? { return Nothing; }
      FragmentSizes(c, q, worker, second.value, first.value, meta);
      return Two(s.value.0, s.value.1);
    }
    var n: Option<nat>;
    if proto.UdpProto? {
      n := EncryptUdp(c, buf, len, Some(meta), worker, first);
    } else {
      n := EncryptData(c, buf, len, worker, first);
    }
    if n.None? || n.value > WIRE_MAX { return Nothing; }
    return One(n.value);
  }

  // ---- sizes ---------------------------------------------------------------------------------

  lemma SameLength(p: seq<byte>)
    ensures |Outgoing(p)| == |p|
  {
  }

  lemma HeaderKept(p: seq<byte>)
    requires |p| >= 14
    ensures |Outgoing(p)| == |p| && Outgoing(p)[..14] == p[..14]
  {
    if PlanOf(p, MTU, DATA_OVERHEAD).Rewrite? { PlanFacts(p, MTU, DATA_OVERHEAD); }
  }

  /** Every frame sent fits the wire, and both fragments carry at least one byte of the packet. */
  lemma FramesFit(c: Cipher, p: seq<byte>, worker: byte, meta: Meta, first: Option<Nonce>, second: Option<Nonce>)
    requires Lawful(c) && |p| <= WIRE_MAX
    ensures match EgressOf(c, p, worker, meta, first, second)
            case Refused => true
            case Single(f) => |p| < |f| <= WIRE_MAX
            case Pair(f, g) => L3_OFF + UDP_OVERHEAD < |f| <= WIRE_MAX && L3_OFF + UDP_OVERHEAD < |g| <= WIRE_MAX
  {
    var q := Outgoing(p);
    SameLength(p);
    match EgressOf(c, p, worker, meta, first, second) {
      case Refused =>
      case Single(f) =>
        if Classify(ParseFlow(p).1.proto).UdpProto? {
          OpenUdpFrame(c, q[..ET_OFF], worker, first.value, ShimFor(Full, meta), q[L3_OFF..]);
        } else {
          OpenDataFrame(c, worker, first.value, q);
        }
      case Pair(f, g) => FragmentSizes(c, q, worker, second.value, first.value, meta);
    }
  }

  /** A UDP packet goes out as one frame if that frame fits the wire and as two otherwise; it is
      refused only without a flow key or nonce, or if it must be split and is not IP version 4. */
  lemma UdpSplitsExactly(c: Cipher, p: seq<byte>, worker: byte, meta: Meta, first: Option<Nonce>, second: Option<Nonce>)
    requires Lawful(c) && |p| <= WIRE_MAX && IsIpv4(p) && Ihl(p) >= 20 && |p| >= L3_OFF + Ihl(p) && p[23] == UDP
    ensures var e := EgressOf(c, p, worker, meta, first, second);
            var whole := |p| + UDP_OVERHEAD <= WIRE_MAX;
            && (e.Refused? <==>
                  first.None? || |p| < L3_OFF + Ihl(p) + 4 || (!whole && (second.None? || IpVersion(p) != 4)))
            && (e.Single? ==> whole) && (e.Pair? ==> !whole)
            && (forall n: Nonce :: |FullFrame(c, p, worker, n, meta)| <= WIRE_MAX <==> whole)
  {
  }

  /** Oversized ICMP is never split on this path: it needs a sequence number, and ICMP flows have
      no key. So ICMP is sent exactly while its data frame fits. */
  lemma IcmpNeverSplits(c: Cipher, p: seq<byte>, worker: byte, meta: Meta, first: Option<Nonce>, second: Option<Nonce>)
    requires Lawful(c) && |p| <= WIRE_MAX && IsIpv4(p) && Ihl(p) >= 20 && |p| >= L3_OFF + Ihl(p) && p[23] == ICMP
    ensures var e := EgressOf(c, p, worker, meta, first, second);
            && !e.Pair?
            && (e.Single? <==> first.Some? && |p| + DATA_OVERHEAD <= WIRE_MAX)
            && (e.Single? ==> OpenData(c, e.frame) == Some(p))
  {
    assert Clamped(p, MTU, DATA_OVERHEAD) == p;
    if first.Some? { OpenDataFrame(c, worker, first.value, p); }
  }

  /** The fragments would have carried it: as a splitter input such a packet is restored. */
  lemma SplitWouldCarryIcmp(p: seq<byte>)
    requires IsIpv4(p) && IpVersion(p) == 4 && Ihl(p) >= 20 && p[23] == ICMP
    requires WIRE_MAX - DATA_OVERHEAD < |p| <= WIRE_MAX
    ensures Splittable(p) && Join(HeadOf(p), TailOf(p)) == Some(p)
  {
    JoinRestores(p);
  }

  /** UDP or ICMP behind a whole IPv4 header. */
  predicate HasFlowHeader(p: seq<byte>) {
    && |p| >= 34 && p[12] == 0x08 && p[13] == 0x00 && p[14] % 16 >= 5 && |p| >= 14 + p[14] % 16 * 4
    && (p[23] == 17 || p[23] == 1)
  }

  lemma OthersAreData(p: seq<byte>)
    requires !HasFlowHeader(p)
    ensures Classify(ParseFlow(p).1.proto).DataProto?
  {
  }

  /** IPv4 or one of the two markers. */
  predicate Carried(p: seq<byte>) {
    |p| >= 14 && (p[12..14] == [0x08, 0x00] || p[12..14] == [0x10, 0x4A] || p[12..14] == [0x10, 0x4B])
  }

  lemma CarriedIsKnown(p: seq<byte>)
    ensures KnownEther(p) <==> Carried(p)
    ensures KnownEther(Outgoing(p)) <==> KnownEther(p)
  {
    SameLength(p);
    if |p| >= 14 {
      assert p[12..14] == [p[12], p[13]];
      HeaderKept(p);
      assert Outgoing(p)[12] == Outgoing(p)[..14][12] && Outgoing(p)[13] == Outgoing(p)[..14][13];
    }
  }

  /** Everything else, TCP and cut headers included, is sent exactly while the data frame fits, if its
      EtherType is one the encoder takes and it has the 27 bytes the encoder wants. */
  lemma DataSentIffFits(c: Cipher, p: seq<byte>, worker: byte, meta: Meta, first: Option<Nonce>, second: Option<Nonce>)
    requires Lawful(c) && |p| <= WIRE_MAX && !HasFlowHeader(p)
    ensures var e := EgressOf(c, p, worker, meta, first, second);
            && !e.Pair?
            && (e.Single? <==> first.Some? && 27 <= |p| && |p| + DATA_OVERHEAD <= WIRE_MAX && Carried(p))
  {
    OthersAreData(p);
    SameLength(p);
    CarriedIsKnown(p);
  }

  // ---- what is sealed ----------------------------------------------------------------------------

  lemma SynIsData(c: Cipher, p: seq<byte>, worker: byte, meta: Meta, first: Option<Nonce>, second: Option<Nonce>)
    requires CarriesTcp(p) && EgressOf(c, p, worker, meta, first, second).Single?
    ensures Outgoing(p) == Clamped(p, MTU, DATA_OVERHEAD) && first.Some? && |Outgoing(p)| >= 14
    ensures EgressOf(c, p, worker, meta, first, second).frame == DataFrame(c, worker, first.value, Outgoing(p))
  {
    SameLength(p);
  }

  /** A SYN that offers an MSS, whatever its other flags and options, goes out with the smaller of
      that value and what the path carries, and otherwise as it is. */
  lemma SealedSyn(c: Cipher, p: seq<byte>, worker: byte, meta: Meta, first: Option<Nonce>, second: Option<Nonce>,
                  fl: Flags, os: seq<Opt>, j: nat)
    requires Lawful(c) && EgressOf(c, p, worker, meta, first, second).Single? && OffersMss(p, fl, os, j)
    ensures var o := OpenData(c, EgressOf(c, p, worker, meta, first, second).frame);
            o.Some? && MssLimited(p, o.value, MssAt(p, os, j), os[j].value, MssLimit(p))
  {
    SynIsData(c, p, worker, meta, first, second);
    OpenDataFrame(c, worker, first.value, Outgoing(p));
    SynClamped(p, fl, os, j);
  }

  /** Everything else goes out byte for byte. */
  lemma SealedAsItIs(c: Cipher, p: seq<byte>, worker: byte, meta: Meta, first: Option<Nonce>, second: Option<Nonce>)
    requires Lawful(c) && EgressOf(c, p, worker, meta, first, second).Single?
    requires forall fl, os, j :: !OffersMss(p, fl, os, j)
    ensures var f := EgressOf(c, p, worker, meta, first, second).frame;
            var o := OpenUdp(c, f);
            OpenData(c, f) == Some(p) || (IsUdpWire(f) && o.Some? && o.value.shim.kind.Full? && o.value.packet == p)
  {
    if PlanOf(p, MTU, DATA_OVERHEAD).Rewrite? {
      var fl, os, j := RewritesOffer(p, MTU, DATA_OVERHEAD);
    }
    if Classify(ParseFlow(p).1.proto).UdpProto? {
      OpenUdpFrame(c, p[..ET_OFF], worker, first.value, ShimFor(Full, meta), p[L3_OFF..]);
    } else {
      OpenDataFrame(c, worker, first.value, p);
    }
  }

  // ---- the far end ----------------------------------------------------------------------------

  /** Dispatch and processing of one WAN frame by the appliance. */
  function IngressOf(c: Cipher, h: Hash, tables: seq<Table>, f: seq<byte>, now: u64): (seq<Table>, Ingress)
    requires |tables| == WORKERS
  {
    if !HasMarker(f) || |f| <= L3_OFF || WorkerFor(f[L3_OFF]).None? then (tables, Rejected)
    else if IsUdpWire(f) then
      var (tables', d) := Receive(c, h, tables, f, now);
      (tables', if d.Some? then Plain(d.value.packet) else Absorbed)
    else (tables, match OpenData(c, f) case None => Rejected case Some(p) => Plain(p))
  }

  lemma JoinFreesEntry(h: Hash, es: Table, f: Fragment, now: u64)
    ensures Arrive(h, es, f, now).1.Some? ==> Arrive(h, es, f, now).0 != es
  {
    SweptAt(h, es, f.key, now, FirstMatch(h, es, f.key, now, 0));
    var t, x := Probed(h, es, f.key, now), Pick(h, es, f.key, now);
    if Arrive(h, es, f, now).1.Some? {
      assert Occupied(t[x]) && t[x] == es[x];
      assert Arrive(h, es, f, now).0[x] == EMPTY;
    }
  }

  /** A frame taken for the UDP format yields a shorter packet, or none, or changes a table. */
  lemma MistakenForUdp(c: Cipher, h: Hash, tables: seq<Table>, f: seq<byte>, now: u64)
    requires Lawful(c) && |tables| == WORKERS && IsUdpWire(f)
    ensures var (tables', r) := IngressOf(c, h, tables, f, now);
            r.Plain? && tables' == tables ==> |r.packet| + UDP_OVERHEAD == |f|
  {
    var o := OpenUdp(c, f);
    if WorkerFor(f[L3_OFF]).Some? && o.Some? {
      var text := c.open(f[NONCE_OFF..MAGIC_OFF], f[ENC_OFF..]).value;
      assert |c.seal(f[NONCE_OFF..MAGIC_OFF], text)| == |text| + TAG_SIZE;
      if !o.value.shim.kind.Full? {
        var w := WorkerFor(f[L3_OFF]).value;
        JoinFreesEntry(h, tables[w], FragmentOf(o.value.shim, o.value.packet), now);
      }
    }
  }

  // ---- authenticity ------------------------------------------------------------------------------

  /** A frame in the data format yields exactly the packet whose EtherType and payload its sealed text
      holds, under the nonce and behind the addresses it carries, and yields nothing else. Bytes 6 to
      8 name a worker too, by its processor. */
  lemma DataAuthentic(c: Cipher, h: Hash, tables: seq<Table>, f: seq<byte>, now: u64, p: seq<byte>)
    requires Lawful(c) && |tables| == WORKERS && !IsUdpWire(f)
    ensures IngressOf(c, h, tables, f, now).0 == tables
    ensures IngressOf(c, h, tables, f, now).1 == Plain(p) <==>
            && HasMarker(f) && |f| > 43 && f[14] <= 8
            && |p| > 12 && p[..12] == f[..12] && f[27..] == c.seal(f[15..27], p[12..])
  {
    if HasMarker(f) && |f| > 43 {
      var text := c.open(f[15..27], f[27..]);
      if text.Some? { assert (f[..12] + text.value)[12..] == text.value; }
      if |p| > 12 && p[..12] == f[..12] && f[27..] == c.seal(f[15..27], p[12..]) {
        assert text == Some(p[12..]) && p[..12] + p[12..] == p;
      }
    }
  }

  /** The sealed part of the frame is what some text seals to under the nonce in its header. */
  ghost predicate Sealed(c: Cipher, f: seq<byte>) {
    |f| > 27 && exists text :: f[if IsUdpWire(f) then 31 else 27..] == c.seal(f[15..27], text)
  }

  /** A frame in the UDP format changes a table or yields a packet only if its sealed text is a shim
      and a plain text. A whole datagram is then the plain text behind the frame's addresses and the
      IPv4 EtherType; a fragment meets the table of the worker it names, with the shim's labels. */
  lemma UdpAuthentic(c: Cipher, h: Hash, tables: seq<Table>, f: seq<byte>, now: u64)
    returns (sh: Shim, plain: seq<byte>)
    requires Lawful(c) && |tables| == WORKERS && IsUdpWire(f)
    requires var (tables', r) := IngressOf(c, h, tables, f, now); tables' != tables || r.Plain?
    ensures f[14] <= 8 && f[31..] == c.seal(f[15..27], WriteShim(sh) + plain)
    ensures sh.kind.Full? ==> IngressOf(c, h, tables, f, now) == (tables, Plain(f[..12] + [0x08, 0x00] + plain))
    ensures !sh.kind.Full? ==>
              var w := if f[14] < 6 then f[14] else f[14] - 3;
              var g := Fragment(Key(sh.epoch, sh.id), sh.flowSeq, sh.kind.Frag1?, f[..14], plain);
              var (es, r) := Arrive(h, tables[w], g, now);
              IngressOf(c, h, tables, f, now) == (tables[w := es], if r.Some? then Plain(r.value) else Absorbed)
  {
    var o, text := OpenUdp(c, f).value, c.open(f[15..27], f[31..]).value;
    ShimCanonical(text);
    sh, plain := o.shim, text[SHIM_SIZE..];
    assert text == WriteShim(sh) + plain;
    if !sh.kind.Full? {
      assert o.packet[..14] == f[..14] && o.packet[14..] == plain;
    }
  }

  /** A sealed whole datagram yields its packet exactly if that has a whole 20-byte IPv4 header's worth
      of bytes behind the Ethernet header. */
  lemma WholeAuthentic(c: Cipher, h: Hash, tables: seq<Table>, f: seq<byte>, now: u64, sh: Shim, plain: seq<byte>)
    requires Lawful(c) && |tables| == WORKERS && IsUdpWire(f) && f[14] <= 8 && sh.kind.Full?
    requires f[31..] == c.seal(f[15..27], WriteShim(sh) + plain)
    ensures IngressOf(c, h, tables, f, now) ==
            (tables, if |plain| >= 20 then Plain(f[..12] + [0x08, 0x00] + plain) else Absorbed)
  {
    var text := WriteShim(sh) + plain;
    ShimRoundTrip(sh, plain);
    assert text[SHIM_SIZE..] == plain && |c.seal(f[15..27], text)| == |text| + TAG_SIZE;
  }

  /** A frame without the marker EtherType, or that nothing seals to, changes no table and yields
      no packet. */
  lemma ForgedIgnored(c: Cipher, h: Hash, tables: seq<Table>, f: seq<byte>, now: u64)
    requires Lawful(c) && |tables| == WORKERS && !(HasMarker(f) && Sealed(c, f))
    ensures IngressOf(c, h, tables, f, now).0 == tables && !IngressOf(c, h, tables, f, now).1.Plain?
  {
    var (tables', r) := IngressOf(c, h, tables, f, now);
    if IsUdpWire(f) {
      if tables' != tables || r.Plain? { var sh, plain := UdpAuthentic(c, h, tables, f, now); }
    } else {
      DataAuthentic(c, h, tables, f, now, if r.Plain? then r.packet else []);
    }
  }

  /** A packet sent as one frame arrives as it was sealed, and leaves the tables alone: UDP always;
      anything else exactly if its ciphertext does not begin with the four marker bytes. */
  lemma SingleArrivesIff(c: Cipher, h: Hash, tables: seq<Table>, p: seq<byte>, worker: byte, meta: Meta,
                         first: Option<Nonce>, second: Option<Nonce>, now: u64)
    requires Lawful(c) && |tables| == WORKERS && worker < WORKERS && |p| <= WIRE_MAX
    requires EgressOf(c, p, worker, meta, first, second).Single?
    ensures var f := EgressOf(c, p, worker, meta, first, second).frame;
            var udp := Classify(ParseFlow(p).1.proto).UdpProto?;
            |Outgoing(p)| >= 14 &&
            (IngressOf(c, h, tables, f, now) == (tables, Plain(Outgoing(p))) <==>
             udp || c.seal(first.value, Outgoing(p)[ET_OFF..])[..4] != MARK)
  {
    var q := Outgoing(p);
    SameLength(p);
    if Classify(ParseFlow(p).1.proto).UdpProto? {
      var l := Label(worker, meta.epoch, meta.id, meta.flowSeq);
      ReceiveWhole(c, h, tables, l, Whole(p, first.value), now);
      OpenUdpFrame(c, p[..ET_OFF], worker, first.value, ShimFor(Full, meta), p[L3_OFF..]);
    } else {
      var f := EgressOf(c, p, worker, meta, first, second).frame;
      OpenDataFrame(c, worker, first.value, q);
      if IsUdpWire(f) { MistakenForUdp(c, h, tables, f, now); }
    }
  }

  lemma IngressHalf(c: Cipher, h: Hash, tables: seq<Table>, l: Label, d: Datagram, tail: bool, now: u64)
    requires Lawful(c) && |tables| == WORKERS && l.worker < WORKERS && Sendable(d) && d.Halves?
    ensures var (es, r) := Arrive(h, tables[l.worker], Sent(l, d.p, tail), now);
            IngressOf(c, h, tables, FragmentRun.Frames(c, l, d)[if tail then 1 else 0], now) ==
            (tables[l.worker := es], if r.Some? then Plain(r.value) else Absorbed)
  {
    ReceiveHalf(c, h, tables, l, d, tail, now);
    if tail {
      OpenUdpFrame(c, d.p[..ET_OFF], l.worker, d.n1, ShimFor(Frag1, MetaOf(l)), TailOf(d.p));
    } else {
      OpenUdpFrame(c, d.p[..ET_OFF], l.worker, d.n0, ShimFor(Frag0, MetaOf(l)), HeadOf(d.p).body);
    }
  }

  lemma OnlyUdpPairs(c: Cipher, p: seq<byte>, worker: byte, meta: Meta, first: Option<Nonce>, second: Option<Nonce>)
    requires EgressOf(c, p, worker, meta, first, second).Pair?
    ensures first.Some? && second.Some? && Splittable(p)
    ensures EgressOf(c, p, worker, meta, first, second) ==
            Pair(Frame0(c, p, worker, second.value, meta), Frame1(c, p, worker, first.value, meta))
  {
  }

  // ---- with other traffic between -------------------------------------------------------------

  /** What else happens at the receiver: a frame arrives, or a worker collects garbage. */
  datatype Traffic = Incoming(f: seq<byte>, now: u64) | Garbage(worker: nat, now: u64)

  function AfterOne(c: Cipher, h: Hash, tables: seq<Table>, e: Traffic): (r: seq<Table>)
    requires |tables| == WORKERS
    ensures |r| == WORKERS
  {
    match e
    case Incoming(f, now) => IngressOf(c, h, tables, f, now).0
    case Garbage(w, now) => if w < WORKERS then tables[w := Collected(tables[w], now)] else tables
  }

  function AfterAll(c: Cipher, h: Hash, tables: seq<Table>, es: seq<Traffic>): (r: seq<Table>)
    requires |tables| == WORKERS
    ensures |r| == WORKERS
    decreases |es|
  {
    if es == [] then tables else AfterAll(c, h, AfterOne(c, h, tables, es[0]), es[1..])
  }

  /** The packets all of it yields, in order. */
  function Outputs(c: Cipher, h: Hash, tables: seq<Table>, es: seq<Traffic>): seq<seq<byte>>
    requires |tables| == WORKERS
    decreases |es|
  {
    if es == [] then []
    else (if es[0].Incoming? && IngressOf(c, h, tables, es[0].f, es[0].now).1.Plain?
          then [IngressOf(c, h, tables, es[0].f, es[0].now).1.packet] else [])
         + Outputs(c, h, AfterOne(c, h, tables, es[0]), es[1..])
  }

  /** What is left of it without the frames that are not marked or that nothing seals to. */
  ghost function GenuineOnly(c: Cipher, es: seq<Traffic>): seq<Traffic>
    decreases |es|
  {
    if es == [] then []
    else (if es[0].Incoming? && !(HasMarker(es[0].f) && Sealed(c, es[0].f)) then [] else [es[0]])
         + GenuineOnly(c, es[1..])
  }

  /** Main theorem: whatever an attacker without the key puts on the wire, and wherever between the
      genuine frames, tables and packets put out are those of the genuine frames alone. */
  lemma {:induction false} ForgedInvisible(c: Cipher, h: Hash, tables: seq<Table>, es: seq<Traffic>)
    requires Lawful(c) && |tables| == WORKERS
    ensures AfterAll(c, h, tables, es) == AfterAll(c, h, tables, GenuineOnly(c, es))
    ensures Outputs(c, h, tables, es) == Outputs(c, h, tables, GenuineOnly(c, es))
    decreases |es|
  {
    if es != [] {
      var e, rest := es[0], GenuineOnly(c, es[1..]);
      ForgedInvisible(c, h, AfterOne(c, h, tables, e), es[1..]);
      if e.Incoming? && !(HasMarker(e.f) && Sealed(c, e.f)) {
        ForgedIgnored(c, h, tables, e.f, e.now);
        assert GenuineOnly(c, es) == rest;
      } else {
        assert GenuineOnly(c, es)[0] == e && GenuineOnly(c, es)[1..] == rest;
      }
    }
  }

  /** What worker `w`'s table sees of it: authentic fragments for that worker, and its collection. */
  function SeenOne(c: Cipher, w: nat, e: Traffic): seq<Event> {
    match e
    case Incoming(f, now) =>
      if IsUdpWire(f) && WorkerFor(f[L3_OFF]) == Some(w) && OpenUdp(c, f).Some? && !OpenUdp(c, f).value.shim.kind.Full?
      then [Arrival(FragmentOf(OpenUdp(c, f).value.shim, OpenUdp(c, f).value.packet), now)] else []
    case Garbage(x, now) => if x == w then [Event.Collect(now)] else []
  }

  function Seen(c: Cipher, w: nat, es: seq<Traffic>): seq<Event>
    decreases |es|
  {
    if es == [] then [] else SeenOne(c, w, es[0]) + Seen(c, w, es[1..])
  }

  lemma OneAtTable(c: Cipher, h: Hash, tables: seq<Table>, w: nat, e: Traffic)
    requires |tables| == WORKERS && w < WORKERS
    ensures var seen := SeenOne(c, w, e);
            AfterOne(c, h, tables, e)[w] ==
              if seen == [] then tables[w]
              else match seen[0]
                   case Arrival(f, now) => Arrive(h, tables[w], f, now).0
                   case Collect(now) => Collected(tables[w], now)
  {
  }

  /** The table goes through exactly what it sees. */
  lemma {:induction false} AllAtTable(c: Cipher, h: Hash, tables: seq<Table>, w: nat, es: seq<Traffic>)
    requires |tables| == WORKERS && w < WORKERS
    ensures AfterAll(c, h, tables, es)[w] == RunTable(h, tables[w], Seen(c, w, es)).0
    decreases |es|
  {
    if es != [] {
      var seen, rest := SeenOne(c, w, es[0]), Seen(c, w, es[1..]);
      OneAtTable(c, h, tables, w, es[0]);
      AllAtTable(c, h, AfterOne(c, h, tables, es[0]), w, es[1..]);
      if seen == [] {
        assert seen + rest == rest;
      } else {
        assert (seen + rest)[0] == seen[0] && (seen + rest)[1..] == rest;
      }
    }
  }

  /** The second half comes too late, or the first one is displaced before it comes. */
  predicate HalfLost(c: Cipher, h: Hash, es: Table, l: Label, p: seq<byte>, tailFirst: bool, t1: u64,
                     mid: seq<Traffic>, t2: u64)
    requires |p| > L3_OFF
  {
    || FragmentDelivery.TooLate(t1, t2)
    || FragmentDelivery.Displaced(h, Arrive(h, es, Sent(l, p, tailFirst), t1).0, Seen(c, l.worker, mid),
                                  FragmentDelivery.KeyOf(l))
  }

  lemma HalvesArrive(c: Cipher, h: Hash, tables: seq<Table>, l: Label, d: Datagram,
                     tailFirst: bool, t1: u64, mid: seq<Traffic>, t2: u64)
    requires Lawful(c) && |tables| == WORKERS && l.worker < WORKERS && Sendable(d) && d.Halves?
    requires TableInv(h, tables[l.worker]) && !Holds(tables[l.worker], FragmentDelivery.KeyOf(l), t1)
    requires FragmentDelivery.Untouched(Seen(c, l.worker, mid), FragmentDelivery.KeyOf(l))
    requires Monotone(t1, Seen(c, l.worker, mid) + [Arrival(Sent(l, d.p, !tailFirst), t2)])
    ensures var fs := FragmentRun.Frames(c, l, d);
            var (f, g) := if tailFirst then (fs[1], fs[0]) else (fs[0], fs[1]);
            var tables1 := AfterAll(c, h, tables, [Incoming(f, t1)] + mid);
            IngressOf(c, h, tables1, g, t2).1 ==
            if HalfLost(c, h, tables[l.worker], l, d.p, tailFirst, t1, mid, t2) then Absorbed else Plain(d.p)
  {
    var f := FragmentRun.Frames(c, l, d)[if tailFirst then 1 else 0];
    FragmentDelivery.SecondHalfDelivers(h, tables[l.worker], l, d.p, tailFirst, Seen(c, l.worker, mid), t1, t2);
    IngressHalf(c, h, tables, l, d, tailFirst, t1);
    var tables0 := AfterOne(c, h, tables, Incoming(f, t1));
    assert ([Incoming(f, t1)] + mid)[1..] == mid;
    AllAtTable(c, h, tables0, l.worker, mid);
    IngressHalf(c, h, AfterAll(c, h, tables0, mid), l, d, !tailFirst, t2);
  }

  /** A packet sent as two frames: whichever comes first and whatever other frames and collections come
      between, on a monotone clock, if its number is not pending and in no other fragment between,
      then it arrives as it was if and only if the second comes within 200 milliseconds and no
      arrival between met a full window in which the first half had waited longest. */
  lemma PairArrives(c: Cipher, h: Hash, tables: seq<Table>, p: seq<byte>, worker: byte, meta: Meta,
                    first: Option<Nonce>, second: Option<Nonce>, tailFirst: bool, t1: u64, mid: seq<Traffic>, t2: u64)
    requires Lawful(c) && |tables| == WORKERS && worker < WORKERS && L3_OFF < |p| <= WIRE_MAX
    requires EgressOf(c, p, worker, meta, first, second).Pair?
    requires TableInv(h, tables[worker]) && !Holds(tables[worker], Key(meta.epoch, meta.id), t1)
    requires FragmentDelivery.Untouched(Seen(c, worker, mid), Key(meta.epoch, meta.id))
    requires Monotone(t1, Seen(c, worker, mid) +
                          [Arrival(Sent(Label(worker, meta.epoch, meta.id, meta.flowSeq), p, !tailFirst), t2)])
    ensures var e, l := EgressOf(c, p, worker, meta, first, second), Label(worker, meta.epoch, meta.id, meta.flowSeq);
            var (f, g) := if tailFirst then (e.second, e.first) else (e.first, e.second);
            var tables1 := AfterAll(c, h, tables, [Incoming(f, t1)] + mid);
            IngressOf(c, h, tables1, g, t2).1 ==
            if HalfLost(c, h, tables[worker], l, p, tailFirst, t1, mid, t2) then Absorbed else Plain(p)
  {
    OnlyUdpPairs(c, p, worker, meta, first, second);
    var l := Label(worker, meta.epoch, meta.id, meta.flowSeq);
    HalvesArrive(c, h, tables, l, Halves(p, second.value, first.value), tailFirst, t1, mid, t2);
  }
}
