/** The packet codecs, working in place on the worker's buffers. */
module Codec {
  import opened Bytes
  import opened Limits
  import opened Wire

  /** The sender's per-packet metadata: appliance epoch, flow sequence and datagram id. */
  datatype Meta = Meta(epoch: u32, flowSeq: u32, id: u32)

  /** Largest fragment-zero plain text that still fits the wire MTU. */
  const HEAD_MAX := WIRE_MAX - L3_OFF - UDP_OVERHEAD

  function ShimFor(k: Kind, m: Meta): Shim {
    Shim(k, m.epoch, m.flowSeq, m.id)
  }

  // ---- what the sender puts on the wire -----------------------------------

  /** The packets the splitter takes: IPv4, UDP or ICMP, with at least one byte after the 8-byte header. */
  predicate Splittable(p: seq<byte>) {
    && IsIpv4(p) && IpVersion(p) == 4 && Ihl(p) >= 20
    && |p| > L3_OFF + Ihl(p) + 8
    && (p[23] == UDP || p[23] == ICMP)
  }

  /** Fragment zero carries as much of the IP packet as fits, but leaves at least one byte. */
  function HeadLen(p: seq<byte>): nat
    requires |p| > L3_OFF
  {
    if |p| - L3_OFF - 1 < HEAD_MAX then |p| - L3_OFF - 1 else HEAD_MAX
  }

  function Frame0(c: Cipher, p: seq<byte>, worker: byte, nonce: Nonce, m: Meta): seq<byte>
    requires |p| > L3_OFF
  {
    UdpFrame(c, p[..ET_OFF], worker, nonce, ShimFor(Frag0, m), p[L3_OFF..L3_OFF + HeadLen(p)])
  }

  function Frame1(c: Cipher, p: seq<byte>, worker: byte, nonce: Nonce, m: Meta): seq<byte>
    requires |p| > L3_OFF
  {
    UdpFrame(c, p[..ET_OFF], worker, nonce, ShimFor(Frag1, m), p[L3_OFF + HeadLen(p)..])
  }

  function FullFrame(c: Cipher, p: seq<byte>, worker: byte, nonce: Nonce, m: Meta): seq<byte>
    requires |p| >= L3_OFF
  {
    UdpFrame(c, p[..ET_OFF], worker, nonce, ShimFor(Full, m), p[L3_OFF..])
  }

  /** Both fragments of every packet are non-empty and their sizes add up; fragment zero has exactly
      the 9014 bytes the wire carries, or else the second one carries one byte, and the second does
      not exceed the wire either for packets up to the jumbo limit. */
  lemma FragmentSizes(c: Cipher, p: seq<byte>, worker: byte, n0: Nonce, n1: Nonce, m: Meta)
    requires Lawful(c) && Splittable(p)
    ensures var f0, f1 := Frame0(c, p, worker, n0, m), Frame1(c, p, worker, n1, m);
            && L3_OFF + UDP_OVERHEAD < |f0| <= WIRE_MAX
            && L3_OFF + UDP_OVERHEAD < |f1|
            && |f0| + |f1| == |p| + L3_OFF + 2 * UDP_OVERHEAD
            && (|f0| == 9014 || |f1| == L3_OFF + UDP_OVERHEAD + 1)
            && (|p| <= JUMBO_MAX ==> |f1| <= WIRE_MAX)
  {
  }

  // ---- sealing and opening in place ----------------------------------------

  method SealAt(c: Cipher, a: array<byte>, off: nat, len: nat, nonce: Nonce)
    requires Lawful(c) && off + len + TAG_SIZE <= a.Length
    modifies a
    ensures a[..] == Splice(old(a[..]), off, c.seal(nonce, old(a[off..off + len])))
  {
    Store(a, off, c.seal(nonce, a[off..off + len]));
  }

  method OpenAt(c: Cipher, a: array<byte>, off: nat, len: nat, nonce: Nonce)
    returns (n: Option<nat>)
    requires Lawful(c) && off + len <= a.Length
    modifies a
    ensures n.Some? <==> len > TAG_SIZE && c.open(nonce, old(a[off..off + len])).Some?
    ensures n.Some? ==>
              var p := c.open(nonce, old(a[off..off + len])).value;
              n.value == |p| == len - TAG_SIZE && a[..] == Splice(old(a[..]), off, p)
  {
    if len <= TAG_SIZE { return None; }
    var p := c.open(nonce, a[off..off + len]);
    if p.None? { return None; }
    assert |c.seal(nonce, p.value)| == |p.value| + TAG_SIZE;
    Store(a, off, p.value);
    n := Some(|p.value|);
  }

  method WriteWireHeader(a: array<byte>, low: byte, worker: byte, nonce: Nonce)
    requires a.Length >= MAGIC_OFF
    modifies a
    ensures a[..] == Splice(old(a[..]), ET_OFF, [0x10, low, worker] + nonce)
    ensures a[..MAGIC_OFF] == old(a[..ET_OFF]) + [0x10, low, worker] + nonce
    ensures a[MAGIC_OFF..] == old(a[MAGIC_OFF..])
  {
    Store(a, ET_OFF, [0x10, low, worker] + nonce);
  }

  /** Shim, wire header and marker in front of the plain text that sits at offset 44. */
  method WriteFrameHeader(a: array<byte>, sh: Shim, worker: byte, nonce: Nonce)
    requires a.Length >= ENC_OFF + SHIM_SIZE
    modifies a
    ensures a[..ENC_OFF] == old(a[..ET_OFF]) + [0x10, 0x4B, worker] + nonce + MARK
    ensures a[ENC_OFF..] == WriteShim(sh) + old(a[ENC_OFF + SHIM_SIZE..])
  {
    ghost var mac, plain := a[..ET_OFF], a[ENC_OFF + SHIM_SIZE..];
    Store(a, ENC_OFF, WriteShim(sh));
    assert a[..ET_OFF] == mac && a[ENC_OFF..] == WriteShim(sh) + plain;
    WriteWireHeader(a, 0x4B, worker, nonce);
    assert a[..MAGIC_OFF] == mac + [0x10, 0x4B, worker] + nonce && a[ENC_OFF..] == WriteShim(sh) + plain;
    ghost var front := a[..MAGIC_OFF];
    Store(a, MAGIC_OFF, MARK);
    assert a[..ENC_OFF] == front + MARK && a[ENC_OFF..] == WriteShim(sh) + plain;
  }

  /** The writes every UDP-format encoder makes once the plain text sits at offset 44. */
  method SealUdpFrame(c: Cipher, a: array<byte>, plainLen: nat, sh: Shim, worker: byte, nonce: Nonce)
    requires Lawful(c) && L3_OFF + UDP_OVERHEAD + plainLen <= a.Length
    modifies a
    ensures a[..L3_OFF + UDP_OVERHEAD + plainLen] ==
            UdpFrame(c, old(a[..ET_OFF]), worker, nonce, sh,
                     old(a[ENC_OFF + SHIM_SIZE..ENC_OFF + SHIM_SIZE + plainLen]))
  {
    ghost var plain := a[ENC_OFF + SHIM_SIZE..ENC_OFF + SHIM_SIZE + plainLen];
    WriteFrameHeader(a, sh, worker, nonce);
    assert a[ENC_OFF..ENC_OFF + (SHIM_SIZE + plainLen)] == a[ENC_OFF..][..SHIM_SIZE + plainLen]
        == WriteShim(sh) + plain;
    ghost var header := a[..ENC_OFF];
    SealAt(c, a, ENC_OFF, SHIM_SIZE + plainLen, nonce);
    assert a[..ENC_OFF] == header;
    assert a[..L3_OFF + UDP_OVERHEAD + plainLen]
        == a[..ENC_OFF] + a[ENC_OFF..L3_OFF + UDP_OVERHEAD + plainLen];
  }

  /** Fragment one: built in the second buffer from the tail of the packet. */
  method EncryptFragmentSingle(c: Cipher, src: array<byte>, from: nat, plainLen: nat, sh: Shim,
                               worker: byte, nonce: Option<Nonce>, out: array<byte>)
    returns (n: Option<nat>)
    requires Lawful(c) && ET_OFF <= src.Length && from + plainLen <= src.Length && src != out
    modifies out
    ensures n.Some? <==> nonce.Some? && L3_OFF + UDP_OVERHEAD + plainLen <= out.Length
    ensures n.Some? ==>
              && n.value == L3_OFF + UDP_OVERHEAD + plainLen
              && out[..n.value] == UdpFrame(c, src[..ET_OFF], worker, nonce.value, sh,
                                            src[from..from + plainLen])
  {
    var need := ENC_OFF + SHIM_SIZE + plainLen + TAG_SIZE;
    if need > out.Length { return None; }
    Store(out, 0, src[..ET_OFF]);
    if nonce.None? { return None; }
    Store(out, ENC_OFF + SHIM_SIZE, src[from..from + plainLen]);
    assert out[..ET_OFF] == src[..ET_OFF];
    SealUdpFrame(c, out, plainLen, sh, worker, nonce.value);
    n := Some(need);
  }

  /** Fragment zero: the plain text is shifted up by 30 bytes inside the packet's own buffer. */
  method EncryptFragment0(c: Cipher, packet: array<byte>, plainLen: nat, sh: Shim,
                          worker: byte, nonce: Option<Nonce>)
    returns (n: Option<nat>)
    requires Lawful(c) && L3_OFF + plainLen <= packet.Length
    modifies packet
    ensures n.Some? <==> nonce.Some? && L3_OFF + UDP_OVERHEAD + plainLen <= packet.Length
    ensures n.Some? ==>
              && n.value == L3_OFF + UDP_OVERHEAD + plainLen
              && packet[..n.value] == UdpFrame(c, old(packet[..ET_OFF]), worker, nonce.value, sh,
                                               old(packet[L3_OFF..L3_OFF + plainLen]))
  {
    var need := ENC_OFF + SHIM_SIZE + plainLen + TAG_SIZE;
    if need > packet.Length { return None; }
    Move(packet, ENC_OFF + SHIM_SIZE, L3_OFF, plainLen);
    if nonce.None? { return None; }
    assert packet[..ET_OFF] == old(packet[..ET_OFF]);
    SealUdpFrame(c, packet, plainLen, sh, worker, nonce.value);
    n := Some(need);
  }

  /** Checks the packet and sizes its two halves. */
  method SplitSizes(packet: array<byte>, len: nat) returns (r: Option<(nat, nat)>)
    requires len <= packet.Length
    ensures r.Some? <==> Splittable(packet[..len])
    ensures r.Some? ==> var h := HeadLen(packet[..len]); r.value == (h, len - L3_OFF - h) && L3_OFF + h < len
  {
    if len < 34 || packet[12] != 0x08 || packet[13] != 0x00 { return None; }
    var ipHdrLen := packet[14] % 16 * 4;
    if packet[14] / 16 != 4 || ipHdrLen < 20 || len < L3_OFF + ipHdrLen { return None; }
    var proto := packet[23];
    if proto != UDP && proto != ICMP { return None; }
    var ipPayloadLen := len - L3_OFF - ipHdrLen;
    if ipPayloadLen < 8 { return None; }
    var appLen := ipPayloadLen - 8;
    if appLen == 0 { return None; }
    var maxPlain0 := WIRE_MAX - (L3_OFF + UDP_OVERHEAD);
    var fixedPlain0 := ipHdrLen + 8;
    if maxPlain0 <= fixedPlain0 { return None; }
    var half1 := maxPlain0 - fixedPlain0;
    if half1 >= appLen { half1 := appLen - 1; }
    var half2 := appLen - half1;
    r := Some((ipHdrLen + 8 + half1, half2));
  }

  lemma HalfSlices(a: seq<byte>, len: nat, h: nat)
    requires L3_OFF + h <= len <= |a|
    ensures a[..len][..ET_OFF] == a[..ET_OFF] && a[..len][L3_OFF..L3_OFF + h] == a[L3_OFF..L3_OFF + h]
    ensures a[..len][L3_OFF + h..] == a[L3_OFF + h..L3_OFF + h + (len - L3_OFF - h)]
  {
  }

  /** Splits the packet into two wire frames, fragment zero replacing it in its own buffer. */
  method Split(c: Cipher, packet: array<byte>, len: nat, frag1: array<byte>, meta: Option<Meta>,
               worker: byte, nonce1: Option<Nonce>, nonce0: Option<Nonce>)
    returns (r: Option<(nat, nat)>)
    requires Lawful(c) && len <= packet.Length && packet != frag1
    modifies packet, frag1
    ensures var p := old(packet[..len]);
            r.Some? <==> && Splittable(p) && meta.Some? && nonce0.Some? && nonce1.Some?
                         && L3_OFF + UDP_OVERHEAD + HeadLen(p) <= packet.Length
                         && UDP_OVERHEAD + len - HeadLen(p) <= frag1.Length
    ensures r.Some? ==>
              var p := old(packet[..len]);
              && r.value.0 <= packet.Length && r.value.1 <= frag1.Length
              && packet[..r.value.0] == Frame0(c, p, worker, nonce0.value, meta.value)
              && frag1[..r.value.1] == Frame1(c, p, worker, nonce1.value, meta.value)
  {
    var sizes := SplitSizes(packet, len);
    if sizes.None? || meta.None? { return None; }
    var (h, rest) := sizes.value;
    HalfSlices(packet[..], len, h);
    assert packet[..][..len] == packet[..len];
    var n1 := EncryptFragmentSingle(c, packet, L3_OFF + h, rest,
                                    ShimFor(Frag1, meta.value), worker, nonce1, frag1);
    if n1.None? { return None; }
    var n0 := EncryptFragment0(c, packet, h, ShimFor(Frag0, meta.value), worker, nonce0);
    if n0.None? { return None; }
    r := Some((n0.value, n1.value));
  }

  /** The unsplit UDP encoding. */
  method EncryptUdp(c: Cipher, packet: array<byte>, len: nat, meta: Option<Meta>,
                    worker: byte, nonce: Option<Nonce>)
    returns (n: Option<nat>)
    requires Lawful(c) && len <= packet.Length == JUMBO_MAX
    modifies packet
    ensures n.Some? <==> && IsIpv4(old(packet[..len])) && meta.Some? && nonce.Some?
                         && len + UDP_OVERHEAD <= JUMBO_MAX
    ensures n.Some? ==>
              && n.value == len + UDP_OVERHEAD
              && packet[..n.value] == FullFrame(c, old(packet[..len]), worker, nonce.value, meta.value)
  {
    ghost var p := packet[..len];
    if len < 34 || packet[12] != 0x08 || packet[13] != 0x00 || meta.None? { return None; }
    var payloadLen := len - L3_OFF;
    if ENC_OFF + SHIM_SIZE + payloadLen + TAG_SIZE > JUMBO_MAX { return None; }
    Move(packet, ENC_OFF + SHIM_SIZE, L3_OFF, payloadLen);
    if nonce.None? { return None; }
    assert packet[..ET_OFF] == p[..ET_OFF];
    assert packet[ENC_OFF + SHIM_SIZE..ENC_OFF + SHIM_SIZE + payloadLen] == p[L3_OFF..];
    SealUdpFrame(c, packet, payloadLen, ShimFor(Full, meta.value), worker, nonce.value);
    n := Some(len + UDP_OVERHEAD);
  }

  /** Moves the plain text behind the Ethernet header; a whole datagram gets its EtherType back. */
  method ShiftDown(packet: array<byte>, n: nat, full: bool)
    requires ENC_OFF + SHIM_SIZE + n <= packet.Length
    modifies packet
    ensures packet[..L3_OFF + n] ==
            (if full then old(packet[..ET_OFF]) + [0x08, 0x00] else old(packet[..L3_OFF]))
            + old(packet[ENC_OFF + SHIM_SIZE..ENC_OFF + SHIM_SIZE + n])
  {
    Move(packet, L3_OFF, ENC_OFF + SHIM_SIZE, n);
    if full { Store(packet, ET_OFF, [0x08, 0x00]); }
  }

  lemma FrameSlices(a: seq<byte>, len: nat, off: nat)
    requires MAGIC_OFF <= off <= len <= |a|
    ensures a[..len][NONCE_OFF..MAGIC_OFF] == a[NONCE_OFF..MAGIC_OFF]
    ensures a[..len][off..] == a[off..off + (len - off)]
    ensures a[..len][..off] == a[..off]
  {
  }

  lemma SplicedSlices(a: seq<byte>, off: nat, p: seq<byte>)
    requires off + |p| <= |a|
    ensures Splice(a, off, p)[..off] == a[..off] && Splice(a, off, p)[off..off + |p|] == p
  {
  }

  /** Opens the rest of a frame from `off` on, under the nonce in its header. */
  method OpenRest(c: Cipher, packet: array<byte>, len: nat, off: nat) returns (n: Option<nat>)
    requires Lawful(c) && MAGIC_OFF <= off <= len <= packet.Length
    modifies packet
    ensures n.Some? <==>
              len > off + TAG_SIZE && c.open(old(packet[..len])[NONCE_OFF..MAGIC_OFF], old(packet[..len])[off..]).Some?
    ensures n.Some? ==>
              var p := c.open(old(packet[..len])[NONCE_OFF..MAGIC_OFF], old(packet[..len])[off..]).value;
              && n.value == |p| && off + |p| <= packet.Length
              && packet[off..off + |p|] == p && packet[..off] == old(packet[..len])[..off]
  {
    ghost var before := packet[..];
    FrameSlices(before, len, off);
    assert before[..len] == packet[..len];
    n := OpenAt(c, packet, off, len - off, packet[NONCE_OFF..MAGIC_OFF]);
    if n.Some? {
      SplicedSlices(before, off, c.open(before[NONCE_OFF..MAGIC_OFF], before[off..off + (len - off)]).value);
    }
  }

  lemma PlainSlices(a: seq<byte>, p: seq<byte>, f: seq<byte>)
    requires ENC_OFF + |p| <= |a| && ENC_OFF <= |f| && |p| >= SHIM_SIZE
    requires a[ENC_OFF..ENC_OFF + |p|] == p && a[..ENC_OFF] == f[..ENC_OFF]
    ensures a[ENC_OFF + SHIM_SIZE..ENC_OFF + SHIM_SIZE + (|p| - SHIM_SIZE)] == p[SHIM_SIZE..]
    ensures a[..L3_OFF] == f[..L3_OFF] && a[..ET_OFF] == f[..ET_OFF]
  {
    assert a[..L3_OFF] == a[..ENC_OFF][..L3_OFF] && a[..ET_OFF] == a[..ENC_OFF][..ET_OFF];
  }

  /** Opens a UDP-format frame and shifts its plain text down behind the Ethernet header. */
  method DecryptUdp(c: Cipher, packet: array<byte>, len: nat) returns (r: Option<(Shim, nat)>)
    requires Lawful(c) && len <= packet.Length
    modifies packet
    ensures r.Some? <==> OpenUdp(c, old(packet[..len])).Some?
    ensures r.Some? ==>
              var o := OpenUdp(c, old(packet[..len])).value;
              r.value.0 == o.shim && r.value.1 <= packet.Length && packet[..r.value.1] == o.packet
  {
    ghost var f := packet[..len];
    if !KnownEther(packet[..len]) || len < ENC_OFF || packet[MAGIC_OFF..ENC_OFF] != MARK { return None; }
    assert f[MAGIC_OFF..ENC_OFF] == MARK;
    if len < ENC_OFF + SHIM_SIZE + TAG_SIZE { return None; }
    var decLen := OpenRest(c, packet, len, ENC_OFF);
    if decLen.None? || decLen.value < SHIM_SIZE { return None; }
    ghost var p := c.open(f[NONCE_OFF..MAGIC_OFF], f[ENC_OFF..]).value;
    var sh := ReadShim(packet[ENC_OFF..ENC_OFF + decLen.value]);
    if sh.None? { return None; }
    var payloadLen := decLen.value - SHIM_SIZE;
    PlainSlices(packet[..], p, f);
    ShiftDown(packet, payloadLen, sh.value.kind.Full?);
    r := Some((sh.value, L3_OFF + payloadLen));
  }

  /** Header and seal of the data format around the text that sits at offset 27. */
  method SealDataFrame(c: Cipher, a: array<byte>, textLen: nat, worker: byte, nonce: Nonce)
    requires Lawful(c) && MAGIC_OFF + textLen + TAG_SIZE <= a.Length
    modifies a
    ensures a[..MAGIC_OFF + textLen + TAG_SIZE] == old(a[..ET_OFF]) + [0x10, 0x4A, worker] + nonce
                                                   + c.seal(nonce, old(a[MAGIC_OFF..MAGIC_OFF + textLen]))
  {
    ghost var text := a[MAGIC_OFF..][..textLen];
    assert a[MAGIC_OFF..MAGIC_OFF + textLen] == text;
    WriteWireHeader(a, 0x4A, worker, nonce);
    assert a[MAGIC_OFF..MAGIC_OFF + textLen] == a[MAGIC_OFF..][..textLen] == text;
    ghost var header := a[..MAGIC_OFF];
    SealAt(c, a, MAGIC_OFF, textLen, nonce);
    assert a[..MAGIC_OFF] == header;
    assert a[..MAGIC_OFF + textLen + TAG_SIZE] == a[..MAGIC_OFF] + a[MAGIC_OFF..MAGIC_OFF + textLen + TAG_SIZE];
  }

  /** The data format: the EtherType travels inside the sealed text. The callee does not
      check its buffer, so the 31 bytes of room are the caller's duty. */
  method EncryptData(c: Cipher, packet: array<byte>, len: nat, worker: byte, nonce: Option<Nonce>)
    returns (n: Option<nat>)
    requires Lawful(c) && len + DATA_OVERHEAD <= packet.Length
    modifies packet
    ensures n.Some? <==> KnownEther(old(packet[..len])) && len >= MAGIC_OFF && nonce.Some?
    ensures n.Some? ==>
              && n.value == len + DATA_OVERHEAD
              && packet[..n.value] == DataFrame(c, worker, nonce.value, old(packet[..len]))
  {
    ghost var p := packet[..len];
    if !KnownEther(packet[..len]) { return None; }
    var payloadLen := len - ET_OFF;
    if len < MAGIC_OFF { return None; }
    Move(packet, MAGIC_OFF, ET_OFF, payloadLen);
    if nonce.None? { return None; }
    assert packet[..ET_OFF] == p[..ET_OFF];
    assert packet[MAGIC_OFF..MAGIC_OFF + payloadLen] == p[ET_OFF..];
    SealDataFrame(c, packet, payloadLen, worker, nonce.value);
    n := Some(len + DATA_OVERHEAD);
  }

  lemma SplicedPrefix(a: seq<byte>, off: nat, t: seq<byte>)
    requires off + |t| <= |a|
    ensures Splice(a, off, t)[..off + |t|] == a[..off] + t
  {
  }

  /** Moves the opened text over the wire header. */
  method ShiftOver(packet: array<byte>, n: nat)
    requires MAGIC_OFF + n <= packet.Length
    modifies packet
    ensures packet[..ET_OFF + n] == old(packet[..ET_OFF]) + old(packet[MAGIC_OFF..MAGIC_OFF + n])
  {
    ghost var a, t := packet[..], packet[MAGIC_OFF..MAGIC_OFF + n];
    Move(packet, ET_OFF, MAGIC_OFF, n);
    SplicedPrefix(a, ET_OFF, t);
    assert packet[..ET_OFF + n] == packet[..][..ET_OFF + n];
  }

  method DecryptData(c: Cipher, packet: array<byte>, len: nat) returns (n: Option<nat>)
    requires Lawful(c) && len <= packet.Length
    modifies packet
    ensures n.Some? <==> OpenData(c, old(packet[..len])).Some?
    ensures n.Some? ==>
              n.value <= packet.Length && packet[..n.value] == OpenData(c, old(packet[..len])).value
  {
    ghost var f := packet[..len];
    if !KnownEther(packet[..len]) || len < MAGIC_OFF { return None; }
    var decLen := OpenRest(c, packet, len, MAGIC_OFF);
    if decLen.None? { return None; }
    assert packet[..ET_OFF] == packet[..MAGIC_OFF][..ET_OFF] == f[..ET_OFF];
    ShiftOver(packet, decLen.value);
    n := Some(ET_OFF + decLen.value);
  }
}
