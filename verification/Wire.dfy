/** The wire formats: header parsing, the 13-byte shim and the sealed frames. */
module Wire {
  import opened Bytes

  const ETH_P_IP := 0x0800
  const FAKE_ETHERTYPE := 0x104A
  const FAKE_ETHERTYPE_UDP := 0x104B
  const ET_OFF := 12
  const L3_OFF := 14
  const NONCE_OFF := 15
  const MAGIC_OFF := 27
  const ENC_OFF := 31
  const SHIM_SIZE := 13
  const TAG_SIZE := 16
  const UDP_OVERHEAD := 46
  const DATA_OVERHEAD := 31
  const MARK: seq<byte> := [0x5B, 0x55, 0x44, 0x01]
  const UDP: byte := 17
  const ICMP: byte := 1
  const TCP: byte := 6

  type Nonce = n: seq<byte> | |n| == 12 witness seq(12, i => 0)

  // ---- the sealed channel ------------------------------------------------

  /** AES-256-GCM under the one static key, as a pair of functions of nonce and text. */
  datatype Cipher = Cipher(seal: (Nonce, seq<byte>) -> seq<byte>,
                           open: (Nonce, seq<byte>) -> Option<seq<byte>>)

  /** Opening undoes sealing, only sealed texts open, and the tag costs 16 bytes. */
  ghost predicate Lawful(c: Cipher) {
    && (forall n: Nonce, p: seq<byte> ::
          |c.seal(n, p)| == |p| + TAG_SIZE && c.open(n, c.seal(n, p)) == Some(p))
    && (forall n: Nonce, t: seq<byte> ::
          c.open(n, t).Some? ==> c.seal(n, c.open(n, t).value) == t)
  }

  // ---- Ethernet / IPv4 parsing -------------------------------------------

  function EtherType(p: seq<byte>): nat
    requires |p| >= 14
  {
    p[12] as int * 256 + p[13]
  }

  predicate HasMarker(p: seq<byte>) {
    |p| >= 14 && (EtherType(p) == FAKE_ETHERTYPE || EtherType(p) == FAKE_ETHERTYPE_UDP)
  }

  /** The EtherType search succeeds (and then always answers offset 12). */
  predicate KnownEther(p: seq<byte>) {
    |p| >= 14 && (EtherType(p) == ETH_P_IP || HasMarker(p))
  }

  /** The IPv4 header search succeeds (and then always answers offset 14). */
  predicate IsIpv4(p: seq<byte>) {
    |p| >= 34 && EtherType(p) == ETH_P_IP
  }

  function Ihl(p: seq<byte>): nat
    requires |p| >= 15
  {
    p[14] % 16 * 4
  }

  function IpVersion(p: seq<byte>): nat
    requires |p| >= 15
  {
    p[14] / 16
  }

  /** The receiver tells the two formats apart by the marker at offset 27 alone. */
  predicate IsUdpWire(p: seq<byte>) {
    HasMarker(p) && |p| >= ENC_OFF && p[MAGIC_OFF..ENC_OFF] == MARK
  }

  // ---- the shim ----------------------------------------------------------

  datatype Kind = Frag0 | Frag1 | Full
  datatype Shim = Shim(kind: Kind, epoch: u32, flowSeq: u32, id: u32)

  function KindCode(k: Kind): byte {
    match k case Frag0 => 0 case Frag1 => 1 case Full => 2
  }

  function WriteShim(sh: Shim): (b: seq<byte>)
    ensures |b| == SHIM_SIZE
  {
    [16 + KindCode(sh.kind)] + Be32(sh.epoch) + Be32(sh.flowSeq) + Be32(sh.id)
  }

  function ReadShim(b: seq<byte>): Option<Shim>
    requires |b| >= SHIM_SIZE
  {
    if b[0] / 16 != 1 || b[0] % 16 > 2 then None
    else Some(Shim(if b[0] % 16 == 0 then Frag0 else if b[0] % 16 == 1 then Frag1 else Full,
                   ReadBe32(b[1..5]), ReadBe32(b[5..9]), ReadBe32(b[9..13])))
  }

  /** Reading a shim undoes writing it, whatever follows it. */
  lemma ShimRoundTrip(sh: Shim, rest: seq<byte>)
    ensures ReadShim(WriteShim(sh) + rest) == Some(sh)
  {
    var b := WriteShim(sh) + rest;
    assert b[1..5] == Be32(sh.epoch) && b[5..9] == Be32(sh.flowSeq) && b[9..13] == Be32(sh.id);
    Be32Inverse(sh.epoch, Be32(0));
    Be32Inverse(sh.flowSeq, Be32(0));
    Be32Inverse(sh.id, Be32(0));
  }

  /** The encoding is canonical: what reads back as `sh` is exactly the bytes written for `sh`. */
  lemma ShimCanonical(b: seq<byte>)
    requires |b| >= SHIM_SIZE && ReadShim(b).Some?
    ensures WriteShim(ReadShim(b).value) == b[..SHIM_SIZE]
  {
    Be32Inverse(0, b[1..5]);
    Be32Inverse(0, b[5..9]);
    Be32Inverse(0, b[9..13]);
    assert b[..SHIM_SIZE] == [b[0]] + b[1..5] + b[5..9] + b[9..13];
  }

  // ---- the UDP/fragment frame --------------------------------------------

  function UdpFrame(c: Cipher, mac: seq<byte>, worker: byte, nonce: Nonce, sh: Shim,
                    plain: seq<byte>): seq<byte>
    requires |mac| == ET_OFF
  {
    mac + [0x10, 0x4B, worker] + nonce + MARK + c.seal(nonce, WriteShim(sh) + plain)
  }

  /** What a worker learns from an authentic frame: its shim and the packet left in the buffer. */
  datatype Opened = Opened(shim: Shim, packet: seq<byte>)

  function OpenUdp(c: Cipher, f: seq<byte>): Option<Opened> {
    if !KnownEther(f) || |f| < ENC_OFF + SHIM_SIZE + TAG_SIZE || f[MAGIC_OFF..ENC_OFF] != MARK
    then None
    else match c.open(f[NONCE_OFF..MAGIC_OFF], f[ENC_OFF..])
      case None => None
      case Some(p) =>
        if |p| < SHIM_SIZE then None
        else match ReadShim(p)
          case None => None
          case Some(sh) =>
            Some(Opened(sh, (if sh.kind.Full? then f[..ET_OFF] + [0x08, 0x00] else f[..L3_OFF])
                            + p[SHIM_SIZE..]))
  }

  /** Opening a frame gives back its shim, its addresses and its plain text. */
  lemma OpenUdpFrame(c: Cipher, mac: seq<byte>, worker: byte, nonce: Nonce, sh: Shim,
                     plain: seq<byte>)
    requires Lawful(c) && |mac| == ET_OFF
    ensures var f := UdpFrame(c, mac, worker, nonce, sh, plain);
            && IsUdpWire(f) && f[L3_OFF] == worker
            && |f| == L3_OFF + |plain| + UDP_OVERHEAD
            && OpenUdp(c, f) == Some(Opened(sh, mac
                 + (if sh.kind.Full? then [0x08, 0x00] else [0x10, 0x4B]) + plain))
  {
    var f := UdpFrame(c, mac, worker, nonce, sh, plain);
    var p := WriteShim(sh) + plain;
    assert f[..L3_OFF] == mac + [0x10, 0x4B];
    assert f[NONCE_OFF..MAGIC_OFF] == nonce;
    assert f[MAGIC_OFF..ENC_OFF] == MARK;
    assert f[ENC_OFF..] == c.seal(nonce, p);
    assert f[..ET_OFF] == mac;
    ShimRoundTrip(sh, plain);
    assert p[SHIM_SIZE..] == plain;
  }

  /** Big-endian, most significant byte first. */
  predicate IsBe32(b: seq<byte>, v: u32) {
    |b| == 4 && v == b[0] as int * 0x100_0000 + b[1] as int * 0x1_0000 + b[2] as int * 0x100 + b[3] as int
  }

  /** The layout, byte by byte: the marker EtherType, the worker, the nonce, the mark, and a sealed text
      that starts with version and kind, the epoch, the flow sequence number and the datagram id. */
  lemma UdpLayout(c: Cipher, mac: seq<byte>, worker: byte, nonce: Nonce, sh: Shim, plain: seq<byte>)
    requires Lawful(c) && |mac| == ET_OFF
    ensures var f := UdpFrame(c, mac, worker, nonce, sh, plain);
            && f[..12] == mac && f[12] == 0x10 && f[13] == 0x4B && f[14] == worker && f[15..27] == nonce
            && f[27..31] == [0x5B, 0x55, 0x44, 0x01]
            && var o := c.open(nonce, f[31..]);
               && o.Some? && |o.value| == 13 + |plain| && o.value[13..] == plain
               && o.value[0] == 0x10 + (match sh.kind case Frag0 => 0 case Frag1 => 1 case Full => 2)
               && IsBe32(o.value[1..5], sh.epoch) && IsBe32(o.value[5..9], sh.flowSeq) && IsBe32(o.value[9..13], sh.id)
  {
    var f, text := UdpFrame(c, mac, worker, nonce, sh, plain), WriteShim(sh) + plain;
    assert f[31..] == c.seal(nonce, text);
    assert text[1..5] == Be32(sh.epoch) && text[5..9] == Be32(sh.flowSeq) && text[9..13] == Be32(sh.id);
    Be32Inverse(sh.epoch, Be32(0));
    Be32Inverse(sh.flowSeq, Be32(0));
    Be32Inverse(sh.id, Be32(0));
  }

  // ---- the data frame ----------------------------------------------------

  function DataFrame(c: Cipher, worker: byte, nonce: Nonce, p: seq<byte>): seq<byte>
    requires |p| >= 14
  {
    p[..ET_OFF] + [0x10, 0x4A, worker] + nonce + c.seal(nonce, p[ET_OFF..])
  }

  function OpenData(c: Cipher, f: seq<byte>): Option<seq<byte>> {
    if !KnownEther(f) || |f| <= MAGIC_OFF + TAG_SIZE then None
    else match c.open(f[NONCE_OFF..MAGIC_OFF], f[MAGIC_OFF..])
      case None => None
      case Some(p) => Some(f[..ET_OFF] + p)
  }

  /** The data format restores every packet; it is taken for the data format
      exactly when its ciphertext does not happen to begin with the marker. */
  lemma OpenDataFrame(c: Cipher, worker: byte, nonce: Nonce, p: seq<byte>)
    requires Lawful(c) && |p| >= 14
    ensures var f := DataFrame(c, worker, nonce, p);
            && HasMarker(f) && f[L3_OFF] == worker && |f| == |p| + DATA_OVERHEAD
            && OpenData(c, f) == Some(p)
            && (IsUdpWire(f) <==> c.seal(nonce, p[ET_OFF..])[..4] == MARK)
  {
    var f := DataFrame(c, worker, nonce, p);
    assert f[NONCE_OFF..MAGIC_OFF] == nonce;
    assert f[MAGIC_OFF..] == c.seal(nonce, p[ET_OFF..]);
    assert f[MAGIC_OFF..ENC_OFF] == c.seal(nonce, p[ET_OFF..])[..4];
    assert f[..ET_OFF] + p[ET_OFF..] == p;
  }
}
