/** Clamping the MSS option of TCP SYN segments with an incremental checksum update
    (equation 3 of section 3 of RFC 1624; MSS option of section 3.2 of RFC 9293). */
module MssClamp {
  import opened Bytes
  import opened Limits
  import opened RingIndex
  import opened Wire

  const MTU := 9000

  // ---- one's complement sums ---------------------------------------------------------------

  /** End-around carry until 16 bits are left. */
  function Fold(x: nat): (r: nat)
    ensures r < 0x1_0000
  {
    if x < 0x1_0000 then x else Fold(x % 0x1_0000 + x / 0x1_0000)
  }

  lemma {:induction false} FoldResidue(x: nat) returns (q: nat)
    ensures x == Fold(x) + 0xFFFF * q && (x > 0 ==> Fold(x) > 0)
  {
    if x < 0x1_0000 {
      q := 0;
    } else {
      var r := FoldResidue(x % 0x1_0000 + x / 0x1_0000);
      q := r + x / 0x1_0000;
    }
  }

  function Weighed(b: int, i: nat): int { if i % 2 == 0 then 256 * b else b }

  /** The sum of the 16-bit big-endian words of the first `n` bytes, an odd last byte padded. */
  function WordSum(s: seq<byte>, n: nat): nat
    requires n <= |s|
  {
    if n == 0 then 0 else WordSum(s, n - 1) + Weighed(s[n - 1], n - 1)
  }

  predicate Zero(sum: nat) { sum > 0 && sum % 0xFFFF == 0 }

  /** A segment's checksum verifies: its words and the pseudo-header's sum to one's complement zero. */
  predicate Verifies(pseudo: nat, segment: seq<byte>) {
    Zero(pseudo + WordSum(segment, |segment|))
  }

  lemma ZeroResidue(sum: nat, f: nat, q: nat)
    requires sum == f + 0xFFFF * q && f <= 0xFFFF && (sum > 0 ==> f > 0)
    ensures Zero(sum) <==> f == 0xFFFF
  {
    if f == 0xFFFF {
      ModUnique(sum, 0xFFFF, q + 1, 0);
    } else {
      ModUnique(sum, 0xFFFF, q, f);
    }
  }

  /** That is: the carries fold them to sixteen ones. */
  lemma ZeroFoldsToOnes(sum: nat)
    ensures Zero(sum) <==> Fold(sum) == 0xFFFF
  {
    var q := FoldResidue(sum);
    ZeroResidue(sum, Fold(sum), q);
  }

  lemma {:induction false} WordSumPrefix(s: seq<byte>, z: seq<byte>, n: nat)
    requires n <= |s| && n <= |z| && s[..n] == z[..n]
    ensures WordSum(s, n) == WordSum(z, n)
  {
    if n > 0 {
      assert s[n - 1] == s[..n][n - 1] == z[..n][n - 1] == z[n - 1];
      assert s[..n - 1] == s[..n][..n - 1] == z[..n][..n - 1] == z[..n - 1];
      WordSumPrefix(s, z, n - 1);
    }
  }

  lemma {:induction false} WordSumSet(s: seq<byte>, n: nat, i: nat, b: byte)
    requires n <= |s| && i < n
    ensures WordSum(s[i := b], n) == WordSum(s, n) + Weighed(b, i) - Weighed(s[i], i)
  {
    if i < n - 1 {
      WordSumSet(s, n - 1, i, b);
    } else {
      WordSumPrefix(s, s[i := b], n - 1);
    }
  }

  lemma {:induction false} WordSumPositive(s: seq<byte>, n: nat, i: nat)
    requires i < n <= |s| && s[i] > 0
    ensures WordSum(s, n) > 0
  {
    if i < n - 1 { WordSumPositive(s, n - 1, i); }
  }

  // ---- the rewrite --------------------------------------------------------------------------

  function Hi(w: u16): byte { w / 256 }
  function Lo(w: u16): byte { w % 256 }

  function Word(s: seq<byte>, i: nat): u16
    requires i + 1 < |s|
  {
    s[i] as int * 256 + s[i + 1] as int
  }

  function PutWord(s: seq<byte>, i: nat, w: u16): seq<byte>
    requires i + 1 < |s|
  {
    s[i := Hi(w)][i + 1 := Lo(w)]
  }

  /** The checksum field after one word of the data went from `was` to `now`. */
  function Update(hc: u16, was: u16, now: u16): u16 {
    0xFFFF - Fold((0xFFFF - hc) + (0xFFFF - was) + now)
  }

  /** How a word counts at an even and at an odd offset. */
  function Share(w: u16, even: bool): nat {
    if even then w else w % 256 * 256 + w / 256
  }

  lemma ShareParts(hi: byte, lo: byte)
    ensures Share(hi as int * 256 + lo, true) == hi as int * 256 + lo
    ensures Share(hi as int * 256 + lo, false) == lo as int * 256 + hi
  {
  }

  lemma WordSumPut(s: seq<byte>, n: nat, i: nat, w: u16)
    requires n <= |s| && i + 1 < n
    ensures WordSum(PutWord(s, i, w), n) == WordSum(s, n) + Share(w, i % 2 == 0) - Share(Word(s, i), i % 2 == 0)
  {
    var z := s[i := Hi(w)];
    WordSumSet(s, n, i, Hi(w));
    WordSumSet(z, n, i + 1, Lo(w));
    assert z[i + 1] == s[i + 1];
    ShareParts(Hi(w), Lo(w));
    ShareParts(s[i], s[i + 1]);
  }

  /** Replacing a word and updating the checksum moves the sum by a multiple of 0xFFFF when the
      word is aligned, and by 255 times the change, up to such a multiple, when it is not. */
  lemma UpdateMoves(hc: u16, was: u16, now: u16, even: bool) returns (q: int)
    ensures Update(hc, was, now) - hc + Share(now, even) - Share(was, even)
         == 0xFFFF * q + (if even then 0 else -255 * (was - now))
  {
    var j := FoldResidue((0xFFFF - hc) + (0xFFFF - was) + now);
    if even {
      q := j - 1;
    } else {
      q := j - 1 - now / 256 + was / 256;
    }
  }

  lemma Divides255(sum: int, moved: int, q: int, d: int)
    requires sum % 0xFFFF == 0 && moved == sum + 0xFFFF * q + 255 * d
    ensures moved % 0xFFFF == 0 <==> d % 257 == 0
  {
    var k := sum / 0xFFFF + q + d / 257;
    ModUnique(moved, 0xFFFF, k, 255 * (d % 257));
  }

  lemma StillDivides(sum: int, moved: int, q: int, d: int, even: bool)
    requires sum % 0xFFFF == 0 && moved == sum + 0xFFFF * q + (if even then 0 else -255 * d)
    ensures moved % 0xFFFF == 0 <==> even || d % 257 == 0
  {
    if !even { Divides255(sum, moved, q, -d); }
  }

  // ---- finding the option ---------------------------------------------------------------------

  datatype Seen = Stop | Hit | Skip(to: nat)

  /** One turn of the option walk at offset `off` of the TCP header. */
  function LookAt(p: seq<byte>, t: nat, off: nat, end: nat): (r: Seen)
    requires t + end <= |p|
    ensures r.Hit? ==> off + 4 <= end
    ensures r.Skip? ==> off < r.to <= end
  {
    if off + 1 >= end || p[t + off] == 0 then Stop
    else if p[t + off] == 1 then Skip(off + 1)
    else
      var olen := p[t + off + 1];
      if olen < 2 || off + olen > end then Stop
      else if p[t + off] == 2 && olen == 4 then Hit
      else Skip(off + olen)
  }

  /** Offset from the TCP header of the first well-formed MSS option at or after `off`. */
  function FindMss(p: seq<byte>, t: nat, off: nat, end: nat): (r: Option<nat>)
    requires t + end <= |p|
    ensures r.Some? ==> off <= r.value && r.value + 4 <= end
    decreases end - off
  {
    match LookAt(p, t, off, end)
    case Stop => None
    case Hit => Some(off)
    case Skip(to) => FindMss(p, t, to, end)
  }

  // ---- options as a list (section 3.1 of RFC 9293) -------------------------------------------------

  datatype Opt = Nop | Mss(value: u16) | Other(kind: byte, data: seq<byte>)

  predicate OptOk(o: Opt) {
    o.Other? ==> o.kind >= 2 && |o.data| <= 253 && (o.kind == 2 ==> |o.data| != 2)
  }

  function Size(o: Opt): nat {
    match o case Nop => 1 case Mss(_) => 4 case Other(_, data) => |data| + 2
  }

  function EncodeOpt(o: Opt): (b: seq<byte>)
    requires OptOk(o)
    ensures |b| == Size(o)
  {
    match o
    case Nop => [1]
    case Mss(v) => [2, 4, Hi(v), Lo(v)]
    case Other(kind, data) => [kind, |data| + 2] + data
  }

  /** Where the `j`-th option of a list starts, from the start of the TCP header. */
  function Start(os: seq<Opt>, j: nat): nat
    requires j <= |os|
  {
    if j == 0 then 20 else Start(os, j - 1) + Size(os[j - 1])
  }

  lemma {:induction false} StartsBehindHeader(os: seq<Opt>, j: nat)
    requires j <= |os|
    ensures Start(os, j) >= 20
  {
    if j > 0 { StartsBehindHeader(os, j - 1); }
  }

  /** The encoding of the `j`-th option stands where it should. */
  predicate Stands(p: seq<byte>, t: nat, end: nat, os: seq<Opt>, j: nat)
    requires t + end <= |p| && j < |os|
  {
    && OptOk(os[j]) && Start(os, j) + Size(os[j]) <= end
    && p[t + Start(os, j)..t + Start(os, j) + Size(os[j])] == EncodeOpt(os[j])
  }

  /** No whole option stands at `off`: its length is missing, too small, or passes the end. */
  predicate Cut(p: seq<byte>, t: nat, end: nat, off: nat)
    requires t + end <= |p| && off < end
  {
    p[t + off] >= 2 && (off + 1 == end || p[t + off + 1] < 2 || off + p[t + off + 1] > end)
  }

  /** The header's option area holds the encoding of `os`, and then ends, or has an end-of-list byte
      or a cut option, followed by anything. */
  predicate Lists(p: seq<byte>, t: nat, end: nat, os: seq<Opt>)
    requires t + end <= |p|
  {
    var off := Start(os, |os|);
    && (forall j :: 0 <= j < |os| ==> Stands(p, t, end, os, j))
    && (off == end || (off < end && (p[t + off] == 0 || Cut(p, t, end, off))))
  }

  predicate StandAll(p: seq<byte>, t: nat, end: nat, os: seq<Opt>)
    requires t + end <= |p|
  {
    Start(os, |os|) <= end && forall j :: 0 <= j < |os| ==> Stands(p, t, end, os, j)
  }

  lemma {:induction false} StartSame(os: seq<Opt>, o: Opt, j: nat)
    requires j <= |os|
    ensures Start(os + [o], j) == Start(os, j)
  {
    if j > 0 { StartSame(os, o, j - 1); }
  }

  /** The option that starts at `off`, if it is whole. */
  function ReadOpt(p: seq<byte>, t: nat, end: nat, off: nat): (o: Opt)
    requires t + end <= |p| && off < end && p[t + off] != 0 && !Cut(p, t, end, off)
    ensures OptOk(o) && off + Size(o) <= end
  {
    if p[t + off] == 1 then Nop
    else if p[t + off] == 2 && p[t + off + 1] == 4 then Mss(Word(p, t + off + 2))
    else Other(p[t + off], p[t + off + 2..t + off + p[t + off + 1]])
  }

  lemma EncodesMss(p: seq<byte>, a: nat)
    requires a + 4 <= |p| && p[a] == 2 && p[a + 1] == 4
    ensures p[a..a + 4] == EncodeOpt(Mss(Word(p, a + 2)))
  {
  }

  lemma EncodesOther(p: seq<byte>, a: nat, n: nat)
    requires 2 <= n < 256 && a + n <= |p| && p[a] >= 2 && p[a + 1] == n && (p[a] == 2 ==> n != 4)
    ensures p[a..a + n] == EncodeOpt(Other(p[a], p[a + 2..a + n]))
  {
  }

  lemma ReadOptStands(p: seq<byte>, t: nat, end: nat, off: nat)
    requires t + end <= |p| && off < end && p[t + off] != 0 && !Cut(p, t, end, off)
    ensures var o := ReadOpt(p, t, end, off); p[t + off..t + off + Size(o)] == EncodeOpt(o)
  {
    if p[t + off] != 1 {
      if p[t + off] == 2 && p[t + off + 1] == 4 {
        EncodesMss(p, t + off);
      } else {
        EncodesOther(p, t + off, p[t + off + 1]);
      }
    }
  }

  lemma StandsStill(p: seq<byte>, t: nat, end: nat, os: seq<Opt>, o: Opt, j: nat)
    requires t + end <= |p| && j < |os| && Stands(p, t, end, os, j)
    ensures Stands(p, t, end, os + [o], j)
  {
    var more := os + [o];
    StartSame(os, o, j);
    assert more[j] == os[j];
  }

  lemma StandsLast(p: seq<byte>, t: nat, end: nat, os: seq<Opt>, o: Opt, off: nat)
    requires t + end <= |p| && off == Start(os, |os|)
    requires OptOk(o) && off + Size(o) <= end && p[t + off..t + off + Size(o)] == EncodeOpt(o)
    ensures Stands(p, t, end, os + [o], |os|) && Start(os + [o], |os + [o]|) == off + Size(o)
  {
    var more := os + [o];
    StartSame(os, o, |os|);
    assert more[|os|] == o && |more| == |os| + 1;
  }

  lemma OneMore(p: seq<byte>, t: nat, end: nat, os: seq<Opt>, o: Opt, off: nat)
    requires t + end <= |p| && StandAll(p, t, end, os) && off == Start(os, |os|)
    requires OptOk(o) && off + Size(o) <= end && p[t + off..t + off + Size(o)] == EncodeOpt(o)
    ensures StandAll(p, t, end, os + [o]) && Start(os + [o], |os + [o]|) == off + Size(o)
  {
    StandsLast(p, t, end, os, o, off);
    forall j | 0 <= j < |os + [o]| ensures Stands(p, t, end, os + [o], j) {
      if j < |os| { StandsStill(p, t, end, os, o, j); }
    }
  }

  /** Every option area is such a list. */
  lemma {:induction false} AreaLists(p: seq<byte>, t: nat, end: nat, os: seq<Opt>) returns (all: seq<Opt>)
    requires t + end <= |p| && StandAll(p, t, end, os)
    ensures Lists(p, t, end, all)
    decreases end - Start(os, |os|)
  {
    var off := Start(os, |os|);
    if off == end || p[t + off] == 0 || Cut(p, t, end, off) {
      all := os;
    } else {
      var o := ReadOpt(p, t, end, off);
      ReadOptStands(p, t, end, off);
      OneMore(p, t, end, os, o, off);
      all := AreaLists(p, t, end, os + [o]);
    }
  }

  lemma AtStart(p: seq<byte>, lo: nat, b: seq<byte>, k: nat)
    requires lo + |b| <= |p| && p[lo..lo + |b|] == b && k < |b|
    ensures p[lo + k] == b[k]
  {
    assert p[lo + k] == p[lo..lo + |b|][k];
  }

  lemma LooksAt(p: seq<byte>, t: nat, end: nat, os: seq<Opt>, j: nat)
    requires t + end <= |p| && Lists(p, t, end, os) && j < |os|
    ensures LookAt(p, t, Start(os, j), end) ==
            if os[j].Mss? then Hit else if os[j].Nop? && Start(os, j + 1) == end then Stop else Skip(Start(os, j + 1))
  {
    assert Stands(p, t, end, os, j);
    var b := EncodeOpt(os[j]);
    AtStart(p, t + Start(os, j), b, 0);
    if !os[j].Nop? { AtStart(p, t + Start(os, j), b, 1); }
  }

  lemma SkipsOne(p: seq<byte>, t: nat, off: nat, to: nat, end: nat)
    requires t + end <= |p| && (LookAt(p, t, off, end) == Skip(to) || (LookAt(p, t, off, end) == Stop && to == end))
    ensures FindMss(p, t, off, end) == FindMss(p, t, to, end)
  {
    if to == end { assert LookAt(p, t, end, end) == Stop; }
  }

  lemma {:induction false} WalkReaches(p: seq<byte>, t: nat, end: nat, os: seq<Opt>, j: nat)
    requires t + end <= |p| && Lists(p, t, end, os) && j <= |os| && forall i :: 0 <= i < j ==> !os[i].Mss?
    ensures FindMss(p, t, 20, end) == FindMss(p, t, Start(os, j), end)
  {
    if j > 0 {
      WalkReaches(p, t, end, os, j - 1);
      LooksAt(p, t, end, os, j - 1);
      SkipsOne(p, t, Start(os, j - 1), Start(os, j), end);
    }
  }

  lemma MssValueAt(p: seq<byte>, t: nat, end: nat, os: seq<Opt>, j: nat)
    requires t + end <= |p| && Lists(p, t, end, os) && j < |os| && os[j].Mss?
    ensures Start(os, j) + 4 <= end && Word(p, t + Start(os, j) + 2) == os[j].value
  {
    assert Stands(p, t, end, os, j);
    AtStart(p, t + Start(os, j), EncodeOpt(os[j]), 2);
    AtStart(p, t + Start(os, j), EncodeOpt(os[j]), 3);
  }

  /** On every well-formed option list the walk finds exactly the first MSS option. */
  lemma WalkFindsFirst(p: seq<byte>, t: nat, end: nat, os: seq<Opt>, j: nat)
    requires t + end <= |p| && Lists(p, t, end, os) && j <= |os| && forall i :: 0 <= i < j ==> !os[i].Mss?
    ensures j < |os| && os[j].Mss? ==>
              && FindMss(p, t, 20, end) == Some(Start(os, j))
              && Start(os, j) + 4 <= end && Word(p, t + Start(os, j) + 2) == os[j].value
    ensures j == |os| ==> FindMss(p, t, 20, end) == None
  {
    WalkReaches(p, t, end, os, j);
    if j < |os| && os[j].Mss? {
      LooksAt(p, t, end, os, j);
      MssValueAt(p, t, end, os, j);
    }
  }

  /** The largest MSS the path carries; the source's subtraction is on 32-bit words. */
  function Cap(ihl: nat, mtu: u32, overhead: u32): Option<u16> {
    var used := (ihl + 20 + overhead) % 0x1_0000_0000;
    if mtu <= used then None
    else if mtu - used < 536 then Some(536)
    else if mtu - used > 0xFFFF then Some(0xFFFF)
    else Some(mtu - used)
  }

  datatype Header = Bad | NotSyn | Syn(tcp: nat, end: nat, cap: u16)

  /** The checks before the option walk: where the TCP header starts, where its options end
      (relative to it), and the cap. */
  function HeaderOf(p: seq<byte>, mtu: u32, overhead: u32): (h: Header)
    ensures h.Syn? ==> |p| >= 34 && h.tcp == L3_OFF + Ihl(p) && 20 <= h.end && h.tcp + h.end <= |p|
    ensures h.Syn? ==> h.end == p[h.tcp + 12] / 16 * 4 && Cap(h.tcp - L3_OFF, mtu, overhead) == Some(h.cap)
  {
    if mtu < 576 || !IsIpv4(p) || IpVersion(p) != 4 || p[23] != TCP then Bad
    else
      var ihl, t := Ihl(p), L3_OFF + Ihl(p);
      if ihl < 20 || |p| < t + 20 then Bad
      else if p[t + 13] / 2 % 2 == 0 then NotSyn
      else
        var end := p[t + 12] / 16 * 4;
        if end < 20 || |p| < t + end then Bad
        else match Cap(ihl, mtu, overhead)
          case None => Bad
          case Some(cap) => Syn(t, end, cap)
  }

  datatype Plan = Fail | Keep | Rewrite(tcp: nat, at: nat, mss: u16)

  /** What becomes of a packet: rejected, left alone, or its MSS word at `at` set to `mss`. */
  function PlanOf(p: seq<byte>, mtu: u32, overhead: u32): Plan {
    match HeaderOf(p, mtu, overhead)
    case Bad => Fail
    case NotSyn => Keep
    case Syn(t, end, cap) =>
      match FindMss(p, t, 20, end)
      case None => Keep
      case Some(off) => if Word(p, t + off + 2) > cap then Rewrite(t, t + off + 2, cap) else Keep
  }

  function Rewritten(p: seq<byte>, t: nat, at: nat, mss: u16): seq<byte>
    requires t + 20 <= at && at + 1 < |p|
  {
    PutWord(PutWord(p, at, mss), t + 16, Update(Word(p, t + 16), Word(p, at), mss))
  }

  lemma PlanFacts(p: seq<byte>, mtu: u32, overhead: u32)
    requires PlanOf(p, mtu, overhead).Rewrite?
    ensures var r, h := PlanOf(p, mtu, overhead), HeaderOf(p, mtu, overhead);
            && h.Syn? && r.tcp == h.tcp && r.mss == h.cap && h.tcp + 12 < |p| && p[h.tcp + 12] > 0
            && r.tcp + 22 <= r.at && r.at + 2 <= r.tcp + h.end <= |p| && Word(p, r.at) > r.mss
            && FindMss(p, r.tcp, 20, h.end) == Some(r.at - 2 - r.tcp)
  {
  }

  function Clamped(p: seq<byte>, mtu: u32, overhead: u32): seq<byte> {
    match PlanOf(p, mtu, overhead)
    case Rewrite(t, at, mss) => PlanFacts(p, mtu, overhead); Rewritten(p, t, at, mss)
    case _ => p
  }

  // ---- what is clamped, read off the packet ------------------------------------------------------

  /** The control bits of a TCP header (section 3.1 of RFC 9293). */
  datatype Flags = Flags(cwr: bool, ece: bool, urg: bool, ack: bool, psh: bool, rst: bool, syn: bool, fin: bool)

  function FlagByte(fl: Flags): (b: nat)
    ensures b < 256
  {
    128 * One(fl.cwr) + 64 * One(fl.ece) + 32 * One(fl.urg) + 16 * One(fl.ack)
    + 8 * One(fl.psh) + 4 * One(fl.rst) + 2 * One(fl.syn) + One(fl.fin)
  }

  /** The four low bits. */
  function LowBits(fl: Flags): nat { 8 * One(fl.psh) + 4 * One(fl.rst) + 2 * One(fl.syn) + One(fl.fin) }

  lemma LowFlags(r: nat) returns (fl: Flags)
    requires r < 16
    ensures LowBits(fl) == r
  {
    var r3 := if r >= 8 then r - 8 else r;
    var r2 := if r3 >= 4 then r3 - 4 else r3;
    fl := Flags(false, false, false, false, r >= 8, r3 >= 4, r2 >= 2, r2 == 1 || r2 == 3);
  }

  /** Every byte is a set of flags. */
  lemma FlagsOf(b: byte) returns (fl: Flags)
    ensures FlagByte(fl) == b
  {
    var r7 := if b >= 128 then b - 128 else b;
    var r6 := if r7 >= 64 then r7 - 64 else r7;
    var r5 := if r6 >= 32 then r6 - 32 else r6;
    var r4 := if r5 >= 16 then r5 - 16 else r5;
    var low := LowFlags(r4);
    fl := low.(cwr := b >= 128, ece := r7 >= 64, urg := r6 >= 32, ack := r5 >= 16);
    assert FlagByte(fl) == 128 * One(fl.cwr) + 64 * One(fl.ece) + 32 * One(fl.urg) + 16 * One(fl.ack) + LowBits(low);
  }

  /** An IPv4 packet of version 4 with protocol TCP and a header of at least 20 bytes. */
  predicate CarriesTcp(p: seq<byte>) {
    |p| >= 34 && p[12] == 0x08 && p[13] == 0x00 && p[14] / 16 == 4 && p[14] % 16 >= 5 && p[23] == 6
  }

  /** Behind the IPv4 header stands a whole TCP header with these flags and options. */
  predicate TcpHeader(p: seq<byte>, fl: Flags, os: seq<Opt>) {
    |p| >= 34 &&
    var t := 14 + p[14] % 16 * 4;
    && t + 20 <= |p| && p[t + 13] == FlagByte(fl)
    && var end := p[t + 12] / 16 * 4;
       t + end <= |p| && Lists(p, t, end, os)
  }

  /** The first MSS option is the `j`-th, or there is none. */
  predicate FirstMss(os: seq<Opt>, j: nat) {
    j <= |os| && (j < |os| ==> os[j].Mss?) && forall i :: 0 <= i < j ==> !os[i].Mss?
  }

  function Clip(room: int): u16 {
    if room < 536 then 536 else if room > 0xFFFF then 0xFFFF else room
  }

  lemma SynBit(b: byte, fl: Flags)
    requires b == FlagByte(fl)
    ensures b / 2 % 2 == 0 <==> !fl.syn
  {
    var high := 32 * One(fl.cwr) + 16 * One(fl.ece) + 8 * One(fl.urg) + 4 * One(fl.ack) + 2 * One(fl.psh) + One(fl.rst);
    assert b == 4 * high + 2 * One(fl.syn) + One(fl.fin);
    assert b / 2 == 2 * high + One(fl.syn);
  }

  /** For every whole TCP header, whatever its other flags and whatever its options: what is done,
      and the three numbers of a rewrite. */
  lemma PlanIs(p: seq<byte>, mtu: u32, overhead: u32, fl: Flags, os: seq<Opt>, j: nat)
    requires TcpHeader(p, fl, os) && FirstMss(os, j)
    ensures var ihl := p[14] % 16 * 4;
            var room := mtu - (ihl + 20 + overhead) % 0x1_0000_0000;
            PlanOf(p, mtu, overhead) ==
            if mtu < 576 || !CarriesTcp(p) || (fl.syn && room <= 0) then Fail
            else if fl.syn && j < |os| && os[j].value > Clip(room)
            then Rewrite(14 + ihl, 14 + ihl + Start(os, j) + 2, Clip(room))
            else Keep
  {
    var t := 14 + p[14] % 16 * 4;
    SynBit(p[t + 13], fl);
    StartsBehindHeader(os, |os|);
    WalkFindsFirst(p, t, p[t + 12] / 16 * 4, os, j);
  }

  /** Every TCP header that fits the packet has flags and options. */
  lemma HeaderWhole(p: seq<byte>, t: nat, end: nat) returns (fl: Flags, os: seq<Opt>)
    requires |p| >= 34 && t == 14 + p[14] % 16 * 4 && t + 20 <= |p| && 20 <= end == p[t + 12] / 16 * 4 && t + end <= |p|
    ensures TcpHeader(p, fl, os)
  {
    fl := FlagsOf(p[t + 13]);
    os := AreaLists(p, t, end, []);
  }

  /** Without a whole TCP header the packet fails, unless its first 20 bytes are there and the SYN
      bit is not set. */
  lemma PlanCutOff(p: seq<byte>, mtu: u32, overhead: u32)
    requires forall fl, os :: !TcpHeader(p, fl, os)
    ensures var t := if |p| >= 34 then 14 + p[14] % 16 * 4 else 0;
            PlanOf(p, mtu, overhead) ==
            if mtu >= 576 && CarriesTcp(p) && t + 20 <= |p| && p[t + 13] / 2 % 2 == 0 then Keep else Fail
  {
    var h := HeaderOf(p, mtu, overhead);
    if h.Syn? { var fl, os := HeaderWhole(p, h.tcp, h.end); }
  }

  /** A SYN whose first MSS option is the `j`-th. */
  predicate OffersMss(p: seq<byte>, fl: Flags, os: seq<Opt>, j: nat) {
    CarriesTcp(p) && TcpHeader(p, fl, os) && fl.syn && FirstMss(os, j) && j < |os|
  }

  lemma {:induction false} FirstMssOf(os: seq<Opt>, i: nat) returns (j: nat)
    requires i <= |os| && forall k :: 0 <= k < i ==> !os[k].Mss?
    ensures FirstMss(os, j)
    decreases |os| - i
  {
    if i == |os| || os[i].Mss? { j := i; } else { j := FirstMssOf(os, i + 1); }
  }

  /** Nothing else is rewritten. */
  lemma RewritesOffer(p: seq<byte>, mtu: u32, overhead: u32) returns (fl: Flags, os: seq<Opt>, j: nat)
    requires PlanOf(p, mtu, overhead).Rewrite?
    ensures OffersMss(p, fl, os, j)
  {
    var h := HeaderOf(p, mtu, overhead);
    fl, os := HeaderWhole(p, h.tcp, h.end);
    j := FirstMssOf(os, 0);
    PlanIs(p, mtu, overhead, fl, os, j);
  }

  // ---- the code in place -----------------------------------------------------------------------

  /** tcp_checksum_replace_word. */
  method ReplaceWord(pkt: array<byte>, tcp: nat, was: u16, now: u16)
    requires tcp + 17 < pkt.Length
    modifies pkt
    ensures was != now ==> pkt[..] == PutWord(old(pkt[..]), tcp + 16, Update(Word(old(pkt[..]), tcp + 16), was, now))
    ensures was == now ==> pkt[..] == old(pkt[..])
  {
    if was == now { return; }
    var hc: u16 := pkt[tcp + 16] as int * 256 + pkt[tcp + 17] as int;
    var sum: nat := (0xFFFF - hc) + (0xFFFF - was) + now;
    while sum / 0x1_0000 != 0
      invariant Fold(sum) == Fold((0xFFFF - hc) + (0xFFFF - was) + now)
      decreases sum
    {
      sum := sum % 0x1_0000 + sum / 0x1_0000;
    }
    hc := 0xFFFF - sum;
    pkt[tcp + 16] := hc / 256;
    pkt[tcp + 17] := hc % 256;
  }

  /** The option walk: the offset it stops at, and whether an MSS option is there. */
  method WalkOptions(pkt: array<byte>, len: nat, tcp: nat, end: nat) returns (found: bool, off: nat)
    requires 20 <= end && tcp + end <= len <= pkt.Length
    ensures FindMss(pkt[..len], tcp, 20, end) == if found then Some(off) else None
  {
    found, off := false, 20;
    while off + 1 < end
      invariant 20 <= off <= end && !found
      invariant FindMss(pkt[..len], tcp, 20, end) == FindMss(pkt[..len], tcp, off, end)
      decreases end - off
    {
      var kind := pkt[tcp + off];
      if kind == 0 { return; }
      if kind == 1 {
        off := off + 1;
        continue;
      }
      var olen := pkt[tcp + off + 1];
      if olen < 2 || off + olen > end { return; }
      if kind == 2 && olen == 4 {
        found := true;
        return;
      }
      off := off + olen;
    }
  }

  method ReadHeader(pkt: array<byte>, len: nat, mtu: u32, overhead: u32) returns (h: Header)
    requires len <= pkt.Length
    ensures h == HeaderOf(pkt[..len], mtu, overhead)
  {
    if mtu < 576 { return Bad; }
    if len < 34 || pkt[12] as int * 256 + pkt[13] as int != ETH_P_IP { return Bad; }
    if pkt[14] / 16 != 4 || pkt[23] != TCP { return Bad; }
    var ihl := pkt[14] % 16 * 4;
    var t := L3_OFF + ihl;
    if ihl < 20 || len < t + 20 { return Bad; }
    if pkt[t + 13] / 2 % 2 == 0 { return NotSyn; }
    var end := pkt[t + 12] / 16 * 4;
    if end < 20 || len < t + end { return Bad; }
    var used := (ihl + 20 + overhead) % 0x1_0000_0000;
    if mtu <= used { return Bad; }
    var cap := mtu - used;
    if cap < 536 { cap := 536; }
    if cap > 0xFFFF { cap := 0xFFFF; }
    return Syn(t, end, cap);
  }

  /** crypto_tcp_clamp_mss on the first `len` bytes of the buffer. */
  method ClampMss(pkt: array<byte>, len: nat, mtu: u32, overhead: u32) returns (r: int)
    requires len <= pkt.Length
    modifies pkt
    ensures pkt[..len] == Clamped(old(pkt[..len]), mtu, overhead) && pkt[len..] == old(pkt[len..])
    ensures r == match PlanOf(old(pkt[..len]), mtu, overhead) case Fail => -1 case Keep => 0 case Rewrite(_, _, _) => 1
  {
    ghost var p := pkt[..len];
    var h := ReadHeader(pkt, len, mtu, overhead);
    if h.Bad? { return -1; }
    if h.NotSyn? { return 0; }
    var found, off := WalkOptions(pkt, len, h.tcp, h.end);
    if !found { return 0; }
    var at := h.tcp + off + 2;
    var was: u16 := pkt[at] as int * 256 + pkt[at + 1] as int;
    assert was == Word(p, at);
    if was <= h.cap { return 0; }
    pkt[at] := Hi(h.cap);
    pkt[at + 1] := Lo(h.cap);
    assert pkt[..len] == PutWord(p, at, h.cap);
    ghost var mid := pkt[..];
    ReplaceWord(pkt, h.tcp, was, h.cap);
    assert Word(mid, h.tcp + 16) == Word(p, h.tcp + 16);
    assert pkt[..len] == Rewritten(p, h.tcp, at, h.cap);
    return 1;
  }

  // ---- what the clamp keeps ----------------------------------------------------------------------

  /** On segments: where the sum goes. */
  lemma RewriteMoves(seg: seq<byte>, at: nat, mss: u16) returns (q: int)
    requires 20 <= at && at + 1 < |seg|
    ensures var out := Rewritten(seg, 0, at, mss);
            && |out| == |seg| && out[12] == seg[12]
            && WordSum(out, |out|)
            == WordSum(seg, |seg|) + 0xFFFF * q + (if at % 2 == 0 then 0 else -255 * (Word(seg, at) - mss))
  {
    var hc, was := Word(seg, 16), Word(seg, at);
    var mid := PutWord(seg, at, mss);
    WordSumPut(seg, |seg|, at, mss);
    assert Word(mid, 16) == hc;
    WordSumPut(mid, |mid|, 16, Update(hc, was, mss));
    q := UpdateMoves(hc, was, mss, at % 2 == 0);
  }

  lemma MovedVerifiesIff(pseudo: nat, seg: seq<byte>, out: seq<byte>, q: int, d: int, even: bool)
    requires |out| > 12 && out[12] > 0 && Verifies(pseudo, seg)
    requires WordSum(out, |out|) == WordSum(seg, |seg|) + 0xFFFF * q + (if even then 0 else -255 * d)
    ensures Verifies(pseudo, out) <==> even || d % 257 == 0
  {
    WordSumPositive(out, |out|, 12);
    StillDivides(pseudo + WordSum(seg, |seg|), pseudo + WordSum(out, |out|), q, d, even);
  }

  lemma RewriteVerifiesIff(pseudo: nat, seg: seq<byte>, at: nat, mss: u16)
    requires 20 <= at && at + 1 < |seg| && seg[12] > 0 && Verifies(pseudo, seg)
    ensures Verifies(pseudo, Rewritten(seg, 0, at, mss)) <==>
            at % 2 == 0 || (Word(seg, at) - mss) % 257 == 0
  {
    var q := RewriteMoves(seg, at, mss);
    MovedVerifiesIff(pseudo, seg, Rewritten(seg, 0, at, mss), q, Word(seg, at) - mss, at % 2 == 0);
  }

  lemma RewrittenSegment(p: seq<byte>, t: nat, at: nat, mss: u16, end: nat)
    requires t + 20 <= at && at + 1 < end <= |p|
    ensures Rewritten(p, t, at, mss)[t..end] == Rewritten(p[t..end], 0, at - t, mss)
  {
  }

  lemma RewrittenVerifiesIff(p: seq<byte>, t: nat, at: nat, mss: u16, pseudo: nat, end: nat)
    requires t + 20 <= at && at + 1 < end <= |p| && p[t + 12] > 0 && Verifies(pseudo, p[t..end])
    ensures Verifies(pseudo, Rewritten(p, t, at, mss)[t..end]) <==>
            (at - t) % 2 == 0 || (Word(p, at) - mss) % 257 == 0
  {
    var seg := p[t..end];
    RewrittenSegment(p, t, at, mss, end);
    assert Word(seg, at - t) == Word(p, at);
    RewriteVerifiesIff(pseudo, seg, at - t, mss);
  }

  /** Setting the word at `at` of a segment from `t` on to `mss` moves its sum by a multiple of
      0xFFFF: the word is aligned, or changes by a multiple of 257. */
  predicate Neutral(p: seq<byte>, t: nat, at: nat, mss: u16) {
    at + 1 < |p| && ((at - t) % 2 == 0 || (Word(p, at) - mss) % 257 == 0)
  }

  /** Exactly when the rewritten segment still verifies, for every pseudo-header and every segment
      end past the option. */
  lemma ClampKeepsChecksumIff(p: seq<byte>, mtu: u32, overhead: u32, t: nat, at: nat, mss: u16, pseudo: nat, end: nat)
    requires PlanOf(p, mtu, overhead) == Rewrite(t, at, mss) && t <= at && at + 2 <= end <= |p|
    requires Verifies(pseudo, p[t..end])
    ensures |Clamped(p, mtu, overhead)| == |p|
    ensures Verifies(pseudo, Clamped(p, mtu, overhead)[t..end]) <==> Neutral(p, t, at, mss)
  {
    PlanFacts(p, mtu, overhead);
    RewrittenVerifiesIff(p, t, at, mss, pseudo, end);
  }

  /** The sum of a packet's own pseudo-header: its addresses, its protocol and the TCP length. */
  function PseudoSum(p: seq<byte>, tcpLength: nat): nat
    requires |p| >= 34
  {
    WordSum(p[26..34], 8) + p[23] + tcpLength
  }

  /** The IPv4 total length says where the TCP segment ends. */
  function SegmentEnd(p: seq<byte>): nat
    requires |p| >= 34
  {
    L3_OFF + Word(p, 16)
  }

  /** The IPv4 datagram holds a whole TCP header. */
  predicate TcpWhole(p: seq<byte>) {
    |p| >= 34 &&
    var t, end := L3_OFF + Ihl(p), SegmentEnd(p);
    t + 20 <= end <= |p| && p[t + 12] / 16 >= 5 && t + p[t + 12] / 16 * 4 <= end
  }

  /** And its TCP checksum is valid. */
  predicate TcpVerifies(p: seq<byte>) {
    TcpWhole(p) &&
    var t, end := L3_OFF + Ihl(p), SegmentEnd(p);
    Verifies(PseudoSum(p, end - t), p[t..end])
  }

  lemma ClampKeepsHeaders(p: seq<byte>, mtu: u32, overhead: u32)
    requires TcpWhole(p)
    ensures var z := Clamped(p, mtu, overhead);
            && TcpWhole(z) && |z| == |p| && Ihl(z) == Ihl(p) && SegmentEnd(z) == SegmentEnd(p)
            && forall n: nat :: PseudoSum(z, n) == PseudoSum(p, n)
  {
    var z := Clamped(p, mtu, overhead);
    if PlanOf(p, mtu, overhead).Rewrite? {
      PlanFacts(p, mtu, overhead);
      assert z[26..34] == p[26..34];
    }
  }

  /** The option found lies inside the datagram. */
  lemma PlanInSegment(p: seq<byte>, mtu: u32, overhead: u32, t: nat, at: nat, mss: u16)
    requires PlanOf(p, mtu, overhead) == Rewrite(t, at, mss) && TcpWhole(p)
    ensures t == L3_OFF + Ihl(p) && t <= at && at + 2 <= SegmentEnd(p) <= |p|
  {
    PlanFacts(p, mtu, overhead);
  }

  /** The checksum of `z`'s segment, under the pseudo-header of `p`, where `p` has its segment. */
  predicate VerifiesUnder(p: seq<byte>, z: seq<byte>) {
    TcpWhole(p) && |z| == |p| &&
    var t, end := L3_OFF + Ihl(p), SegmentEnd(p);
    Verifies(PseudoSum(p, end - t), z[t..end])
  }

  /** The clamped packet's checksum covers the same bytes under the same pseudo-header. */
  lemma ClampedVerifies(p: seq<byte>, mtu: u32, overhead: u32)
    requires TcpWhole(p)
    ensures TcpWhole(Clamped(p, mtu, overhead))
    ensures TcpVerifies(Clamped(p, mtu, overhead)) <==> VerifiesUnder(p, Clamped(p, mtu, overhead))
  {
    ClampKeepsHeaders(p, mtu, overhead);
  }

  lemma SegmentIff(p: seq<byte>, mtu: u32, overhead: u32, t: nat, at: nat, mss: u16)
    requires PlanOf(p, mtu, overhead) == Rewrite(t, at, mss) && TcpVerifies(p)
    ensures VerifiesUnder(p, Clamped(p, mtu, overhead)) <==> Neutral(p, t, at, mss)
  {
    var end := SegmentEnd(p);
    PlanInSegment(p, mtu, overhead, t, at, mss);
    ClampKeepsChecksumIff(p, mtu, overhead, t, at, mss, PseudoSum(p, end - t), end);
  }

  /** Of real packets: a SYN with a valid checksum has one after the clamp exactly if the value is
      aligned or changed by a multiple of 257. */
  lemma ClampKeepsTcpChecksumIff(p: seq<byte>, mtu: u32, overhead: u32, t: nat, at: nat, mss: u16)
    requires PlanOf(p, mtu, overhead) == Rewrite(t, at, mss) && TcpVerifies(p)
    ensures TcpVerifies(Clamped(p, mtu, overhead)) <==> Neutral(p, t, at, mss)
  {
    ClampedVerifies(p, mtu, overhead);
    SegmentIff(p, mtu, overhead, t, at, mss);
  }

  /** What a full segment may carry at most, so that it fits the wire once sealed. */
  function MssLimit(p: seq<byte>): int
    requires |p| >= 34
  {
    9000 - p[14] as int % 16 * 4 - 20 - 31
  }

  /** Where the value of the `j`-th option stands. */
  function MssAt(p: seq<byte>, os: seq<Opt>, j: nat): int
    requires |p| >= 34 && j <= |os|
  {
    14 + p[14] as int % 16 * 4 + Start(os, j) + 2
  }

  /** In `q` the word at `at` is the smaller of `v`, which it is in `p`, and `limit`. But for it and
      the TCP checksum they are equal, and the checksum stays valid exactly if `v` was small enough,
      or the place and the change are neutral to the sum. */
  ghost predicate MssLimited(p: seq<byte>, q: seq<byte>, at: int, v: int, limit: int)
    requires |p| >= 34
  {
    var t := 14 + p[14] as int % 16 * 4;
    && |q| == |p| && 0 <= at && at + 1 < |p| && 0 <= limit <= 0xFFFF && Word(p, at) == v
    && Word(q, at) == (if v <= limit then v else limit)
    && (forall i :: 0 <= i < |p| && i != at && i != at + 1 && i != t + 16 && i != t + 17 ==> q[i] == p[i])
    && (v <= limit ==> q == p)
    && (TcpVerifies(p) ==> (TcpVerifies(q) <==> v <= limit || Neutral(p, t, at, limit)))
  }

  /** The word at the place found is the cap, and only it and the checksum change. */
  lemma ClampSets(p: seq<byte>, mtu: u32, overhead: u32, t: nat, at: nat, mss: u16)
    requires PlanOf(p, mtu, overhead) == Rewrite(t, at, mss)
    ensures at + 1 < |p| == |Clamped(p, mtu, overhead)| && Word(Clamped(p, mtu, overhead), at) == mss < Word(p, at)
    ensures t == 14 + p[14] as int % 16 * 4
    ensures forall i :: 0 <= i < |p| && i != at && i != at + 1 && i != t + 16 && i != t + 17 ==>
              Clamped(p, mtu, overhead)[i] == p[i]
  {
    PlanFacts(p, mtu, overhead);
  }

  lemma RewrittenIsLimited(p: seq<byte>, mtu: u32, overhead: u32, t: nat, at: nat, mss: u16)
    requires PlanOf(p, mtu, overhead) == Rewrite(t, at, mss) && |p| >= 34
    ensures at + 1 < |p| && MssLimited(p, Clamped(p, mtu, overhead), at, Word(p, at), mss)
  {
    ClampSets(p, mtu, overhead, t, at, mss);
    if TcpVerifies(p) { ClampKeepsTcpChecksumIff(p, mtu, overhead, t, at, mss); }
  }

  lemma LimitIsRoom(ihl: int)
    requires 0 <= ihl <= 60
    ensures var room := MTU - (ihl + 20 + DATA_OVERHEAD) % 0x1_0000_0000;
            room == 9000 - ihl - 20 - 31 && Clip(room) == room && 536 <= room <= 0xFFFF
  {
  }

  lemma SynPlan(p: seq<byte>, fl: Flags, os: seq<Opt>, j: nat)
    requires OffersMss(p, fl, os, j)
    ensures var t, at, v, limit := 14 + p[14] as int % 16 * 4, MssAt(p, os, j), os[j].value, MssLimit(p);
            && at + 1 < |p| && Word(p, at) == v && 536 <= limit <= 0xFFFF
            && PlanOf(p, MTU, DATA_OVERHEAD) == if v <= limit then Keep else Rewrite(t, at, limit)
  {
    var t := 14 + p[14] % 16 * 4;
    WalkFindsFirst(p, t, p[t + 12] / 16 * 4, os, j);
    LimitIsRoom(p[14] as int % 16 * 4);
    PlanIs(p, MTU, DATA_OVERHEAD, fl, os, j);
  }

  /** Clamping for the encrypted path limits the MSS that a SYN offers, whatever its other flags and
      options. */
  lemma SynClamped(p: seq<byte>, fl: Flags, os: seq<Opt>, j: nat)
    requires OffersMss(p, fl, os, j)
    ensures MssLimited(p, Clamped(p, MTU, DATA_OVERHEAD), MssAt(p, os, j), os[j].value, MssLimit(p))
  {
    var t, at, limit := 14 + p[14] as int % 16 * 4, MssAt(p, os, j), MssLimit(p);
    SynPlan(p, fl, os, j);
    if os[j].value > limit { RewrittenIsLimited(p, MTU, DATA_OVERHEAD, t, at, limit); }
  }

  /** Only the MSS and checksum bytes can differ. */
  lemma ClampTouches(p: seq<byte>, mtu: u32, overhead: u32, i: nat)
    requires i < |p|
    ensures |Clamped(p, mtu, overhead)| == |p|
    ensures Clamped(p, mtu, overhead)[i] != p[i] ==>
              var r := PlanOf(p, mtu, overhead);
              r.Rewrite? && (i == r.at || i == r.at + 1 || i == r.tcp + 16 || i == r.tcp + 17)
  {
  }

  /** The walk reads nothing at or after the value it finds. */
  lemma {:induction false} FindMssReads(p: seq<byte>, z: seq<byte>, t: nat, off: nat, end: nat)
    requires |z| == |p| && t + end <= |p| && FindMss(p, t, off, end).Some?
    requires forall i :: t + off <= i < t + FindMss(p, t, off, end).value + 2 ==> z[i] == p[i]
    ensures FindMss(z, t, off, end) == FindMss(p, t, off, end)
    decreases end - off
  {
    var seen := LookAt(p, t, off, end);
    assert LookAt(z, t, off, end) == seen;
    if seen.Skip? { FindMssReads(p, z, t, seen.to, end); }
  }

  /** The header checks read none of the rewritten bytes. */
  lemma HeaderSame(p: seq<byte>, z: seq<byte>, mtu: u32, overhead: u32)
    requires |z| == |p| >= 34 && L3_OFF + Ihl(p) + 20 <= |p|
    requires forall i :: 0 <= i < L3_OFF + Ihl(p) + 14 ==> z[i] == p[i]
    requires HeaderOf(p, mtu, overhead).Syn?
    ensures HeaderOf(z, mtu, overhead) == HeaderOf(p, mtu, overhead)
  {
  }

  /** A second clamp finds the same option at the cap and leaves the packet alone. */
  lemma ClampTwice(p: seq<byte>, mtu: u32, overhead: u32)
    ensures Clamped(Clamped(p, mtu, overhead), mtu, overhead) == Clamped(p, mtu, overhead)
    ensures PlanOf(p, mtu, overhead).Rewrite? ==> PlanOf(Clamped(p, mtu, overhead), mtu, overhead) == Keep
  {
    var r := PlanOf(p, mtu, overhead);
    if r.Rewrite? {
      PlanFacts(p, mtu, overhead);
      var z := Clamped(p, mtu, overhead);
      HeaderSame(p, z, mtu, overhead);
      FindMssReads(p, z, r.tcp, 20, HeaderOf(p, mtu, overhead).end);
      assert Word(z, r.at) == r.mss;
    }
  }

  /** After the clamp for the encrypted path, a segment filled to the advertised MSS, sent with the
      IP header length of the SYN, fits the wire once sealed. */
  lemma FullSegmentFits(p: seq<byte>)
    requires HeaderOf(p, MTU, DATA_OVERHEAD).Syn?
    requires var h := HeaderOf(p, MTU, DATA_OVERHEAD); FindMss(p, h.tcp, 20, h.end).Some?
    ensures var h := HeaderOf(p, MTU, DATA_OVERHEAD);
            var at := h.tcp + FindMss(p, h.tcp, 20, h.end).value + 2;
            var z := Clamped(p, MTU, DATA_OVERHEAD);
            |z| == |p| && h.tcp + 20 + Word(z, at) + DATA_OVERHEAD <= WIRE_MAX
  {
    var h := HeaderOf(p, MTU, DATA_OVERHEAD);
    assert h.tcp + 20 + h.cap + DATA_OVERHEAD == WIRE_MAX;
    if PlanOf(p, MTU, DATA_OVERHEAD).Rewrite? {
      PlanFacts(p, MTU, DATA_OVERHEAD);
      assert Word(Clamped(p, MTU, DATA_OVERHEAD), PlanOf(p, MTU, DATA_OVERHEAD).at) == h.cap;
    }
  }

  function OddByte(i: nat): byte {
    match i
    case 12 => 0x08           // EtherType IPv4
    case 14 => 0x45
    case 17 => 48             // total length
    case 22 => 64
    case 23 => 6              // TCP
    case 26 => 10
    case 29 => 1
    case 30 => 10
    case 33 => 2
    case 46 => 0x70           // 28-byte header
    case 47 => 0x02           // SYN
    case 50 => 0x4E           // checksum
    case 51 => 0xB3
    case 54 => 1              // NOP
    case 55 => 2              // MSS 9000
    case 56 => 4
    case 57 => 0x23
    case 58 => 0x28
    case _ => 0
  }

  /** A SYN from 10.0.0.1 to 10.0.0.2 whose MSS option follows one NOP, so that its value sits at
      an odd offset. */
  function OddSyn(): (p: seq<byte>)
    ensures |p| == 62 && forall i :: 0 <= i < 62 ==> p[i] == OddByte(i)
  {
    seq(62, i requires 0 <= i < 62 => OddByte(i))
  }

  lemma OddHeader()
    ensures |OddSyn()| == 62 && Ihl(OddSyn()) == 20 && SegmentEnd(OddSyn()) == 62
    ensures HeaderOf(OddSyn(), MTU, DATA_OVERHEAD) == Syn(34, 28, 8929)
  {
  }

  lemma OddPlan()
    ensures PlanOf(OddSyn(), MTU, DATA_OVERHEAD) == Rewrite(34, 57, 8929) && Word(OddSyn(), 57) == 9000
  {
    OddHeader();
    var p, t, end := OddSyn(), 34, 28;
    assert FindMss(p, t, 21, end) == Some(21);
  }

  lemma {:induction false} ZerosAddNothing(s: seq<byte>, i: nat, n: nat)
    requires i <= n <= |s| && forall k :: i <= k < n ==> s[k] == 0
    ensures WordSum(s, n) == WordSum(s, i)
  {
    if i < n { ZerosAddNothing(s, i, n - 1); }
  }

  lemma OddPseudoSum()
    ensures PseudoSum(OddSyn(), 28) == 0x1403 + 6 + 28
  {
    var s := OddSyn()[26..34];
    assert WordSum(s, 1) == 0x0A00;
    ZerosAddNothing(s, 1, 3);
    assert WordSum(s, 4) == 0x0A01;
    assert WordSum(s, 5) == 0x1401;
    ZerosAddNothing(s, 5, 7);
    assert WordSum(s, 8) == 0x1403;
  }

  lemma OddSegmentSum()
    ensures WordSum(OddSyn()[34..62], 28) == 0x9D27 + 0x4EB3
  {
    var s := OddSyn()[34..62];
    ZerosAddNothing(s, 0, 12);
    assert WordSum(s, 13) == 0x7000;
    assert WordSum(s, 14) == 0x7002;
    ZerosAddNothing(s, 14, 16);
    assert WordSum(s, 17) == 0x7002 + 0x4E00;
    assert WordSum(s, 18) == 0x7002 + 0x4EB3;
    ZerosAddNothing(s, 18, 20);
    assert WordSum(s, 21) == 0x7102 + 0x4EB3;
    assert WordSum(s, 22) == 0x7104 + 0x4EB3;
    assert WordSum(s, 23) == 0x7504 + 0x4EB3;
    assert WordSum(s, 24) == 0x7527 + 0x4EB3;
    assert WordSum(s, 25) == 0x9D27 + 0x4EB3;
    ZerosAddNothing(s, 25, 28);
  }

  lemma OddVerifies()
    ensures TcpVerifies(OddSyn())
  {
    OddHeader();
    OddPseudoSum();
    OddSegmentSum();
  }

  lemma OddBreaks(p: seq<byte>, mtu: u32, overhead: u32, t: nat, at: nat, mss: u16)
    requires PlanOf(p, mtu, overhead) == Rewrite(t, at, mss) && TcpVerifies(p) && !Neutral(p, t, at, mss)
    ensures TcpWhole(Clamped(p, mtu, overhead)) && !TcpVerifies(Clamped(p, mtu, overhead))
  {
    ClampedVerifies(p, mtu, overhead);
    ClampKeepsTcpChecksumIff(p, mtu, overhead, t, at, mss);
  }

  lemma OddMoves()
    ensures !Neutral(OddSyn(), 34, 57, 8929)
  {
    OddPlan();
  }

  /** Its checksum is valid, and clamping it to 8929 breaks it. */
  lemma OddOffsetBreaks()
    ensures PlanOf(OddSyn(), MTU, DATA_OVERHEAD) == Rewrite(34, 57, 8929)
    ensures TcpVerifies(OddSyn())
    ensures TcpWhole(Clamped(OddSyn(), MTU, DATA_OVERHEAD)) && !TcpVerifies(Clamped(OddSyn(), MTU, DATA_OVERHEAD))
  {
    OddPlan();
    OddVerifies();
    OddMoves();
    OddBreaks(OddSyn(), MTU, DATA_OVERHEAD, 34, 57, 8929);
  }
}
