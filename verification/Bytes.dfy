/** Bytes, fixed-width words and the buffer moves the packet codecs are built from. */
module Bytes {

  type byte = x: int | 0 <= x < 256
  type u16 = x: int | 0 <= x < 0x1_0000
  type u32 = x: int | 0 <= x < 0x1_0000_0000
  type u64 = x: int | 0 <= x < 0x1_0000_0000_0000_0000

  datatype Option<+T> = None | Some(value: T)

  function One(b: bool): nat { if b then 1 else 0 }

  /** Big-endian image of a 32-bit word. */
  function Be32(v: u32): (s: seq<byte>)
    ensures |s| == 4
  {
    [v / 0x100_0000, v / 0x1_0000 % 256, v / 0x100 % 256, v % 256]
  }

  function ReadBe32(s: seq<byte>): u32
    requires |s| == 4
  {
    s[0] as int * 0x100_0000 + s[1] as int * 0x1_0000 + s[2] as int * 0x100 + s[3]
  }

  lemma Digits(v: nat)
    ensures v == v / 0x100_0000 * 0x100_0000 + v / 0x1_0000 % 256 * 0x1_0000 + v / 0x100 % 256 * 0x100 + v % 256
  {
    assert v / 0x1_0000 == v / 0x100 / 256;
    assert v / 0x100_0000 == v / 0x1_0000 / 256;
  }

  lemma DigitsUnique(a: byte, b: byte, c: byte, d: byte)
    ensures var w := a as int * 0x100_0000 + b as int * 0x1_0000 + c as int * 0x100 + d;
            w / 0x100_0000 == a && w / 0x1_0000 % 256 == b && w / 0x100 % 256 == c && w % 256 == d
  {
    var w := a as int * 0x100_0000 + b as int * 0x1_0000 + c as int * 0x100 + d;
    assert w / 0x100 == a as int * 0x1_0000 + b as int * 0x100 + c;
    assert w / 0x1_0000 == a as int * 0x100 + b;
    assert w / 0x100_0000 == a;
  }

  lemma Be32Inverse(v: u32, s: seq<byte>)
    requires |s| == 4
    ensures ReadBe32(Be32(v)) == v
    ensures Be32(ReadBe32(s)) == s
  {
    Digits(v);
    DigitsUnique(s[0], s[1], s[2], s[3]);
  }

  /** Exclusive or of the low `bits` bits of two naturals. */
  function Xor(a: nat, b: nat, bits: nat): nat
  {
    if bits == 0 then 0 else (a % 2 + b % 2) % 2 + 2 * Xor(a / 2, b / 2, bits - 1)
  }

  /** `s` with the bytes from `off` on overwritten by `t`. */
  function Splice(s: seq<byte>, off: nat, t: seq<byte>): (r: seq<byte>)
    requires off + |t| <= |s|
    ensures |r| == |s|
    ensures r[off..off + |t|] == t
  {
    s[..off] + t + s[off + |t|..]
  }

  /** memcpy from a value into a buffer. */
  method Store(a: array<byte>, off: nat, t: seq<byte>)
    requires off + |t| <= a.Length
    modifies a
    ensures a[..] == Splice(old(a[..]), off, t)
  {
    forall i | 0 <= i < |t| {
      a[off + i] := t[i];
    }
  }

  /** memmove inside one buffer: the two regions may overlap. */
  method Move(a: array<byte>, dst: nat, src: nat, n: nat)
    requires dst + n <= a.Length && src + n <= a.Length
    modifies a
    ensures a[..] == Splice(old(a[..]), dst, old(a[src..src + n]))
  {
    forall i | 0 <= i < n {
      a[dst + i] := a[src + i];
    }
  }

  lemma PrefixNext<T>(s: seq<T>, i: nat)
    requires i < |s|
    ensures s[..i + 1] == s[..i] + [s[i]]
  {
  }

  lemma PrefixPlus<T>(s: seq<T>, i: nat, n: nat)
    requires i + n <= |s|
    ensures s[..i + n] == s[..i] + s[i..i + n]
  {
  }

  lemma Assoc<T>(a: seq<T>, b: seq<T>, c: seq<T>)
    ensures (a + b) + c == a + (b + c)
  {
  }

  lemma SubsetCount<T>(a: set<T>, b: set<T>)
    requires a <= b
    ensures |a| <= |b|
  {
    assert b == a + (b - a);
  }
}
