/**
 * Fixed-width integer <-> byte-string conversions, as Python's `int.to_bytes`,
 * `int.from_bytes` and `struct.pack('<H' / '<I')` perform them.
 */
module Bytes {

  type byte = bv8

  /** `w.to_bytes(4, 'big')`. */
  function BE32(w: bv32): (s: seq<byte>)
    ensures |s| == 4
  {
    [(w >> 24) as byte, ((w >> 16) & 0xFF) as byte, ((w >> 8) & 0xFF) as byte, (w & 0xFF) as byte]
  }

  /** `int.from_bytes(s, 'big')` for four bytes. */
  function FromBE32(s: seq<byte>): bv32
    requires |s| == 4
  {
    ((s[0] as bv32) << 24) | ((s[1] as bv32) << 16) | ((s[2] as bv32) << 8) | (s[3] as bv32)
  }

  lemma BE32RoundTrip(w: bv32)
    ensures FromBE32(BE32(w)) == w
  {
  }

  lemma FromBE32RoundTrip(s: seq<byte>)
    requires |s| == 4
    ensures BE32(FromBE32(s)) == s
  {
  }

  /** `x.to_bytes(8, 'big')`: the high word, then the low word. */
  function BE64(x: bv64): (s: seq<byte>)
    ensures |s| == 8
  {
    BE32((x >> 32) as bv32) + BE32((x & 0xFFFF_FFFF) as bv32)
  }

  /** `int.from_bytes(s, 'big')` for eight bytes. */
  function FromBE64(s: seq<byte>): bv64
    requires |s| == 8
  {
    ((FromBE32(s[..4]) as bv64) << 32) | (FromBE32(s[4..]) as bv64)
  }

  lemma BE64RoundTrip(x: bv64)
    ensures FromBE64(BE64(x)) == x
  {
    var hi, lo := (x >> 32) as bv32, (x & 0xFFFF_FFFF) as bv32;
    var s := BE64(x);
    assert s[..4] == BE32(hi) && s[4..] == BE32(lo);
    BE32RoundTrip(hi);
    BE32RoundTrip(lo);
  }

  /** Splitting a 64-bit word built from two halves gives back the halves. */
  lemma WordHalves(hi: bv32, lo: bv32)
    ensures var x := ((hi as bv64) << 32) | (lo as bv64);
      (x >> 32) as bv32 == hi && (x & 0xFFFF_FFFF) as bv32 == lo
  {
  }

  lemma FromBE64RoundTrip(s: seq<byte>)
    requires |s| == 8
    ensures BE64(FromBE64(s)) == s
  {
    WordHalves(FromBE32(s[..4]), FromBE32(s[4..]));
    FromBE32RoundTrip(s[..4]);
    FromBE32RoundTrip(s[4..]);
    assert s == s[..4] + s[4..];
  }

  /** `struct.pack('<H', v)`. */
  function LE16(v: bv16): (s: seq<byte>)
    ensures |s| == 2
  {
    [(v & 0xFF) as byte, (v >> 8) as byte]
  }

  /** `struct.unpack('<H', s)`. */
  function FromLE16(s: seq<byte>): bv16
    requires |s| == 2
  {
    (s[0] as bv16) | ((s[1] as bv16) << 8)
  }

  lemma LE16RoundTrip(v: bv16)
    ensures FromLE16(LE16(v)) == v
  {
  }

  /** `struct.pack('<I', w)`. */
  function LE32(w: bv32): (s: seq<byte>)
    ensures |s| == 4
  {
    [(w & 0xFF) as byte, ((w >> 8) & 0xFF) as byte, ((w >> 16) & 0xFF) as byte, (w >> 24) as byte]
  }

  /** `struct.unpack('<I', s)`: the bits of a four-byte little-endian field. */
  function FromLE32(s: seq<byte>): bv32
    requires |s| == 4
  {
    (s[0] as bv32) | ((s[1] as bv32) << 8) | ((s[2] as bv32) << 16) | ((s[3] as bv32) << 24)
  }

  lemma LE32RoundTrip(w: bv32)
    ensures FromLE32(LE32(w)) == w
  {
  }

  /** `b'\x00' * n`. */
  function Zeros(n: nat): (s: seq<byte>)
    ensures |s| == n
    ensures forall i :: 0 <= i < n ==> s[i] == 0
  {
    seq(n, _ => 0)
  }
}
