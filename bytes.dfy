/** Byte sequences, little-endian unsigned and signed integer reads, and the
    slicing rule of a JavaScript typed array's `subarray`. */
module Bytes {

  type byte = x: int | 0 <= x < 256

  const TWO_32: int := 0x1_0000_0000

  /** Little-endian u16 at `off`, as `DataView.getUint16(off, true)`. */
  function U16(s: seq<byte>, off: nat): (r: nat)
    requires off + 2 <= |s|
    ensures r < 0x1_0000
  {
    s[off] as int + 256 * (s[off + 1] as int)
  }

  /** Little-endian u32 at `off`, as an element of a `Uint32Array` or
      `DataView.getUint32(off, true)`. */
  function U32(s: seq<byte>, off: nat): (r: nat)
    requires off + 4 <= |s|
    ensures r < TWO_32
  {
    s[off] as int + 256 * (s[off + 1] as int) + 65536 * (s[off + 2] as int) + 16777216 * (s[off + 3] as int)
  }

  /** The four bytes `Buffer.writeUInt32LE(x)` stores. */
  function U32Bytes(x: nat): (r: seq<byte>)
    requires x < TWO_32
    ensures |r| == 4
    ensures U32(r, 0) == x
  {
    var b0 := x % 256;
    var b1 := (x / 256) % 256;
    var b2 := (x / 65536) % 256;
    var b3 := x / 16777216;
    assert x == b0 + 256 * (x / 256);
    assert x / 256 == b1 + 256 * (x / 65536);
    assert x / 65536 == b2 + 256 * b3;
    [b0, b1, b2, b3]
  }

  /** Reading a u32 out of a longer sequence only looks at its four bytes. */
  lemma U32Window(s: seq<byte>, off: nat, t: seq<byte>)
    requires off + 4 <= |s| && |t| == 4 && s[off..off + 4] == t
    ensures U32(s, off) == U32(t, 0)
  {
    assert s[off] == t[0] && s[off + 1] == t[1] && s[off + 2] == t[2] && s[off + 3] == t[3];
  }

  /** Two's-complement reinterpretation of an unsigned `bits`-wide value. */
  function Signed(u: nat, half: nat): (r: int)
    requires 0 < half && u < 2 * half
    ensures -(half as int) <= r < half
    ensures r % (2 * half) == u % (2 * half)
  {
    var m := 2 * half;
    SmallMod(u, m);
    if u < half then u else SmallMod(u - m, m); u - m
  }

  /** A value within one modulus below `[0, m)` reduces by adding `m`. */
  lemma SmallMod(x: int, m: int)
    requires 0 < m && -m <= x < m
    ensures x % m == if x < 0 then x + m else x
  {
    if x < 0 {
      assert x == (x + m) + (-1) * m;
    }
  }

  /** `TypedArray.prototype.subarray(begin, end)` for non-negative arguments:
      both ends are clamped to the length and an end before the begin gives
      an empty view. */
  function Subarray(s: seq<byte>, begin: nat, end: nat): (r: seq<byte>)
    ensures |r| <= |s|
    ensures begin <= end <= |s| ==> r == s[begin..end]
    ensures end <= begin || |s| <= begin ==> r == []
  {
    var b := if begin < |s| then begin else |s|;
    var e := if end < |s| then end else |s|;
    if e <= b then [] else s[b..e]
  }
}
