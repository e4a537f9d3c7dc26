/** Option, used for the source's null pointers. */
module Wrappers {
  datatype Option<+T> = None | Some(value: T)
}

/**
 * Fixed-width integers and their little-endian byte encodings.
 *
 * The archive reader reinterprets raw buffer bytes as C integers on a
 * little-endian host.  Every width, sign and C conversion used by the reader
 * is written out here explicitly, on unbounded Dafny integers.
 */
module Bytes {

  type byte = x: int | 0 <= x < 0x100
  type uint16 = x: int | 0 <= x < 0x1_0000
  type int16 = x: int | -0x8000 <= x < 0x8000
  type uint32 = x: int | 0 <= x < 0x1_0000_0000
  type int32 = x: int | -0x8000_0000 <= x < 0x8000_0000

  /** 2^64: the modulus of the C `size_t` type on the source's targets. */
  const SizeTModulus: int := 0x1_0000_0000_0000_0000

  /** Unsigned value of two bytes, least significant first. */
  function LE16(b0: byte, b1: byte): uint16 {
    b0 + 0x100 * b1
  }

  /** Unsigned value of four bytes, least significant first. */
  function LE32(b0: byte, b1: byte, b2: byte, b3: byte): uint32 {
    LE16(b0, b1) + 0x1_0000 * LE16(b2, b3)
  }

  /** Two's-complement reinterpretation of 16 bits (an `int16_t` read). */
  function ToInt16(u: uint16): int16 {
    if u < 0x8000 then u else u - 0x1_0000
  }

  /** Two's-complement reinterpretation of 32 bits (an `int32_t` read). */
  function ToInt32(u: uint32): int32 {
    if u < 0x8000_0000 then u else u - 0x1_0000_0000
  }

  /** The C conversion of an `int16_t` to `uint16_t` (reduction modulo 2^16). */
  function ToUInt16(s: int16): uint16 {
    s % 0x1_0000
  }

  /** The C conversion of an `int32_t` to `size_t` (reduction modulo 2^64). */
  function ToSizeT(v: int32): (r: nat)
    ensures v >= 0 ==> r == v
    ensures v < 0 ==> r == v + SizeTModulus && r >= SizeTModulus - 0x8000_0000
  {
    v % SizeTModulus
  }

  /** Little-endian encoding of a 16-bit value: the inverse of LE16. */
  function EncodeU16(v: uint16): (r: seq<byte>)
    ensures |r| == 2
  {
    [v % 0x100, v / 0x100]
  }

  /** Little-endian encoding of a 32-bit value: the inverse of LE32. */
  function EncodeU32(v: uint32): (r: seq<byte>)
    ensures |r| == 4
  {
    EncodeU16(v % 0x1_0000) + EncodeU16(v / 0x1_0000)
  }

  function EncodeI16(v: int16): (r: seq<byte>)
    ensures |r| == 2
  {
    EncodeU16(v % 0x1_0000)
  }

  function EncodeI32(v: int32): (r: seq<byte>)
    ensures |r| == 4
  {
    EncodeU32(v % 0x1_0000_0000)
  }

  lemma SubSlice(s: seq<byte>, i: nat, j: nat, k: nat, l: nat)
    requires i <= j <= |s| && k <= l <= j - i
    ensures s[i..j][k..l] == s[i + k .. i + l]
  {
    forall m | 0 <= m < l - k ensures s[i..j][k..l][m] == s[i + k .. i + l][m] {
    }
  }

  /** Record i of count = size / w records of width w ends inside the size bytes. */
  lemma RecordFits(i: nat, count: nat, w: nat, size: nat)
    requires 0 < w && count == size / w && i < count
    ensures w * i + w <= size
  {
    assert w * count <= size;
    assert w * i + w == w * (i + 1);
    assert w * (i + 1) <= w * count;
  }

  /** Concatenation of a sequence of byte chunks. */
  function Concat(chunks: seq<seq<byte>>): seq<byte> {
    if chunks == [] then [] else chunks[0] + Concat(chunks[1..])
  }

  /** Chunk i of a concatenation of chunks of one width w sits at w * i. */
  lemma {:induction false} ConcatUniform(chunks: seq<seq<byte>>, w: nat, i: nat)
    requires forall k :: 0 <= k < |chunks| ==> |chunks[k]| == w
    requires i < |chunks|
    ensures |Concat(chunks)| == w * |chunks|
    ensures w * i + w <= |Concat(chunks)|
    ensures Concat(chunks)[w * i .. w * i + w] == chunks[i]
  {
    ConcatLength(chunks, w);
    if i == 0 {
      assert Concat(chunks) == chunks[0] + Concat(chunks[1..]);
    } else {
      ConcatUniform(chunks[1..], w, i - 1);
      assert w * i == w + w * (i - 1);
      assert Concat(chunks) == chunks[0] + Concat(chunks[1..]);
    }
  }

  lemma {:induction false} ConcatLength(chunks: seq<seq<byte>>, w: nat)
    requires forall k :: 0 <= k < |chunks| ==> |chunks[k]| == w
    ensures |Concat(chunks)| == w * |chunks|
  {
    if chunks != [] {
      ConcatLength(chunks[1..], w);
      assert w * |chunks| == w + w * (|chunks| - 1);
    }
  }

  /** Decoding after encoding gives the value back, for every 16-bit value. */
  lemma LE16OfEncode(v: uint16)
    ensures LE16(EncodeU16(v)[0], EncodeU16(v)[1]) == v
  {
  }

  /** Encoding after decoding gives the bytes back, for every two bytes. */
  lemma EncodeOfLE16(b0: byte, b1: byte)
    ensures EncodeU16(LE16(b0, b1)) == [b0, b1]
  {
  }

  lemma LE32OfEncode(v: uint32)
    ensures var e := EncodeU32(v); LE32(e[0], e[1], e[2], e[3]) == v
  {
    LE16OfEncode(v % 0x1_0000);
    LE16OfEncode(v / 0x1_0000);
  }

  lemma EncodeOfLE32(b0: byte, b1: byte, b2: byte, b3: byte)
    ensures EncodeU32(LE32(b0, b1, b2, b3)) == [b0, b1, b2, b3]
  {
    var lo: int, hi: int := LE16(b0, b1), LE16(b2, b3);
    assert LE32(b0, b1, b2, b3) == lo + 0x1_0000 * hi;
    assert (lo + 0x1_0000 * hi) % 0x1_0000 == lo;
    assert (lo + 0x1_0000 * hi) / 0x1_0000 == hi;
    EncodeOfLE16(b0, b1);
    EncodeOfLE16(b2, b3);
  }

  /** The signed and unsigned 16-bit reads of one pair of bytes agree modulo 2^16. */
  lemma SignedUnsigned16(b0: byte, b1: byte)
    ensures ToUInt16(ToInt16(LE16(b0, b1))) == LE16(b0, b1)
    ensures (ToInt16(LE16(b0, b1)) - LE16(b0, b1)) % 0x1_0000 == 0
    ensures ToInt16(LE16(b0, b1)) < 0 <==> b1 >= 0x80
  {
  }

  lemma SignedUnsigned32(b0: byte, b1: byte, b2: byte, b3: byte)
    ensures (ToInt32(LE32(b0, b1, b2, b3)) - LE32(b0, b1, b2, b3)) % 0x1_0000_0000 == 0
    ensures ToInt32(LE32(b0, b1, b2, b3)) < 0 <==> b3 >= 0x80
  {
  }

  lemma Int16OfEncode(v: int16)
    ensures var e := EncodeI16(v); ToInt16(LE16(e[0], e[1])) == v
  {
    var u := v % 0x1_0000;
    assert u == if v < 0 then v + 0x1_0000 else v;
    LE16OfEncode(u);
  }

  lemma Int32OfEncode(v: int32)
    ensures var e := EncodeI32(v); ToInt32(LE32(e[0], e[1], e[2], e[3])) == v
  {
    var u := v % 0x1_0000_0000;
    assert u == if v < 0 then v + 0x1_0000_0000 else v;
    LE32OfEncode(u);
  }
}
