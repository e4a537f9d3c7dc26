/**
 * Encoders for the lump records, as the WAD format lays them out, and the
 * round trips that show each decoder of LumpTypes reads back exactly the
 * fields written there.
 */
module LumpCodecs {
  import opened Bytes
  import opened Reader
  import opened LumpTypes

  function EncodeThing(t: Thing): (r: seq<byte>)
    ensures |r| == ThingReadSize
  {
    EncodeI16(t.x) + EncodeI16(t.y) + EncodeI16(t.binAngle) + EncodeU16(t.typeId) + EncodeU16(t.flags)
  }

  /** A Thing record is read back field for field, from X at byte 0 to Flags at byte 8. */
  lemma ThingAtEncoded(data: seq<byte>, o: nat, t: Thing)
    requires o + ThingReadSize <= |data| && data[o .. o + ThingReadSize] == EncodeThing(t)
    ensures ThingAt(data, o) == t
  {
    var rec := data[o .. o + 10];
    assert rec[0..2] == EncodeI16(t.x) && rec[2..4] == EncodeI16(t.y) && rec[4..6] == EncodeI16(t.binAngle);
    assert rec[6..8] == EncodeU16(t.typeId) && rec[8..10] == EncodeU16(t.flags);
    SubSlice(data, o, o + 10, 0, 2);
    SubSlice(data, o, o + 10, 2, 4);
    SubSlice(data, o, o + 10, 4, 6);
    SubSlice(data, o, o + 10, 6, 8);
    SubSlice(data, o, o + 10, 8, 10);
    ReadInt16Encoded(data, o, t.x);
    ReadInt16Encoded(data, o + 2, t.y);
    ReadInt16Encoded(data, o + 4, t.binAngle);
    ReadUInt16Encoded(data, o + 6, t.typeId);
    ReadUInt16Encoded(data, o + 8, t.flags);
  }

  function EncodeLineDef(l: LineDef): (r: seq<byte>)
    ensures |r| == LineDefReadSize
  {
    EncodeU16(l.start) + EncodeU16(l.end) + EncodeU16(l.flags) + EncodeU16(l.specialType) +
      EncodeU16(l.sector) + EncodeU16(l.frontSideDef) + EncodeU16(l.backSideDef)
  }

  /** The seven u16 fields of a LineDef fill its 14 bytes in declaration order. */
  lemma LineDefAtEncoded(data: seq<byte>, o: nat, l: LineDef)
    requires o + LineDefReadSize <= |data| && data[o .. o + LineDefReadSize] == EncodeLineDef(l)
    ensures LineDefAt(data, o) == l
  {
    var rec := data[o .. o + 14];
    assert rec[0..2] == EncodeU16(l.start) && rec[2..4] == EncodeU16(l.end);
    assert rec[4..6] == EncodeU16(l.flags) && rec[6..8] == EncodeU16(l.specialType);
    assert rec[8..10] == EncodeU16(l.sector) && rec[10..12] == EncodeU16(l.frontSideDef);
    assert rec[12..14] == EncodeU16(l.backSideDef);
    SubSlice(data, o, o + 14, 0, 2);
    SubSlice(data, o, o + 14, 2, 4);
    SubSlice(data, o, o + 14, 4, 6);
    SubSlice(data, o, o + 14, 6, 8);
    SubSlice(data, o, o + 14, 8, 10);
    SubSlice(data, o, o + 14, 10, 12);
    SubSlice(data, o, o + 14, 12, 14);
    ReadUInt16Encoded(data, o, l.start);
    ReadUInt16Encoded(data, o + 2, l.end);
    ReadUInt16Encoded(data, o + 4, l.flags);
    ReadUInt16Encoded(data, o + 6, l.specialType);
    ReadUInt16Encoded(data, o + 8, l.sector);
    ReadUInt16Encoded(data, o + 10, l.frontSideDef);
    ReadUInt16Encoded(data, o + 12, l.backSideDef);
  }

  predicate EncodableSideDef(s: SideDef) {
    ValidName(s.topTexture) && ValidName(s.midTexture) && ValidName(s.lowerTexture)
  }

  /** The sector index is written as its 16 bits; the reader takes them as an i16. */
  function EncodeSideDef(s: SideDef): (r: seq<byte>)
    requires EncodableSideDef(s)
    ensures |r| == SideDefReadSize
  {
    EncodeI16(s.xOffset) + EncodeI16(s.yOffset) +
      EncodeName(s.topTexture) + EncodeName(s.midTexture) + EncodeName(s.lowerTexture) +
      EncodeU16(s.sectorId)
  }

  /**
   * A SideDef is read back exactly, including a SectorId of 0x8000 or more:
   * the signed read and the conversion to u16 cancel out.
   */
  lemma SideDefAtEncoded(data: seq<byte>, o: nat, s: SideDef)
    requires EncodableSideDef(s)
    requires o + SideDefReadSize <= |data| && data[o .. o + SideDefReadSize] == EncodeSideDef(s)
    ensures SideDefAt(data, o) == s
  {
    var rec := data[o .. o + 30];
    assert rec[0..2] == EncodeI16(s.xOffset) && rec[2..4] == EncodeI16(s.yOffset);
    assert rec[4..12] == EncodeName(s.topTexture) && rec[12..20] == EncodeName(s.midTexture);
    assert rec[20..28] == EncodeName(s.lowerTexture) && rec[28..30] == EncodeU16(s.sectorId);
    SubSlice(data, o, o + 30, 0, 2);
    SubSlice(data, o, o + 30, 2, 4);
    SubSlice(data, o, o + 30, 4, 12);
    SubSlice(data, o, o + 30, 12, 20);
    SubSlice(data, o, o + 30, 20, 28);
    SubSlice(data, o, o + 30, 28, 30);
    ReadInt16Encoded(data, o, s.xOffset);
    ReadInt16Encoded(data, o + 2, s.yOffset);
    ReadNameEncoded(data, o + 4, s.topTexture);
    ReadNameEncoded(data, o + 12, s.midTexture);
    ReadNameEncoded(data, o + 20, s.lowerTexture);
    ReadUInt16Encoded(data, o + 28, s.sectorId);
    ReadInt16AgreesWithUInt16(data, o + 28);
  }

  function EncodeVertex(v: Vertex): (r: seq<byte>)
    ensures |r| == VertexReadSize
  {
    EncodeI16(v.x) + EncodeI16(v.y)
  }

  /** A vertex is two packed i16 fields, X then Y. */
  lemma VertexAtEncoded(data: seq<byte>, o: nat, v: Vertex)
    requires o + VertexReadSize <= |data| && data[o .. o + VertexReadSize] == EncodeVertex(v)
    ensures VertexAt(data, o) == v
  {
    var rec := data[o .. o + 4];
    assert rec[0..2] == EncodeI16(v.x) && rec[2..4] == EncodeI16(v.y);
    SubSlice(data, o, o + 4, 0, 2);
    SubSlice(data, o, o + 4, 2, 4);
    ReadInt16Encoded(data, o, v.x);
    ReadInt16Encoded(data, o + 2, v.y);
  }

  predicate EncodableSector(s: Sector) {
    ValidName(s.floorTexture) && ValidName(s.ceilingTexture)
  }

  /** SpecialType and TagNumber are written as their 16 bits; the reader takes them as i16. */
  function EncodeSector(s: Sector): (r: seq<byte>)
    requires EncodableSector(s)
    ensures |r| == SectorReadSize
  {
    EncodeI16(s.floorHeight) + EncodeI16(s.ceilingHeight) +
      EncodeName(s.floorTexture) + EncodeName(s.ceilingTexture) +
      EncodeI16(s.lightLevel) + EncodeU16(s.specialType) + EncodeU16(s.tagNumber)
  }

  /**
   * A sector is read as floor and ceiling height (i16), the two flat names,
   * the light level (i16), and the special and tag, each read as an i16 and
   * converted to u16; every field, including a special or tag of 0x8000 or
   * more, is read back exactly.
   */
  lemma SectorAtEncoded(data: seq<byte>, o: nat, s: Sector)
    requires EncodableSector(s)
    requires o + SectorReadSize <= |data| && data[o .. o + SectorReadSize] == EncodeSector(s)
    ensures SectorAt(data, o) == s
  {
    var rec := data[o .. o + 26];
    assert rec[0..2] == EncodeI16(s.floorHeight) && rec[2..4] == EncodeI16(s.ceilingHeight);
    assert rec[4..12] == EncodeName(s.floorTexture) && rec[12..20] == EncodeName(s.ceilingTexture);
    assert rec[20..22] == EncodeI16(s.lightLevel);
    assert rec[22..24] == EncodeU16(s.specialType) && rec[24..26] == EncodeU16(s.tagNumber);
    SubSlice(data, o, o + 26, 0, 2);
    SubSlice(data, o, o + 26, 2, 4);
    SubSlice(data, o, o + 26, 4, 12);
    SubSlice(data, o, o + 26, 12, 20);
    SubSlice(data, o, o + 26, 20, 22);
    SubSlice(data, o, o + 26, 22, 24);
    SubSlice(data, o, o + 26, 24, 26);
    ReadInt16Encoded(data, o, s.floorHeight);
    ReadInt16Encoded(data, o + 2, s.ceilingHeight);
    ReadNameEncoded(data, o + 4, s.floorTexture);
    ReadNameEncoded(data, o + 12, s.ceilingTexture);
    ReadInt16Encoded(data, o + 20, s.lightLevel);
    ReadUInt16Encoded(data, o + 22, s.specialType);
    ReadInt16AgreesWithUInt16(data, o + 22);
    ReadUInt16Encoded(data, o + 24, s.tagNumber);
    ReadInt16AgreesWithUInt16(data, o + 24);
  }

  function EncodeSeg(g: Seg): (r: seq<byte>)
    ensures |r| == SegReadSize
  {
    EncodeU16(g.start) + EncodeU16(g.end) + EncodeI16(g.angle) +
      EncodeU16(g.lineIndex) + EncodeU16(g.direction) + EncodeI16(g.offset)
  }

  /** A seg is six packed fields: start, end (u16), angle (i16), line, direction (u16), offset (i16). */
  lemma SegAtEncoded(data: seq<byte>, o: nat, g: Seg)
    requires o + SegReadSize <= |data| && data[o .. o + SegReadSize] == EncodeSeg(g)
    ensures SegAt(data, o) == g
  {
    var rec := data[o .. o + 12];
    assert rec[0..2] == EncodeU16(g.start) && rec[2..4] == EncodeU16(g.end);
    assert rec[4..6] == EncodeI16(g.angle) && rec[6..8] == EncodeU16(g.lineIndex);
    assert rec[8..10] == EncodeU16(g.direction) && rec[10..12] == EncodeI16(g.offset);
    SubSlice(data, o, o + 12, 0, 2);
    SubSlice(data, o, o + 12, 2, 4);
    SubSlice(data, o, o + 12, 4, 6);
    SubSlice(data, o, o + 12, 6, 8);
    SubSlice(data, o, o + 12, 8, 10);
    SubSlice(data, o, o + 12, 10, 12);
    ReadUInt16Encoded(data, o, g.start);
    ReadUInt16Encoded(data, o + 2, g.end);
    ReadInt16Encoded(data, o + 4, g.angle);
    ReadUInt16Encoded(data, o + 6, g.lineIndex);
    ReadUInt16Encoded(data, o + 8, g.direction);
    ReadInt16Encoded(data, o + 10, g.offset);
  }

  function EncodeSubSector(s: SubSector): (r: seq<byte>)
    ensures |r| == SubSectorReadSize
  {
    EncodeU16(s.count) + EncodeU16(s.startIndex)
  }

  /** A subsector is its seg count then its first seg, both u16. */
  lemma SubSectorAtEncoded(data: seq<byte>, o: nat, s: SubSector)
    requires o + SubSectorReadSize <= |data| && data[o .. o + SubSectorReadSize] == EncodeSubSector(s)
    ensures SubSectorAt(data, o) == s
  {
    var rec := data[o .. o + 4];
    assert rec[0..2] == EncodeU16(s.count) && rec[2..4] == EncodeU16(s.startIndex);
    SubSlice(data, o, o + 4, 0, 2);
    SubSlice(data, o, o + 4, 2, 4);
    ReadUInt16Encoded(data, o, s.count);
    ReadUInt16Encoded(data, o + 2, s.startIndex);
  }

  // -----------------------------------------------------------------------
  // GL segs: endpoints carry the GL-vertex tag in the bit of TagMask.
  // -----------------------------------------------------------------------

  /** A seg whose fields fit the layout of the given version. */
  predicate EncodableGLSeg(s: GLSeg, version: int) {
    if version != 0 then
      s.start < TagMask(version) && s.end < TagMask(version) &&
      s.lineIndex < 0x1_0000 && s.direction < 0x1_0000 && s.partnerSegIndex < 0x1_0000_0000
    else
      s.start < 0x8000 && s.end < 0x8000 &&
      s.lineIndex < 0x1_0000 && s.direction < 0x1_0000 && s.partnerSegIndex < 0x1_0000
  }

  function Tag(index: nat, isGL: bool, mask: nat): nat {
    index + if isGL then mask else 0
  }

  function EncodeGLSeg(s: GLSeg, version: int): (r: seq<byte>)
    requires version in {0, 3, 5} && EncodableGLSeg(s, version)
    ensures |r| == GLSegReadSize(version)
  {
    var mask := TagMask(version);
    if version != 0 then
      EncodeU32(Tag(s.start, s.startIsGL, mask)) + EncodeU32(Tag(s.end, s.endIsGL, mask)) +
        EncodeU16(s.lineIndex) + EncodeU16(s.direction) + EncodeU32(s.partnerSegIndex)
    else
      EncodeU16(Tag(s.start, s.startIsGL, mask)) + EncodeU16(Tag(s.end, s.endIsGL, mask)) +
        EncodeU16(s.lineIndex) + EncodeU16(s.direction) + EncodeU16(s.partnerSegIndex)
  }

  lemma TagSplit(index: nat, isGL: bool, mask: nat)
    requires mask in {0x8000, 0x4000_0000, 0x8000_0000} && index < mask
    ensures SplitTag(Tag(index, isGL, mask), mask) == Tagged(index, isGL)
  {
    SplitTagOfTagged(index, isGL, mask);
  }

  /** A wide (version 3 or 5) GL seg record is read back with its tag flags. */
  lemma GLSegWideAtEncoded(data: seq<byte>, o: nat, s: GLSeg, version: int)
    requires version in {3, 5} && EncodableGLSeg(s, version)
    requires o + 16 <= |data| && data[o .. o + 16] == EncodeGLSeg(s, version)
    ensures GLSegAt(data, o, version) == s
  {
    var mask := TagMask(version);
    var rec := data[o .. o + 16];
    assert rec[0..4] == EncodeU32(Tag(s.start, s.startIsGL, mask));
    assert rec[4..8] == EncodeU32(Tag(s.end, s.endIsGL, mask));
    assert rec[8..10] == EncodeU16(s.lineIndex) && rec[10..12] == EncodeU16(s.direction);
    assert rec[12..16] == EncodeU32(s.partnerSegIndex);
    SubSlice(data, o, o + 16, 0, 4);
    SubSlice(data, o, o + 16, 4, 8);
    SubSlice(data, o, o + 16, 8, 10);
    SubSlice(data, o, o + 16, 10, 12);
    SubSlice(data, o, o + 16, 12, 16);
    ReadUIntEncoded(data, o, Tag(s.start, s.startIsGL, mask));
    ReadUIntEncoded(data, o + 4, Tag(s.end, s.endIsGL, mask));
    ReadUInt16Encoded(data, o + 8, s.lineIndex);
    ReadUInt16Encoded(data, o + 10, s.direction);
    ReadUIntEncoded(data, o + 12, s.partnerSegIndex);
    TagSplit(s.start, s.startIsGL, mask);
    TagSplit(s.end, s.endIsGL, mask);
  }

  /** A legacy (version 0) GL seg record is read back with its bit-15 flags. */
  lemma GLSegNarrowAtEncoded(data: seq<byte>, o: nat, s: GLSeg)
    requires EncodableGLSeg(s, 0)
    requires o + 10 <= |data| && data[o .. o + 10] == EncodeGLSeg(s, 0)
    ensures GLSegAt(data, o, 0) == s
  {
    var rec := data[o .. o + 10];
    assert rec[0..2] == EncodeU16(Tag(s.start, s.startIsGL, 0x8000));
    assert rec[2..4] == EncodeU16(Tag(s.end, s.endIsGL, 0x8000));
    assert rec[4..6] == EncodeU16(s.lineIndex) && rec[6..8] == EncodeU16(s.direction);
    assert rec[8..10] == EncodeU16(s.partnerSegIndex);
    SubSlice(data, o, o + 10, 0, 2);
    SubSlice(data, o, o + 10, 2, 4);
    SubSlice(data, o, o + 10, 4, 6);
    SubSlice(data, o, o + 10, 6, 8);
    SubSlice(data, o, o + 10, 8, 10);
    ReadUInt16Encoded(data, o, Tag(s.start, s.startIsGL, 0x8000));
    ReadUInt16Encoded(data, o + 2, Tag(s.end, s.endIsGL, 0x8000));
    ReadUInt16Encoded(data, o + 4, s.lineIndex);
    ReadUInt16Encoded(data, o + 6, s.direction);
    ReadUInt16Encoded(data, o + 8, s.partnerSegIndex);
    TagSplit(s.start, s.startIsGL, 0x8000);
    TagSplit(s.end, s.endIsGL, 0x8000);
  }

  // -----------------------------------------------------------------------
  // GL vertices and GL subsectors.
  // -----------------------------------------------------------------------

  /** A GL vertex whose coordinates fit the layout of the given version. */
  predicate EncodableGLVertex(v: GLVertex, version: int) {
    if version != 0 then -0x8000_0000 <= v.x < 0x8000_0000 && -0x8000_0000 <= v.y < 0x8000_0000
    else -0x8000 <= v.x < 0x8000 && -0x8000 <= v.y < 0x8000
  }

  function EncodeGLVertex(v: GLVertex, version: int): (r: seq<byte>)
    requires EncodableGLVertex(v, version)
    ensures |r| == GLVertReadSize(version)
  {
    if version != 0 then EncodeI32(v.x) + EncodeI32(v.y) else EncodeI16(v.x) + EncodeI16(v.y)
  }

  /** A GL vertex is an i32 pair in the versioned layouts and an i16 pair otherwise. */
  lemma GLVertexAtEncoded(data: seq<byte>, o: nat, v: GLVertex, version: int)
    requires EncodableGLVertex(v, version)
    requires o + GLVertReadSize(version) <= |data|
    requires data[o .. o + GLVertReadSize(version)] == EncodeGLVertex(v, version)
    ensures GLVertexAt(data, o, version) == v
  {
    if version != 0 {
      var rec := data[o .. o + 8];
      assert rec[0..4] == EncodeI32(v.x) && rec[4..8] == EncodeI32(v.y);
      SubSlice(data, o, o + 8, 0, 4);
      SubSlice(data, o, o + 8, 4, 8);
      ReadIntEncoded(data, o, v.x);
      ReadIntEncoded(data, o + 4, v.y);
    } else {
      var rec := data[o .. o + 4];
      assert rec[0..2] == EncodeI16(v.x) && rec[2..4] == EncodeI16(v.y);
      SubSlice(data, o, o + 4, 0, 2);
      SubSlice(data, o, o + 4, 2, 4);
      ReadInt16Encoded(data, o, v.x);
      ReadInt16Encoded(data, o + 2, v.y);
    }
  }

  /** A GL subsector whose fields fit the layout of the given version. */
  predicate EncodableGLSubSector(s: GLSubSector, version: int) {
    if version > 0 then s.count < 0x1_0000_0000 && s.startSegment < 0x1_0000_0000
    else s.count < 0x1_0000 && s.startSegment < 0x1_0000
  }

  function EncodeGLSubSector(s: GLSubSector, version: int): (r: seq<byte>)
    requires version in {0, 3, 5} && EncodableGLSubSector(s, version)
    ensures |r| == GLSubSectorReadSize(version)
  {
    if version > 0 then EncodeU32(s.count) + EncodeU32(s.startSegment)
    else EncodeU16(s.count) + EncodeU16(s.startSegment)
  }

  /** A GL subsector is a u32 pair for a positive version and a u16 pair for version 0. */
  lemma GLSubSectorAtEncoded(data: seq<byte>, o: nat, s: GLSubSector, version: int)
    requires version in {0, 3, 5} && EncodableGLSubSector(s, version)
    requires o + GLSubSectorReadSize(version) <= |data|
    requires data[o .. o + GLSubSectorReadSize(version)] == EncodeGLSubSector(s, version)
    ensures GLSubSectorAt(data, o, version) == s
  {
    if version > 0 {
      var rec := data[o .. o + 8];
      assert rec[0..4] == EncodeU32(s.count) && rec[4..8] == EncodeU32(s.startSegment);
      SubSlice(data, o, o + 8, 0, 4);
      SubSlice(data, o, o + 8, 4, 8);
      ReadUIntEncoded(data, o, s.count);
      ReadUIntEncoded(data, o + 4, s.startSegment);
    } else {
      var rec := data[o .. o + 4];
      assert rec[0..2] == EncodeU16(s.count) && rec[2..4] == EncodeU16(s.startSegment);
      SubSlice(data, o, o + 4, 0, 2);
      SubSlice(data, o, o + 4, 2, 4);
      ReadUInt16Encoded(data, o, s.count);
      ReadUInt16Encoded(data, o + 2, s.startSegment);
    }
  }

  // -----------------------------------------------------------------------
  // Palettes.
  // -----------------------------------------------------------------------

  /** 256 colours as 768 bytes r, g, b; alpha is not stored. */
  function EncodePalette(colours: seq<Color>): (r: seq<byte>)
    requires |colours| == PaletteEntries
    ensures |r| == PaletteReadSize
  {
    seq(PaletteReadSize, k requires 0 <= k < PaletteReadSize =>
      var c := colours[k / 3];
      if k % 3 == 0 then c.r else if k % 3 == 1 then c.g else c.b)
  }

  /** A palette of opaque colours is read back exactly. */
  lemma PaletteAtEncoded(data: seq<byte>, o: nat, colours: seq<Color>)
    requires |colours| == PaletteEntries
    requires forall j :: 0 <= j < |colours| ==> colours[j].a == 255
    requires o + PaletteReadSize <= |data| && data[o .. o + PaletteReadSize] == EncodePalette(colours)
    ensures PaletteAt(data, o) == colours
  {
    var p := PaletteAt(data, o);
    forall j | 0 <= j < PaletteEntries ensures p[j] == colours[j] {
      var e := EncodePalette(colours);
      assert data[o + 3 * j] == e[3 * j];
      assert data[o + 3 * j + 1] == e[3 * j + 1];
      assert data[o + 3 * j + 2] == e[3 * j + 2];
    }
  }

  // -----------------------------------------------------------------------
  // Whole lumps.
  // -----------------------------------------------------------------------

  function EncodeThings(things: seq<Thing>): seq<byte> {
    Concat(seq(|things|, i requires 0 <= i < |things| => EncodeThing(things[i])))
  }

  /** A THINGS lump made of encoded records decodes to those records, in order. */
  lemma DecodeThingsOfEncoded(things: seq<Thing>)
    ensures |EncodeThings(things)| == ThingReadSize * |things|
    ensures DecodeThings(EncodeThings(things), 0, ThingReadSize * |things|) == things
  {
    var chunks := seq(|things|, i requires 0 <= i < |things| => EncodeThing(things[i]));
    var data := EncodeThings(things);
    ConcatLength(chunks, 10);
    var d := DecodeThings(data, 0, 10 * |things|);
    assert |d| == |things|;
    forall i | 0 <= i < |things| ensures d[i] == things[i] {
      ConcatUniform(chunks, 10, i);
      ThingAtEncoded(data, 10 * i, things[i]);
    }
  }

  /** Bytes after the last whole record play no part in the decoding. */
  lemma DecodeThingsIgnoresTail(data: seq<byte>, offset: nat, size: nat, tail: nat)
    requires offset + size + tail <= |data| && tail < ThingReadSize - size % ThingReadSize
    ensures DecodeThings(data, offset, size + tail) == DecodeThings(data, offset, size)
  {
    assert (size + tail) / 10 == size / 10;
  }
}
