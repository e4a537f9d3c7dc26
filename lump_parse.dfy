/**
 * The Parse methods of the lump classes (wadReader/src/lump_types.cpp),
 * each a loop that fills the lump's contents record by record while
 * advancing the read offset.  Every method is proved against the decoding
 * functions of LumpTypes.
 */
module LumpParse {
  import opened Bytes
  import opened Reader
  import opened LumpTypes

  /**
   * size / ThingReadSize records, record i from offset + ThingReadSize * i; trailing
   * bytes are ignored.  Fields are read in order X, Y, BinAngle (i16), TypeId, Flags (u16).
   */
  method ParseThings(data: seq<byte>, offset: nat, size: nat) returns (contents: seq<Thing>)
    requires offset + size <= |data|
    ensures |contents| == size / ThingReadSize
    ensures contents == DecodeThings(data, offset, size)
  {
    var count := size / ThingReadSize;
    contents := [];
    var at := offset;
    var i := 0;
    while i < count
      invariant i <= count && |contents| == i
      invariant at == offset + ThingReadSize * i
      invariant contents == DecodeThings(data, offset, size)[..i]
    {
      RecordFits(i, count, ThingReadSize, size);
      var readOffset := at;
      var x := ReadInt16(data, readOffset); readOffset := x.offset;
      var y := ReadInt16(data, readOffset); readOffset := y.offset;
      var binAngle := ReadInt16(data, readOffset); readOffset := binAngle.offset;
      var typeId := ReadUInt16(data, readOffset); readOffset := typeId.offset;
      var flags := ReadUInt16(data, readOffset);
      contents := contents + [Thing(x.value, y.value, binAngle.value, typeId.value, flags.value)];
      at := at + ThingReadSize;
      i := i + 1;
    }
  }

  /**
   * size / VertexReadSize records, record i from offset + VertexReadSize * i; trailing
   * bytes are ignored.  Each record is a byte copy of its packed little-endian fields.
   */
  method ParseVertexes(data: seq<byte>, offset: nat, size: nat) returns (contents: seq<Vertex>)
    requires offset + size <= |data|
    ensures |contents| == size / VertexReadSize
    ensures contents == DecodeVertexes(data, offset, size)
  {
    var count := size / VertexReadSize;
    contents := [];
    var at := offset;
    var i := 0;
    while i < count
      invariant i <= count && |contents| == i
      invariant at == offset + VertexReadSize * i
      invariant contents == DecodeVertexes(data, offset, size)[..i]
    {
      RecordFits(i, count, VertexReadSize, size);
      contents := contents + [VertexAt(data, at)];
      at := at + VertexReadSize;
      i := i + 1;
    }
  }

  /**
   * size / LineDefReadSize records, record i from offset + LineDefReadSize * i; trailing
   * bytes are ignored.  Each record is a byte copy of its packed little-endian fields.
   */
  method ParseLineDefs(data: seq<byte>, offset: nat, size: nat) returns (contents: seq<LineDef>)
    requires offset + size <= |data|
    ensures |contents| == size / LineDefReadSize
    ensures contents == DecodeLineDefs(data, offset, size)
  {
    var count := size / LineDefReadSize;
    contents := [];
    var at := offset;
    var i := 0;
    while i < count
      invariant i <= count && |contents| == i
      invariant at == offset + LineDefReadSize * i
      invariant contents == DecodeLineDefs(data, offset, size)[..i]
    {
      RecordFits(i, count, LineDefReadSize, size);
      contents := contents + [LineDefAt(data, at)];
      at := at + LineDefReadSize;
      i := i + 1;
    }
  }

  /**
   * size / SideDefReadSize records, record i from offset + SideDefReadSize * i; trailing
   * bytes are ignored.  Two i16 offsets, three names, then the i16 SectorId stored as a u16.
   */
  method ParseSideDefs(data: seq<byte>, offset: nat, size: nat) returns (contents: seq<SideDef>)
    requires offset + size <= |data|
    ensures |contents| == size / SideDefReadSize
    ensures contents == DecodeSideDefs(data, offset, size)
  {
    var count := size / SideDefReadSize;
    contents := [];
    var at := offset;
    var i := 0;
    while i < count
      invariant i <= count && |contents| == i
      invariant at == offset + SideDefReadSize * i
      invariant contents == DecodeSideDefs(data, offset, size)[..i]
    {
      RecordFits(i, count, SideDefReadSize, size);
      var readOffset := at;
      var xOffset := ReadInt16(data, readOffset); readOffset := xOffset.offset;
      var yOffset := ReadInt16(data, readOffset); readOffset := yOffset.offset;
      var top := ReadName(data, readOffset); readOffset := top.offset;
      var mid := ReadName(data, readOffset); readOffset := mid.offset;
      var lower := ReadName(data, readOffset); readOffset := lower.offset;
      var sectorId := ReadInt16(data, readOffset);
      contents := contents + [SideDef(xOffset.value, yOffset.value, top.value, mid.value, lower.value,
                                      ToUInt16(sectorId.value))];
      at := at + SideDefReadSize;
      i := i + 1;
    }
  }

  /**
   * size / SectorReadSize records, record i from offset + SectorReadSize * i; trailing
   * bytes are ignored.  Floor and ceiling (i16), two names, then light, special and tag (i16).
   */
  method ParseSectors(data: seq<byte>, offset: nat, size: nat) returns (contents: seq<Sector>)
    requires offset + size <= |data|
    ensures |contents| == size / SectorReadSize
    ensures contents == DecodeSectors(data, offset, size)
  {
    var count := size / SectorReadSize;
    contents := [];
    var at := offset;
    var i := 0;
    while i < count
      invariant i <= count && |contents| == i
      invariant at == offset + SectorReadSize * i
      invariant contents == DecodeSectors(data, offset, size)[..i]
    {
      RecordFits(i, count, SectorReadSize, size);
      var readOffset := at;
      var floor := ReadInt16(data, readOffset); readOffset := floor.offset;
      var ceiling := ReadInt16(data, readOffset); readOffset := ceiling.offset;
      var floorTexture := ReadName(data, readOffset); readOffset := floorTexture.offset;
      var ceilingTexture := ReadName(data, readOffset); readOffset := ceilingTexture.offset;
      var light := ReadInt16(data, readOffset); readOffset := light.offset;
      var special := ReadInt16(data, readOffset); readOffset := special.offset;
      var tag := ReadInt16(data, readOffset);
      contents := contents + [Sector(floor.value, ceiling.value, floorTexture.value, ceilingTexture.value,
                                     light.value, ToUInt16(special.value), ToUInt16(tag.value))];
      at := at + SectorReadSize;
      i := i + 1;
    }
  }

  /**
   * size / SegReadSize records, record i from offset + SegReadSize * i; trailing
   * bytes are ignored.  Each record is a byte copy of its packed little-endian fields.
   */
  method ParseSegs(data: seq<byte>, offset: nat, size: nat) returns (contents: seq<Seg>)
    requires offset + size <= |data|
    ensures |contents| == size / SegReadSize
    ensures contents == DecodeSegs(data, offset, size)
  {
    var count := size / SegReadSize;
    contents := [];
    var at := offset;
    var i := 0;
    while i < count
      invariant i <= count && |contents| == i
      invariant at == offset + SegReadSize * i
      invariant contents == DecodeSegs(data, offset, size)[..i]
    {
      RecordFits(i, count, SegReadSize, size);
      contents := contents + [SegAt(data, at)];
      at := at + SegReadSize;
      i := i + 1;
    }
  }

  /**
   * size / SubSectorReadSize records, record i from offset + SubSectorReadSize * i; trailing
   * bytes are ignored.  Each record is a byte copy of its packed little-endian fields.
   */
  method ParseSubSectors(data: seq<byte>, offset: nat, size: nat) returns (contents: seq<SubSector>)
    requires offset + size <= |data|
    ensures |contents| == size / SubSectorReadSize
    ensures contents == DecodeSubSectors(data, offset, size)
  {
    var count := size / SubSectorReadSize;
    contents := [];
    var at := offset;
    var i := 0;
    while i < count
      invariant i <= count && |contents| == i
      invariant at == offset + SubSectorReadSize * i
      invariant contents == DecodeSubSectors(data, offset, size)[..i]
    {
      RecordFits(i, count, SubSectorReadSize, size);
      contents := contents + [SubSectorAt(data, at)];
      at := at + SubSectorReadSize;
      i := i + 1;
    }
  }

  /**
   * size / NodeReadSize records, record i from offset + NodeReadSize * i; trailing
   * bytes are ignored.  Each record is copied as 28 raw bytes.
   */
  method ParseNodes(data: seq<byte>, offset: nat, size: nat) returns (contents: seq<Node>)
    requires offset + size <= |data|
    ensures |contents| == size / NodeReadSize
    ensures contents == DecodeNodes(data, offset, size)
  {
    var count := size / NodeReadSize;
    contents := [];
    var at := offset;
    var i := 0;
    while i < count
      invariant i <= count && |contents| == i
      invariant at == offset + NodeReadSize * i
      invariant contents == DecodeNodes(data, offset, size)[..i]
    {
      RecordFits(i, count, NodeReadSize, size);
      contents := contents + [NodeAt(data, at)];
      at := at + NodeReadSize;
      i := i + 1;
    }
  }

  /** The magic test of GL_VERT: "gNd2" is version 2, "gND5" version 5, anything else 0. */
  method ReadGLVertsMagic(data: seq<byte>, offset: nat, size: nat) returns (formatVersion: int)
    requires offset + size <= |data| && 4 <= size
    ensures formatVersion == GLVertsVersion(data, offset, size)
  {
    formatVersion := 0;
    var magic := MagicAt(data, offset);
    if magic == "gNd2" {
      formatVersion := 2;
    } else if magic == "gND5" {
      formatVersion := 5;
    }
  }

  /** One GL vertex record: two i32 16.16 values in the wide layouts, two i16 otherwise. */
  method ReadGLVertex(data: seq<byte>, at: nat, formatVersion: int) returns (vertex: GLVertex)
    requires at + GLVertReadSize(formatVersion) <= |data|
    ensures vertex == GLVertexAt(data, at, formatVersion)
  {
    if formatVersion != 0 {
      var x := ReadInt(data, at);
      var y := ReadInt(data, at + 4);
      vertex := GLVertex(x.value, y.value);
    } else {
      var x := ReadInt16(data, at);
      var y := ReadInt16(data, at + 2);
      vertex := GLVertex(x.value, y.value);
    }
  }

  /**
   * GL_VERT: fewer than 4 bytes leave the lump empty at version 0.  The
   * magic "gNd2" or "gND5" selects 8-byte records of two i32 16.16 values
   * after the magic; otherwise 4-byte records of two i16 start at the offset.
   */
  method ParseGLVerts(data: seq<byte>, offset: nat, size: nat) returns (formatVersion: int, contents: seq<GLVertex>)
    requires offset + size <= |data|
    ensures formatVersion == GLVertsVersion(data, offset, size)
    ensures contents == DecodeGLVerts(data, offset, size)
  {
    formatVersion := 0;
    contents := [];
    if size < 4 {
      return;
    }
    formatVersion := ReadGLVertsMagic(data, offset, size);
    var wideVerts := formatVersion != 0;
    var readSize := 4;
    var remaining := size;
    var at := offset;
    if wideVerts {
      readSize := 8;
      remaining := size - 4;
      at := offset + 4;
    }
    var count := remaining / readSize;
    ghost var start := at;
    assert formatVersion == GLVertsVersion(data, offset, size);
    assert readSize == GLVertReadSize(formatVersion) && wideVerts == (formatVersion != 0);
    assert start == offset + GLVertsSkip(formatVersion) && remaining == size - GLVertsSkip(formatVersion);
    ghost var full := DecodeGLVerts(data, offset, size);
    assert |full| == count;
    var i := 0;
    while i < count
      invariant i <= count && |contents| == i
      invariant at == start + readSize * i
      invariant contents == full[..i]
    {
      RecordFits(i, count, readSize, remaining);
      var vertex := ReadGLVertex(data, at, formatVersion);
      assert vertex == full[i];
      assert full[..i + 1] == full[..i] + [full[i]];
      contents := contents + [vertex];
      at := at + readSize;
      i := i + 1;
    }
  }

  /**
   * `if (x & bit) { isGL = true; x &= ~bit; }` on one endpoint: the flag
   * reports the tag bit and the index is the raw value with it cleared.
   */
  method TagEndpoint(raw: nat, mask: nat) returns (index: nat, isGL: bool)
    requires mask in {0x8000, 0x4000_0000, 0x8000_0000}
    ensures Tagged(index, isGL) == SplitTag(raw, mask)
    ensures isGL <==> (raw / mask) % 2 == 1
  {
    index, isGL := raw, false;
    if (raw / mask) % 2 == 1 {
      isGL := true;
      index := raw - mask;
    }
  }

  /**
   * One GL seg record at offset.  Each endpoint whose tag bit is set gets
   * its flag set and the bit cleared; glBit is the tag of the wide layouts.
   */
  method ReadGLSeg(data: seq<byte>, offset: nat, formatVersion: int, glBit: nat) returns (seg: GLSeg)
    requires formatVersion in {0, 3, 5}
    requires glBit == if formatVersion == 5 then 0x8000_0000 else 0x4000_0000
    requires offset + GLSegReadSize(formatVersion) <= |data|
    ensures seg == GLSegAt(data, offset, formatVersion)
  {
    seg := DefaultGLSeg;
    var readOffset := offset;
    if formatVersion != 0 {
      var s := ReadUInt(data, readOffset); readOffset := s.offset;
      var startIndex, startIsGL := TagEndpoint(s.value, glBit);
      seg := seg.(start := startIndex, startIsGL := startIsGL);
      var e := ReadUInt(data, readOffset); readOffset := e.offset;
      var endIndex, endIsGL := TagEndpoint(e.value, glBit);
      seg := seg.(end := endIndex, endIsGL := endIsGL);
      var lineIndex := ReadUInt16(data, readOffset); readOffset := lineIndex.offset;
      var direction := ReadUInt16(data, readOffset); readOffset := direction.offset;
      var partner := ReadUInt(data, readOffset);
      seg := seg.(lineIndex := lineIndex.value, direction := direction.value, partnerSegIndex := partner.value);
    } else {
      var s := ReadUInt16(data, readOffset); readOffset := s.offset;
      var startIndex, startIsGL := TagEndpoint(s.value, 0x8000);
      seg := seg.(start := startIndex, startIsGL := startIsGL);
      var e := ReadUInt16(data, readOffset); readOffset := e.offset;
      var endIndex, endIsGL := TagEndpoint(e.value, 0x8000);
      seg := seg.(end := endIndex, endIsGL := endIsGL);
      var lineIndex := ReadUInt16(data, readOffset); readOffset := lineIndex.offset;
      var direction := ReadUInt16(data, readOffset); readOffset := direction.offset;
      var partner := ReadUInt16(data, readOffset);
      seg := seg.(lineIndex := lineIndex.value, direction := direction.value, partnerSegIndex := partner.value);
    }
  }

  /** The version test of GL_SEGS and GL_SSECT: "gNd3" is 3, else 5 after a version-5 GL_VERT, else 0. */
  method ReadGLStreamMagic(data: seq<byte>, offset: nat, glVertsVersion: int) returns (formatVersion: int)
    requires offset + 4 <= |data|
    ensures formatVersion == GLStreamVersion(data, offset, glVertsVersion)
  {
    formatVersion := 0;
    var magic := MagicAt(data, offset);
    if magic == "gNd3" {
      formatVersion := 3;
    } else if glVertsVersion == 5 {
      formatVersion := 5;
    }
  }

  /** Record i of a GL_SEGS lump is the seg read at its offset. */
  lemma GLSegsElement(data: seq<byte>, offset: nat, size: nat, glVertsVersion: int, i: nat)
    requires GLStreamSafe(data, offset, size)
    requires i < |DecodeGLSegs(data, offset, size, glVertsVersion)|
    ensures var v := GLStreamVersion(data, offset, glVertsVersion);
      var at := offset + GLHeaderSkip(v) + GLSegReadSize(v) * i;
      at + GLSegReadSize(v) <= |data| && DecodeGLSegs(data, offset, size, glVertsVersion)[i] == GLSegAt(data, at, v)
  {
    var v := GLStreamVersion(data, offset, glVertsVersion);
    var skip, w := GLHeaderSkip(v), GLSegReadSize(v);
    RecordFits(i, (size - skip) / w, w, size - skip);
  }

  /** The body of the loop of GLSegsLump::Parse: record i, read at its offset. */
  method ReadGLSegRecord(data: seq<byte>, offset: nat, size: nat, glVertsVersion: int, i: nat,
                         formatVersion: int, glBit: nat, at: nat) returns (seg: GLSeg)
    requires GLStreamSafe(data, offset, size)
    requires i < |DecodeGLSegs(data, offset, size, glVertsVersion)|
    requires formatVersion == GLStreamVersion(data, offset, glVertsVersion)
    requires glBit == if formatVersion == 5 then 0x8000_0000 else 0x4000_0000
    requires at == offset + GLHeaderSkip(formatVersion) + GLSegReadSize(formatVersion) * i
    ensures seg == DecodeGLSegs(data, offset, size, glVertsVersion)[i]
    ensures DecodeGLSegs(data, offset, size, glVertsVersion)[..i + 1] == DecodeGLSegs(data, offset, size, glVertsVersion)[..i] + [seg]
    ensures at + GLSegReadSize(formatVersion) == offset + GLHeaderSkip(formatVersion) + GLSegReadSize(formatVersion) * (i + 1)
  {
    GLSegsElement(data, offset, size, glVertsVersion, i);
    seg := ReadGLSeg(data, at, formatVersion, glBit);
    ghost var full := DecodeGLSegs(data, offset, size, glVertsVersion);
    assert full[..i + 1] == full[..i] + [full[i]];
  }

  /** The head of GLSegsLump::Parse: the version, the record width, the bytes and offset after the magic, and the tag bit. */
  method GLSegsLayout(data: seq<byte>, offset: nat, size: nat, glVertsVersion: int)
    returns (formatVersion: int, readSize: nat, remaining: nat, at: nat, glBit: nat)
    requires GLStreamSafe(data, offset, size)
    ensures formatVersion == GLStreamVersion(data, offset, glVertsVersion) && formatVersion in {0, 3, 5}
    ensures readSize == GLSegReadSize(formatVersion)
    ensures at == offset + GLHeaderSkip(formatVersion) && remaining == size - GLHeaderSkip(formatVersion)
    ensures glBit == if formatVersion == 5 then 0x8000_0000 else 0x4000_0000
  {
    formatVersion := ReadGLStreamMagic(data, offset, glVertsVersion);
    readSize := 10;
    remaining := size;
    at := offset;
    if formatVersion != 0 {
      readSize := 16;
      if formatVersion == 3 {
        remaining := size - 4;
        at := offset + 4;
      }
    }
    glBit := 0x4000_0000;
    if formatVersion == 5 {
      glBit := 0x8000_0000;
    }
  }

  /**
   * GL_SEGS: version 3 for the magic "gNd3" (records after the magic),
   * otherwise 5 when GL_VERT was version 5, otherwise 0.  Records are 16
   * bytes with u32 endpoints tagged by bit 30 (31 for version 5), or 10
   * bytes with u16 endpoints tagged by bit 15; a set tag bit is cleared and
   * recorded in the endpoint's flag.
   */
  method ParseGLSegs(data: seq<byte>, offset: nat, size: nat, glVertsVersion: int)
    returns (formatVersion: int, contents: seq<GLSeg>)
    requires GLStreamSafe(data, offset, size)
    ensures formatVersion == GLStreamVersion(data, offset, glVertsVersion)
    ensures contents == DecodeGLSegs(data, offset, size, glVertsVersion)
  {
    var readSize, remaining, at, glBit;
    formatVersion, readSize, remaining, at, glBit := GLSegsLayout(data, offset, size, glVertsVersion);
    var count := remaining / readSize;
    assert count == |DecodeGLSegs(data, offset, size, glVertsVersion)|;
    contents := [];
    var i := 0;
    while i < count
      invariant i <= count
      invariant at == offset + GLHeaderSkip(formatVersion) + GLSegReadSize(formatVersion) * i
      invariant contents == DecodeGLSegs(data, offset, size, glVertsVersion)[..i]
    {
      var seg := ReadGLSegRecord(data, offset, size, glVertsVersion, i, formatVersion, glBit, at);
      contents := contents + [seg];
      at := at + readSize;
      i := i + 1;
    }
    assert DecodeGLSegs(data, offset, size, glVertsVersion)[..count] == DecodeGLSegs(data, offset, size, glVertsVersion);
  }

  /**
   * GL_SSECT: the version is chosen as for GL_SEGS; records are two u32
   * (8 bytes) for a positive version and two u16 (4 bytes) for version 0.
   */
  method ParseGLSubSectors(data: seq<byte>, offset: nat, size: nat, glVertsVersion: int)
    returns (formatVersion: int, contents: seq<GLSubSector>)
    requires GLStreamSafe(data, offset, size)
    ensures formatVersion == GLStreamVersion(data, offset, glVertsVersion)
    ensures contents == DecodeGLSubSectors(data, offset, size, glVertsVersion)
  {
    formatVersion := ReadGLStreamMagic(data, offset, glVertsVersion);
    var readSize := 4;
    var remaining := size;
    var at := offset;
    if formatVersion != 0 {
      readSize := 8;
      if formatVersion == 3 {
        remaining := size - 4;
        at := offset + 4;
      }
    }
    var count := remaining / readSize;
    ghost var start := at;
    assert formatVersion == GLStreamVersion(data, offset, glVertsVersion);
    assert start == offset + GLHeaderSkip(formatVersion) && remaining == size - GLHeaderSkip(formatVersion);
    ghost var full := DecodeGLSubSectors(data, offset, size, glVertsVersion);
    assert |full| == count;
    contents := [];
    var i := 0;
    while i < count
      invariant i <= count && |contents| == i
      invariant at == start + readSize * i
      invariant contents == full[..i]
    {
      RecordFits(i, count, readSize, remaining);
      var readOffset := at;
      var subSector;
      if formatVersion > 0 {
        var n := ReadUInt(data, readOffset); readOffset := n.offset;
        var first := ReadUInt(data, readOffset);
        subSector := GLSubSector(n.value, first.value);
      } else {
        var n := ReadUInt16(data, readOffset); readOffset := n.offset;
        var first := ReadUInt16(data, readOffset);
        subSector := GLSubSector(n.value, first.value);
      }
      assert subSector == full[i];
      assert full[..i + 1] == full[..i] + [full[i]];
      contents := contents + [subSector];
      at := at + readSize;
      i := i + 1;
    }
  }

  /**
   * PLAYPAL: size / 768 palettes keyed 0, 1, ...; each of 256 colours read
   * as three bytes r, g, b with alpha 255.
   */
  method ParsePlayPal(data: seq<byte>, offset: nat, size: nat) returns (palettes: map<nat, seq<Color>>)
    requires offset + size <= |data|
    ensures palettes == DecodePlayPal(data, offset, size)
  {
    var count := size / PaletteReadSize;
    palettes := map[];
    var at := offset;
    var i := 0;
    while i < count
      invariant i <= count
      invariant at == offset + PaletteReadSize * i
      invariant forall k: nat :: k in palettes <==> k < i
      invariant forall k :: k in palettes ==> palettes[k] == DecodePlayPal(data, offset, size)[k]
    {
      RecordFits(i, count, PaletteReadSize, size);
      var readOffset := at;
      var entry: seq<Color> := [];
      var entryIndex := 0;
      while entryIndex < 256
        invariant entryIndex <= 256 && |entry| == entryIndex
        invariant readOffset == at + 3 * entryIndex
        invariant entry == PaletteAt(data, at)[..entryIndex]
      {
        var c := Color(0, 0, 0, 255);
        c := c.(r := data[readOffset]);
        c := c.(g := data[readOffset + 1]);
        c := c.(b := data[readOffset + 2]);
        readOffset := readOffset + 3;
        entry := entry + [c];
        entryIndex := entryIndex + 1;
      }
      palettes := palettes[i := entry];
      at := at + PaletteReadSize;
      i := i + 1;
    }
  }

  /** Parse on a freshly created lump of the given kind. */
  method ParseLump(kind: LumpKind, data: seq<byte>, offset: nat, size: nat, glVertsVersion: int) returns (lump: Lump)
    requires ParseSafe(kind, data, offset, size)
    ensures lump == DecodeLump(kind, data, offset, size, glVertsVersion)
    ensures KindOf(lump) == kind
  {
    match kind
    case ThingsKind =>
      var c := ParseThings(data, offset, size);
      lump := ThingsLump(c);
    case VertexesKind =>
      var c := ParseVertexes(data, offset, size);
      lump := VertexesLump(c);
    case LineDefsKind =>
      var c := ParseLineDefs(data, offset, size);
      lump := LineDefsLump(c);
    case SideDefsKind =>
      var c := ParseSideDefs(data, offset, size);
      lump := SideDefsLump(c);
    case SectorsKind =>
      var c := ParseSectors(data, offset, size);
      lump := SectorsLump(c);
    case SegsKind =>
      var c := ParseSegs(data, offset, size);
      lump := SegsLump(c);
    case SubSectorsKind =>
      var c := ParseSubSectors(data, offset, size);
      lump := SubSectorsLump(c);
    case NodesKind =>
      var c := ParseNodes(data, offset, size);
      lump := NodesLump(c);
    case GLVertsKind =>
      var v, c := ParseGLVerts(data, offset, size);
      lump := GLVertsLump(v, c);
    case GLSegsKind =>
      var v, c := ParseGLSegs(data, offset, size, glVertsVersion);
      lump := GLSegsLump(v, c);
    case GLSubSectorsKind =>
      var v, c := ParseGLSubSectors(data, offset, size, glVertsVersion);
      lump := GLSubSectorsLump(v, c);
    case PlayPalKind =>
      var p := ParsePlayPal(data, offset, size);
      lump := PlayPalLump(p);
  }
}
