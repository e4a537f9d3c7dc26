/**
 * Lump record layouts (wadReader/include/lump_types.h) and their decoders
 * (wadReader/src/lump_types.cpp).
 *
 * Every fixed-record parser decodes count = size / ReadSize records, record i
 * from offset + ReadSize * i; trailing partial bytes are ignored.  The three
 * GL lumps first sniff a 4-byte magic to choose their layout.  The floating
 * point copies the source derives from the integer fields (positions scaled
 * by MapScale, 16.16 fixed point divided by 65536) are not modelled: the
 * records keep the raw integers.
 *
 * A `Lump*` of the source is a `Lump` value here.  The source only ever
 * parses a lump object freshly returned by GetLump, so parsing is a method
 * from the lump kind and the byte range to the decoded value.
 */
module LumpTypes {
  import opened Wrappers
  import opened Bytes
  import opened Reader

  // Lump names.
  const THINGS: string := "THINGS"
  const LINEDEFS: string := "LINEDEFS"
  const SIDEDEFS: string := "SIDEDEFS"
  const VERTEXES: string := "VERTEXES"
  const SEGS: string := "SEGS"
  const SSECTORS: string := "SSECTORS"
  const NODES: string := "NODES"
  const SECTORS: string := "SECTORS"
  const REJECT: string := "REJECT"
  const BLOCKMAP: string := "BLOCKMAP"
  const GL_VERT: string := "GL_VERT"
  const GL_SEGS: string := "GL_SEGS"
  const GL_SSECT: string := "GL_SSECT"
  const GL_NODES: string := "GL_NODES"
  const GL_PVS: string := "GL_PVS"
  const PLAYPAL: string := "PLAYPAL"

  // Record widths in bytes (the ReadSize constants).
  const ThingReadSize: nat := 10
  const VertexReadSize: nat := 4
  const LineDefReadSize: nat := 14
  const SideDefReadSize: nat := 30
  const SectorReadSize: nat := 26
  const SegReadSize: nat := 12
  const SubSectorReadSize: nat := 4
  const NodeReadSize: nat := 28
  const PaletteEntries: nat := 256
  const PaletteReadSize: nat := 256 * 3

  /** `uint16_t(-1)`: the "no sector" and "no side" sentinels. */
  const InvalidSectorIndex: uint16 := 0xFFFF
  const InvalidSideDefIndex: uint16 := 0xFFFF

  datatype Thing = Thing(x: int16, y: int16, binAngle: int16, typeId: uint16, flags: uint16)

  datatype Vertex = Vertex(x: int16, y: int16)

  /**
   * Seven consecutive u16 fields.  The fifth is named Sector in the source
   * (it holds the sector tag of the on-disk format).
   */
  datatype LineDef = LineDef(start: uint16, end: uint16, flags: uint16, specialType: uint16,
                             sector: uint16, frontSideDef: uint16, backSideDef: uint16)

  datatype SideDef = SideDef(xOffset: int16, yOffset: int16,
                             topTexture: string, midTexture: string, lowerTexture: string,
                             sectorId: uint16)

  datatype Sector = Sector(floorHeight: int16, ceilingHeight: int16,
                           floorTexture: string, ceilingTexture: string,
                           lightLevel: int16, specialType: uint16, tagNumber: uint16)

  /** Six 16-bit fields. */
  datatype Seg = Seg(start: uint16, end: uint16, angle: int16, lineIndex: uint16, direction: uint16, offset: int16)

  datatype SubSector = SubSector(count: uint16, startIndex: uint16)

  /**
   * A node record.  NodesLump::Parse copies its 28 bytes over the start of
   * a struct whose first 48 bytes are two Vector2 and two Rectangle of
   * floats, so the bytes land in those floats and the int16 fields and the
   * children after them keep the zero `resize` gave them.  The model keeps
   * the 28 raw bytes.
   */
  datatype Node = Node(raw: seq<byte>)

  /** A GL vertex as read: i32 16.16 fixed point (versions 2 and 5) or i16 (version 0). */
  datatype GLVertex = GLVertex(x: int, y: int)

  /** A GL seg; `startIsGL`/`endIsGL` are the SartIsGL/EndIsGL flags of the source. */
  datatype GLSeg = GLSeg(start: nat, startIsGL: bool, end: nat, endIsGL: bool,
                         lineIndex: nat, direction: nat, partnerSegIndex: nat)

  datatype GLSubSector = GLSubSector(count: nat, startSegment: nat)

  datatype Color = Color(r: byte, g: byte, b: byte, a: byte)

  /** The default field values of the header. */
  const DefaultLineDef: LineDef := LineDef(0, 0, 0, 0, InvalidSectorIndex, InvalidSideDefIndex, InvalidSideDefIndex)
  const DefaultSideDef: SideDef := SideDef(0, 0, "", "", "", InvalidSectorIndex)
  const DefaultGLSeg: GLSeg := GLSeg(0, false, 0, false, 0, 0, 0)

  /** The concrete lump classes that GetLump can create. */
  datatype LumpKind =
    | ThingsKind | VertexesKind | LineDefsKind | SideDefsKind | SectorsKind
    | SegsKind | SubSectorsKind | NodesKind
    | GLVertsKind | GLSegsKind | GLSubSectorsKind
    | PlayPalKind

  /** A decoded lump: the `Contents` of each class, and `FormatVersion` for the GL ones. */
  datatype Lump =
    | ThingsLump(things: seq<Thing>)
    | VertexesLump(vertexes: seq<Vertex>)
    | LineDefsLump(lineDefs: seq<LineDef>)
    | SideDefsLump(sideDefs: seq<SideDef>)
    | SectorsLump(sectors: seq<Sector>)
    | SegsLump(segs: seq<Seg>)
    | SubSectorsLump(subSectors: seq<SubSector>)
    | NodesLump(nodes: seq<Node>)
    | GLVertsLump(formatVersion: int, glVerts: seq<GLVertex>)
    | GLSegsLump(formatVersion: int, glSegs: seq<GLSeg>)
    | GLSubSectorsLump(formatVersion: int, glSubSectors: seq<GLSubSector>)
    | PlayPalLump(palettes: map<nat, seq<Color>>)

  function KindOf(l: Lump): LumpKind {
    match l
    case ThingsLump(_) => ThingsKind
    case VertexesLump(_) => VertexesKind
    case LineDefsLump(_) => LineDefsKind
    case SideDefsLump(_) => SideDefsKind
    case SectorsLump(_) => SectorsKind
    case SegsLump(_) => SegsKind
    case SubSectorsLump(_) => SubSectorsKind
    case NodesLump(_) => NodesKind
    case GLVertsLump(_, _) => GLVertsKind
    case GLSegsLump(_, _) => GLSegsKind
    case GLSubSectorsLump(_, _) => GLSubSectorsKind
    case PlayPalLump(_) => PlayPalKind
  }

  /** The lump name each kind is created for. */
  function KindName(k: LumpKind): string {
    match k
    case ThingsKind => THINGS
    case VertexesKind => VERTEXES
    case LineDefsKind => LINEDEFS
    case SideDefsKind => SIDEDEFS
    case SectorsKind => SECTORS
    case SegsKind => SEGS
    case SubSectorsKind => SSECTORS
    case NodesKind => NODES
    case GLVertsKind => GL_VERT
    case GLSegsKind => GL_SEGS
    case GLSubSectorsKind => GL_SSECT
    case PlayPalKind => PLAYPAL
  }

  /** The twelve names GetLump knows. */
  const LumpNames: set<string> :=
    {THINGS, VERTEXES, LINEDEFS, SIDEDEFS, SECTORS, SEGS, SSECTORS, NODES, GL_VERT, GL_SEGS, GL_SSECT, PLAYPAL}

  /** Dispatch on the exact lump name; None plays the null pointer. */
  function GetLump(name: string): (r: Option<LumpKind>)
    ensures r.Some? <==> name in LumpNames
    ensures r.Some? ==> KindName(r.value) == name
  {
    if name == THINGS then Some(ThingsKind)
    else if name == VERTEXES then Some(VertexesKind)
    else if name == LINEDEFS then Some(LineDefsKind)
    else if name == SIDEDEFS then Some(SideDefsKind)
    else if name == SECTORS then Some(SectorsKind)
    else if name == SEGS then Some(SegsKind)
    else if name == SSECTORS then Some(SubSectorsKind)
    else if name == NODES then Some(NodesKind)
    else if name == GL_VERT then Some(GLVertsKind)
    else if name == GL_SEGS then Some(GLSegsKind)
    else if name == GL_SSECT then Some(GLSubSectorsKind)
    else if name == PLAYPAL then Some(PlayPalKind)
    else None
  }

  /** GetLump and KindName are inverse: every kind is found under its own name. */
  lemma GetLumpOfKindName(k: LumpKind)
    ensures GetLump(KindName(k)) == Some(k)
  {
  }

  /** The per-level names that are recognised but have no decoder. */
  lemma UndecodedNames()
    ensures GetLump(REJECT) == None && GetLump(BLOCKMAP) == None
    ensures GetLump(GL_NODES) == None && GetLump(GL_PVS) == None
  {
  }

  // -----------------------------------------------------------------------
  // Record decoders, one per record type, reading the fields in the order
  // of the source.
  // -----------------------------------------------------------------------

  function ThingAt(data: seq<byte>, offset: nat): Thing
    requires offset + ThingReadSize <= |data|
  {
    var x := ReadInt16(data, offset);
    var y := ReadInt16(data, x.offset);
    var binAngle := ReadInt16(data, y.offset);
    var typeId := ReadUInt16(data, binAngle.offset);
    var flags := ReadUInt16(data, typeId.offset);
    Thing(x.value, y.value, binAngle.value, typeId.value, flags.value)
  }

  /** A byte copy into two packed little-endian i16 fields. */
  function VertexAt(data: seq<byte>, offset: nat): Vertex
    requires offset + VertexReadSize <= |data|
  {
    Vertex(ReadInt16(data, offset).value, ReadInt16(data, offset + 2).value)
  }

  /** A byte copy into seven packed little-endian u16 fields. */
  function LineDefAt(data: seq<byte>, offset: nat): LineDef
    requires offset + LineDefReadSize <= |data|
  {
    LineDef(ReadUInt16(data, offset).value, ReadUInt16(data, offset + 2).value,
            ReadUInt16(data, offset + 4).value, ReadUInt16(data, offset + 6).value,
            ReadUInt16(data, offset + 8).value, ReadUInt16(data, offset + 10).value,
            ReadUInt16(data, offset + 12).value)
  }

  /** SectorId is read as an i16 and stored in a u16 field. */
  function SideDefAt(data: seq<byte>, offset: nat): SideDef
    requires offset + SideDefReadSize <= |data|
  {
    var xOffset := ReadInt16(data, offset);
    var yOffset := ReadInt16(data, xOffset.offset);
    var top := ReadName(data, yOffset.offset);
    var mid := ReadName(data, top.offset);
    var lower := ReadName(data, mid.offset);
    var sectorId := ReadInt16(data, lower.offset);
    SideDef(xOffset.value, yOffset.value, top.value, mid.value, lower.value, ToUInt16(sectorId.value))
  }

  /** SpecialType and TagNumber are read as i16 and stored in u16 fields. */
  function SectorAt(data: seq<byte>, offset: nat): Sector
    requires offset + SectorReadSize <= |data|
  {
    var floor := ReadInt16(data, offset);
    var ceiling := ReadInt16(data, floor.offset);
    var floorTexture := ReadName(data, ceiling.offset);
    var ceilingTexture := ReadName(data, floorTexture.offset);
    var light := ReadInt16(data, ceilingTexture.offset);
    var special := ReadInt16(data, light.offset);
    var tag := ReadInt16(data, special.offset);
    Sector(floor.value, ceiling.value, floorTexture.value, ceilingTexture.value, light.value,
           ToUInt16(special.value), ToUInt16(tag.value))
  }

  /** A byte copy into six packed little-endian 16-bit fields. */
  function SegAt(data: seq<byte>, offset: nat): Seg
    requires offset + SegReadSize <= |data|
  {
    Seg(ReadUInt16(data, offset).value, ReadUInt16(data, offset + 2).value,
        ReadInt16(data, offset + 4).value, ReadUInt16(data, offset + 6).value,
        ReadUInt16(data, offset + 8).value, ReadInt16(data, offset + 10).value)
  }

  function SubSectorAt(data: seq<byte>, offset: nat): SubSector
    requires offset + SubSectorReadSize <= |data|
  {
    SubSector(ReadUInt16(data, offset).value, ReadUInt16(data, offset + 2).value)
  }

  function NodeAt(data: seq<byte>, offset: nat): Node
    requires offset + NodeReadSize <= |data|
  {
    Node(data[offset .. offset + NodeReadSize])
  }

  function ColorAt(data: seq<byte>, offset: nat): Color
    requires offset + 3 <= |data|
  {
    Color(data[offset], data[offset + 1], data[offset + 2], 255)
  }

  /** One palette: 256 colours, colour j from the three bytes at offset + 3 * j. */
  function PaletteAt(data: seq<byte>, offset: nat): (p: seq<Color>)
    requires offset + PaletteReadSize <= |data|
    ensures |p| == PaletteEntries
    ensures forall j :: 0 <= j < PaletteEntries ==>
      p[j] == Color(data[offset + 3 * j], data[offset + 3 * j + 1], data[offset + 3 * j + 2], 255)
  {
    seq(PaletteEntries, j requires 0 <= j < PaletteEntries => ColorAt(data, offset + 3 * j))
  }

  // -----------------------------------------------------------------------
  // GL lump versions and layouts.
  // -----------------------------------------------------------------------

  /** The four bytes at offset, compared as a 4-character string by the source. */
  function MagicAt(data: seq<byte>, offset: nat): string
    requires offset + 4 <= |data|
  {
    [data[offset] as char, data[offset + 1] as char, data[offset + 2] as char, data[offset + 3] as char]
  }

  /** GL_VERT: "gNd2" is version 2, "gND5" version 5, anything else (or fewer than 4 bytes) 0. */
  function GLVertsVersion(data: seq<byte>, offset: nat, size: nat): (v: int)
    requires offset + size <= |data|
    ensures v in {0, 2, 5}
    ensures size < 4 ==> v == 0
    ensures v == 2 <==> 4 <= size && MagicAt(data, offset) == "gNd2"
    ensures v == 5 <==> 4 <= size && MagicAt(data, offset) == "gND5"
  {
    if size < 4 then 0
    else if MagicAt(data, offset) == "gNd2" then 2
    else if MagicAt(data, offset) == "gND5" then 5
    else 0
  }

  /**
   * GL_SEGS and GL_SSECT: "gNd3" is version 3; otherwise the version
   * carried over from GL_VERT decides, and only a 5 is kept.
   */
  function GLStreamVersion(data: seq<byte>, offset: nat, glVertsVersion: int): (v: int)
    requires offset + 4 <= |data|
    ensures v in {0, 3, 5}
    ensures v == 3 <==> MagicAt(data, offset) == "gNd3"
    ensures v == 5 <==> MagicAt(data, offset) != "gNd3" && glVertsVersion == 5
  {
    if MagicAt(data, offset) == "gNd3" then 3
    else if glVertsVersion == 5 then 5
    else 0
  }

  /** Only version 3 streams carry the 4-byte magic before their records. */
  function GLHeaderSkip(version: int): nat {
    if version == 3 then 4 else 0
  }

  function GLVertReadSize(version: int): nat {
    if version != 0 then 8 else 4
  }

  function GLSegReadSize(version: int): nat {
    if version != 0 then 16 else 10
  }

  function GLSubSectorReadSize(version: int): nat {
    if version != 0 then 8 else 4
  }

  /** The bit marking "this endpoint is a GL vertex": 15, 30 or 31, as a mask. */
  function TagMask(version: int): (m: nat)
    ensures m in {0x8000, 0x4000_0000, 0x8000_0000}
  {
    if version == 0 then 0x8000
    else if version == 5 then 0x8000_0000
    else 0x4000_0000
  }

  datatype Tagged = Tagged(index: nat, isGL: bool)

  /**
   * Test the tag bit of a raw endpoint and clear it.  The result is the raw
   * value less the mask exactly when the bit was set.
   */
  function SplitTag(raw: nat, mask: nat): (r: Tagged)
    requires mask in {0x8000, 0x4000_0000, 0x8000_0000}
    ensures r.isGL <==> (raw / mask) % 2 == 1
    ensures r.index + (if r.isGL then mask else 0) == raw
  {
    if (raw / mask) % 2 == 1 then Tagged(raw - mask, true) else Tagged(raw, false)
  }

  /** x / m and x % m are the unique quotient and remainder. */
  lemma DivModUnique(x: int, m: int, q: int, r: int)
    requires 0 < m && 0 <= r < m && x == m * q + r
    ensures x / m == q && x % m == r
  {
    var q', r' := x / m, x % m;
    assert m * (q' - q) == r - r';
    MulSign(m, q' - q);
  }

  /** A positive factor keeps a nonzero integer at least its own size away from 0. */
  lemma MulSign(m: int, d: int)
    requires 0 < m
    ensures d >= 1 ==> m * d >= m
    ensures d <= -1 ==> m * d <= -m
  {
    if d >= 1 {
      assert m * d == m * (d - 1) + m;
    } else if d <= -1 {
      assert m * d == m * (d + 1) - m;
    }
  }

  /**
   * Only the tag bit changes: it is clear in the result, and the bits below
   * and above it are those of the raw value.
   */
  lemma SplitTagClearsOnlyTag(raw: nat, mask: nat)
    requires mask in {0x8000, 0x4000_0000, 0x8000_0000}
    ensures (SplitTag(raw, mask).index / mask) % 2 == 0
    ensures SplitTag(raw, mask).index % mask == raw % mask
    ensures SplitTag(raw, mask).index / (2 * mask) == raw / (2 * mask)
  {
    if (raw / mask) % 2 == 1 {
      TagBitClear(raw, mask);
    }
  }

  /** Subtracting m from a value whose bit m is set clears that bit and no other. */
  lemma TagBitClear(raw: nat, m: nat)
    requires 0 < m && (raw / m) % 2 == 1
    ensures m <= raw
    ensures ((raw - m) / m) % 2 == 0
    ensures (raw - m) % m == raw % m
    ensures (raw - m) / (2 * m) == raw / (2 * m)
  {
    var q, r := raw / m, raw % m;
    var hi := q / 2;
    assert raw == m * q + r;
    assert q == 2 * hi + 1;
    assert m * q == (2 * m) * hi + m;
    var index := raw - m;
    assert index == m * (2 * hi) + r;
    DivModUnique(index, m, 2 * hi, r);
    assert index == (2 * m) * hi + r;
    DivModUnique(index, 2 * m, hi, r);
    assert raw == (2 * m) * hi + (m + r);
    DivModUnique(raw, 2 * m, hi, m + r);
  }

  /** Adding m to a value whose bit m is clear sets that bit. */
  lemma TagBitSet(index: nat, m: nat)
    requires 0 < m && (index / m) % 2 == 0
    ensures ((index + m) / m) % 2 == 1
  {
    var q, r := index / m, index % m;
    var h := q / 2;
    assert index == m * q + r;
    assert q == 2 * h;
    assert m * (q + 1) == m * q + m;
    DivModUnique(index + m, m, q + 1, r);
    DivModUnique(q + 1, 2, h, 1);
  }

  /** Setting the tag bit on a value where it is clear is undone by SplitTag. */
  lemma SplitTagOfTagged(index: nat, isGL: bool, mask: nat)
    requires mask in {0x8000, 0x4000_0000, 0x8000_0000}
    requires (index / mask) % 2 == 0
    ensures SplitTag(index + (if isGL then mask else 0), mask) == Tagged(index, isGL)
  {
    if isGL {
      TagBitSet(index, mask);
    }
  }

  function GLVertexAt(data: seq<byte>, offset: nat, version: int): GLVertex
    requires offset + GLVertReadSize(version) <= |data|
  {
    if version != 0 then
      GLVertex(ReadInt(data, offset).value, ReadInt(data, offset + 4).value)
    else
      GLVertex(ReadInt16(data, offset).value, ReadInt16(data, offset + 2).value)
  }

  function GLSegAt(data: seq<byte>, offset: nat, version: int): GLSeg
    requires offset + GLSegReadSize(version) <= |data|
  {
    if version != 0 then
      var start := ReadUInt(data, offset);
      var end := ReadUInt(data, start.offset);
      var lineIndex := ReadUInt16(data, end.offset);
      var direction := ReadUInt16(data, lineIndex.offset);
      var partner := ReadUInt(data, direction.offset);
      var s := SplitTag(start.value, TagMask(version));
      var e := SplitTag(end.value, TagMask(version));
      GLSeg(s.index, s.isGL, e.index, e.isGL, lineIndex.value, direction.value, partner.value)
    else
      var start := ReadUInt16(data, offset);
      var end := ReadUInt16(data, start.offset);
      var lineIndex := ReadUInt16(data, end.offset);
      var direction := ReadUInt16(data, lineIndex.offset);
      var partner := ReadUInt16(data, direction.offset);
      var s := SplitTag(start.value, 0x8000);
      var e := SplitTag(end.value, 0x8000);
      GLSeg(s.index, s.isGL, e.index, e.isGL, lineIndex.value, direction.value, partner.value)
  }

  function GLSubSectorAt(data: seq<byte>, offset: nat, version: int): GLSubSector
    requires offset + GLSubSectorReadSize(version) <= |data|
  {
    if version > 0 then
      var count := ReadUInt(data, offset);
      var start := ReadUInt(data, count.offset);
      GLSubSector(count.value, start.value)
    else
      var count := ReadUInt16(data, offset);
      var start := ReadUInt16(data, count.offset);
      GLSubSector(count.value, start.value)
  }

  // -----------------------------------------------------------------------
  // Whole-lump decodings: what each Parse leaves in a fresh lump object.
  // -----------------------------------------------------------------------

  function DecodeThings(data: seq<byte>, offset: nat, size: nat): seq<Thing>
    requires offset + size <= |data|
  {
    seq(size / ThingReadSize, i requires 0 <= i < size / ThingReadSize =>
      RecordFits(i, size / ThingReadSize, ThingReadSize, size);
      ThingAt(data, offset + ThingReadSize * i))
  }

  function DecodeVertexes(data: seq<byte>, offset: nat, size: nat): seq<Vertex>
    requires offset + size <= |data|
  {
    seq(size / VertexReadSize, i requires 0 <= i < size / VertexReadSize =>
      RecordFits(i, size / VertexReadSize, VertexReadSize, size);
      VertexAt(data, offset + VertexReadSize * i))
  }

  function DecodeLineDefs(data: seq<byte>, offset: nat, size: nat): seq<LineDef>
    requires offset + size <= |data|
  {
    seq(size / LineDefReadSize, i requires 0 <= i < size / LineDefReadSize =>
      RecordFits(i, size / LineDefReadSize, LineDefReadSize, size);
      LineDefAt(data, offset + LineDefReadSize * i))
  }

  function DecodeSideDefs(data: seq<byte>, offset: nat, size: nat): seq<SideDef>
    requires offset + size <= |data|
  {
    seq(size / SideDefReadSize, i requires 0 <= i < size / SideDefReadSize =>
      RecordFits(i, size / SideDefReadSize, SideDefReadSize, size);
      SideDefAt(data, offset + SideDefReadSize * i))
  }

  function DecodeSectors(data: seq<byte>, offset: nat, size: nat): seq<Sector>
    requires offset + size <= |data|
  {
    seq(size / SectorReadSize, i requires 0 <= i < size / SectorReadSize =>
      RecordFits(i, size / SectorReadSize, SectorReadSize, size);
      SectorAt(data, offset + SectorReadSize * i))
  }

  function DecodeSegs(data: seq<byte>, offset: nat, size: nat): seq<Seg>
    requires offset + size <= |data|
  {
    seq(size / SegReadSize, i requires 0 <= i < size / SegReadSize =>
      RecordFits(i, size / SegReadSize, SegReadSize, size);
      SegAt(data, offset + SegReadSize * i))
  }

  function DecodeSubSectors(data: seq<byte>, offset: nat, size: nat): seq<SubSector>
    requires offset + size <= |data|
  {
    seq(size / SubSectorReadSize, i requires 0 <= i < size / SubSectorReadSize =>
      RecordFits(i, size / SubSectorReadSize, SubSectorReadSize, size);
      SubSectorAt(data, offset + SubSectorReadSize * i))
  }

  function DecodeNodes(data: seq<byte>, offset: nat, size: nat): seq<Node>
    requires offset + size <= |data|
  {
    seq(size / NodeReadSize, i requires 0 <= i < size / NodeReadSize =>
      RecordFits(i, size / NodeReadSize, NodeReadSize, size);
      NodeAt(data, offset + NodeReadSize * i))
  }

  /** Where the GL_VERT records start and how many there are. */
  function GLVertsSkip(version: int): nat {
    if version != 0 then 4 else 0
  }

  function DecodeGLVerts(data: seq<byte>, offset: nat, size: nat): seq<GLVertex>
    requires offset + size <= |data|
  {
    var v := GLVertsVersion(data, offset, size);
    var skip := GLVertsSkip(v);
    var w := GLVertReadSize(v);
    seq((size - skip) / w, i requires 0 <= i < (size - skip) / w =>
      RecordFits(i, (size - skip) / w, w, size - skip);
      GLVertexAt(data, offset + skip + w * i, v))
  }

  /**
   * The reads of GL_SEGS and GL_SSECT stay inside the buffer: they read
   * their 4-byte magic unconditionally, and a version 3 stream shorter than
   * the magic would make the unsigned size wrap around.
   */
  predicate GLStreamSafe(data: seq<byte>, offset: nat, size: nat) {
    offset + size <= |data| && offset + 4 <= |data| &&
    (MagicAt(data, offset) == "gNd3" ==> 4 <= size)
  }

  function DecodeGLSegs(data: seq<byte>, offset: nat, size: nat, glVertsVersion: int): seq<GLSeg>
    requires GLStreamSafe(data, offset, size)
  {
    var v := GLStreamVersion(data, offset, glVertsVersion);
    var skip := GLHeaderSkip(v);
    var w := GLSegReadSize(v);
    seq((size - skip) / w, i requires 0 <= i < (size - skip) / w =>
      RecordFits(i, (size - skip) / w, w, size - skip);
      GLSegAt(data, offset + skip + w * i, v))
  }

  function DecodeGLSubSectors(data: seq<byte>, offset: nat, size: nat, glVertsVersion: int): seq<GLSubSector>
    requires GLStreamSafe(data, offset, size)
  {
    var v := GLStreamVersion(data, offset, glVertsVersion);
    var skip := GLHeaderSkip(v);
    var w := GLSubSectorReadSize(v);
    seq((size - skip) / w, i requires 0 <= i < (size - skip) / w =>
      RecordFits(i, (size - skip) / w, w, size - skip);
      GLSubSectorAt(data, offset + skip + w * i, v))
  }

  function DecodePlayPal(data: seq<byte>, offset: nat, size: nat): map<nat, seq<Color>>
    requires offset + size <= |data|
  {
    map i: nat | i < size / PaletteReadSize ::
      RecordFits(i, size / PaletteReadSize, PaletteReadSize, size);
      PaletteAt(data, offset + PaletteReadSize * i)
  }

  /** The reads of a Parse of this kind stay inside the buffer. */
  predicate ParseSafe(kind: LumpKind, data: seq<byte>, offset: nat, size: nat) {
    if kind == GLSegsKind || kind == GLSubSectorsKind then GLStreamSafe(data, offset, size)
    else offset + size <= |data|
  }

  /** What Parse leaves in a freshly created lump of the given kind. */
  function DecodeLump(kind: LumpKind, data: seq<byte>, offset: nat, size: nat, glVertsVersion: int): Lump
    requires ParseSafe(kind, data, offset, size)
  {
    match kind
    case ThingsKind => ThingsLump(DecodeThings(data, offset, size))
    case VertexesKind => VertexesLump(DecodeVertexes(data, offset, size))
    case LineDefsKind => LineDefsLump(DecodeLineDefs(data, offset, size))
    case SideDefsKind => SideDefsLump(DecodeSideDefs(data, offset, size))
    case SectorsKind => SectorsLump(DecodeSectors(data, offset, size))
    case SegsKind => SegsLump(DecodeSegs(data, offset, size))
    case SubSectorsKind => SubSectorsLump(DecodeSubSectors(data, offset, size))
    case NodesKind => NodesLump(DecodeNodes(data, offset, size))
    case GLVertsKind =>
      GLVertsLump(GLVertsVersion(data, offset, size), DecodeGLVerts(data, offset, size))
    case GLSegsKind =>
      GLSegsLump(GLStreamVersion(data, offset, glVertsVersion), DecodeGLSegs(data, offset, size, glVertsVersion))
    case GLSubSectorsKind =>
      GLSubSectorsLump(GLStreamVersion(data, offset, glVertsVersion), DecodeGLSubSectors(data, offset, size, glVertsVersion))
    case PlayPalKind => PlayPalLump(DecodePlayPal(data, offset, size))
  }
}
