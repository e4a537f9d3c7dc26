# WAD decoder core, modelled in Dafny

This project models the decoding core of a Doom WAD reader and proves properties of the model. The core takes an archive in memory, reads its header and directory, and decodes the map lumps into typed records. It groups lumps into levels, memoises decoded lumps per name, and builds the per-sector edge and subsector lists and the set of leaf subsectors of the BSP node tree. The older lump store of the game viewer (`game/src/doom_map.cpp`) is modelled too.

Modules, in dependency order:

- `Wrappers`, `Bytes` (bytes.dfy): Option; fixed-width integers with their little-endian encodings and the C conversions the reader relies on (`int32_t` to `size_t` modulo 2^64, `int16_t` to `uint16_t` modulo 2^16).
- `Reader` (reader.dfy): the byte cursor of `wadReader/src/reader.cpp`. A read is a function from (buffer, offset) to the value and the advanced offset. `ReadDirectoryEntries` is a loop, proved against the reference `Directory` function. Encoders give the round trips.
- `LumpTypes` (lump_types.dfy): the record layouts, `ReadSize` constants, sentinels and lump names of `lump_types.h`. Also `GetLump`, the GL version sniffing and tag-bit arithmetic, and one decoding function per `Parse`.
- `LumpCodecs` (lump_codecs.dfy): record encoders and decode-after-encode lemmas.
- `LumpParse` (lump_parse.dfy): every `Parse` as a method with the source's loop, each proved equal to its decoding function.
- `LumpStore` (lump_store.dfy): the memoised store `LumpDB` of a level, `LoadLumpData` as a step function, and the order-independent description of the entry loop of `LevelMap::Load`.
- `MapGrouping` (map_grouping.dfy): `IsMapLump` and the two-state walk of `WADFile::Read`, as a fold over the directory with its invariants.
- `Topology` (topology.dfy): the sector cache (edges, then subsectors) and the leaf set of `FindLeafs`, as reference functions with their characterising lemmas.
- `DoomMap` (doom_map.dfy): the `WADFile` and `LevelMap` classes with methods that update their fields exactly as the source does, proved against the functions above.
- `GameMap` (game_doom_map.dfy): the `DoomMap` class of the game viewer, with its store, `Read` loop and `CacheMap`.

Where the header comments and the code disagree, the model follows the code:

- `wadReader/include/doom_map.h:77` calls an edge's `Destination` "the sector on the other side of this line". The code stores a sidedef index there (`wadReader/src/doom_map.cpp:166`, `:181`), and it files both edges of a line under the sector of the line's front side (`:173`).
- `wadReader/include/doom_map.h:81` calls a sector's edge list sorted and a loop. The code only appends, in line order (`SectorEdgesOrdered` proves this).
- No read is bounds-checked; each unchecked read is a precondition.
- `wadReader/src/doom_map.cpp` does not match the types in its header: the directory is assigned to an unordered map, and a `LevelMap` is built with no source and given a `BufferData`. The model follows what the code means: the directory is an ordered sequence, a level's entries are a map keyed by name, and each level has its own store and buffer.

Slips in the source are reproduced as written and marked "as written" in the Dafny:

- The left leaf of a node is masked from `RightChild` (`wadReader/src/doom_map.cpp:116`; see `LeftLeafRecordsRightChild`).
- The back edge goes to the front side's sector (`:173`; see `BackEdgeInFrontSector`).
- `Destination` is a sidedef index (`:166`, `:181`).
- A level still open at the end of the directory is never emitted (`:61-94`; see `NoFinalFlush`).
- `NodesLump::Parse` copies each 28-byte record over the float fields at the start of `Node`, so the child fields stay 0 and `FindLeafs` of the root never ends (`wadReader/src/lump_types.cpp:170-173`; see the findings below).
- The game's store always parses with version 0 (`game/src/doom_map.cpp:38`).

## Model

| member | source | states |
|---|---|---|
| Bytes.LE16 | wadReader/src/reader.cpp:26-31 | the unsigned value of two bytes, least significant first (its partners are EncodeU16, LE16OfEncode and EncodeOfLE16) |
| Bytes.LE32 | wadReader/src/reader.cpp:12-17 | the unsigned value of four bytes, least significant first (partners EncodeU32, LE32OfEncode, EncodeOfLE32) |
| Bytes.ToInt16 | wadReader/src/reader.cpp:19-24 | the `int16_t` reading of 16 bits, two's complement (partners EncodeI16, Int16OfEncode, SignedUnsigned16) |
| Bytes.ToInt32 | wadReader/src/reader.cpp:5-10 | the `int32_t` reading of 32 bits, two's complement (partners EncodeI32, Int32OfEncode, SignedUnsigned32) |
| Bytes.ToUInt16 | wadReader/src/lump_types.cpp:106 | the C conversion of an `int16_t` to the `uint16_t` field it is stored in, modulo 2^16 (SignedUnsigned16 proves it undoes ToInt16) |
| Bytes.ToSizeT | wadReader/src/reader.cpp:45-46 | converting an `int32_t` to a `size_t` keeps a non-negative value and sends a negative one v to v + 2^64, which is at least 2^64 - 2^31 |
| Bytes.EncodeU16 | wadReader/src/reader.cpp:26-31 | the little-endian encoding read by ReadUInt16 is two bytes long |
| Bytes.EncodeU32 | wadReader/src/reader.cpp:12-17 | the little-endian encoding read by ReadUInt is four bytes long |
| Bytes.EncodeI16 | wadReader/src/reader.cpp:19-24 | the two's-complement encoding read by ReadInt16 is two bytes long |
| Bytes.EncodeI32 | wadReader/src/reader.cpp:5-10 | the two's-complement encoding read by ReadInt is four bytes long |
| Bytes.LE16OfEncode | wadReader/src/reader.cpp:26-31 | every 16-bit value survives encode-then-read |
| Bytes.EncodeOfLE16 | wadReader/src/reader.cpp:26-31 | every pair of bytes survives read-then-encode |
| Bytes.LE32OfEncode | wadReader/src/reader.cpp:12-17 | every 32-bit value survives encode-then-read |
| Bytes.EncodeOfLE32 | wadReader/src/reader.cpp:12-17 | every four bytes survive read-then-encode |
| Bytes.SignedUnsigned16 | wadReader/src/reader.cpp:19-31 | the signed and unsigned readings of two bytes agree modulo 2^16; converting the signed one back gives the unsigned one; it is negative exactly when the high byte is at least 0x80 |
| Bytes.SignedUnsigned32 | wadReader/src/reader.cpp:5-17 | the signed and unsigned readings of four bytes agree modulo 2^32; the signed one is negative exactly when the top byte is at least 0x80 |
| Bytes.Int16OfEncode | wadReader/src/reader.cpp:19-24 | every `int16_t` survives encode-then-signed-read |
| Bytes.Int32OfEncode | wadReader/src/reader.cpp:5-10 | every `int32_t` survives encode-then-signed-read |
| Reader.ReadInt | wadReader/src/reader.cpp:5-10 | ReadInt advances the offset by exactly 4 |
| Reader.ReadUInt | wadReader/src/reader.cpp:12-17 | ReadUInt advances the offset by exactly 4 |
| Reader.ReadInt16 | wadReader/src/reader.cpp:19-24 | ReadInt16 advances the offset by exactly 2 |
| Reader.ReadUInt16 | wadReader/src/reader.cpp:26-31 | ReadUInt16 advances the offset by exactly 2 |
| Reader.ReadIntEncoded | wadReader/src/reader.cpp:5-10 | four bytes encoding v read back as v, with the offset moved by 4 |
| Reader.ReadUIntEncoded | wadReader/src/reader.cpp:12-17 | four bytes encoding v read back as v (unsigned), with the offset moved by 4 |
| Reader.ReadInt16Encoded | wadReader/src/reader.cpp:19-24 | two bytes encoding v read back as v, with the offset moved by 2 |
| Reader.ReadUInt16Encoded | wadReader/src/reader.cpp:26-31 | two bytes encoding v read back as v (unsigned), with the offset moved by 2 |
| Reader.EncodeOfReadUInt | wadReader/src/reader.cpp:12-17 | the value ReadUInt returns is the little-endian value of the four bytes at the old offset |
| Reader.EncodeOfReadUInt16 | wadReader/src/reader.cpp:26-31 | the value ReadUInt16 returns is the little-endian value of the two bytes at the old offset |
| Reader.ReadInt16AgreesWithUInt16 | wadReader/src/reader.cpp:19-31 | at one offset ReadInt16 and ReadUInt16 advance equally and their values agree modulo 2^16 |
| Reader.ReadIntAgreesWithUInt | wadReader/src/reader.cpp:5-17 | at one offset ReadInt and ReadUInt advance equally and their values agree modulo 2^32 |
| Reader.NulTrim | wadReader/src/reader.cpp:35-38 | the string is the bytes before the first NUL: no longer than the field, free of NUL, and stopped by a NUL when shorter |
| Reader.NulTrimUnique | wadReader/src/reader.cpp:35-38 | any string with those three properties is the NulTrim of the field |
| Reader.ReadName | wadReader/src/reader.cpp:33-39 | the offset moves by 8; the name has at most 8 NUL-free characters copied from the field and stops at a NUL; all 8 bytes are kept when none is NUL |
| Reader.EncodeName | wadReader/src/reader.cpp:33-39 | a name of at most 8 characters is written as an 8-byte NUL-padded field |
| Reader.ReadNameEncoded | wadReader/src/reader.cpp:33-39 | every valid name survives encode-then-ReadName |
| Reader.ReadDirectoryEntry | wadReader/src/reader.cpp:41-51 | a directory record consumes exactly 16 bytes |
| Reader.EncodeDirectoryEntry | wadReader/src/reader.cpp:41-51 | an entry is written as 16 bytes: offset, size, name |
| Reader.ReadDirectoryEntryEncoded | wadReader/src/reader.cpp:41-51 | the offset comes from bytes 0-3, the size from 4-7 and the name from 8-15: an encoded entry reads back exactly |
| Reader.ReadDirectoryEntryLocal | wadReader/src/reader.cpp:41-51 | a record depends only on its own 16 bytes |
| Reader.DirectoryRecordFits | wadReader/src/reader.cpp:62-65 | under the bound precondition, record i lies inside the buffer |
| Reader.DirectoryStep | wadReader/src/reader.cpp:62-65 | reading record i at dirOffset + 16i extends the directory prefix by one entry |
| Reader.DirectoryGrows | wadReader/src/reader.cpp:62-65 | the record read at the running offset is the next directory entry |
| Reader.LumpCount | wadReader/src/reader.cpp:56 | the entry count: the `int32_t` at byte 4, widened to `size_t` as the loop bound compares it |
| Reader.DirectoryOffset | wadReader/src/reader.cpp:57 | the directory offset: the `int32_t` at byte 8, widened to `size_t` |
| Reader.Directory | wadReader/src/reader.cpp:60-67 | the reference directory: entry i is the record at DirectoryOffset + 16i, for i below LumpCount (ReadDirectoryEntries is proved equal to it) |
| Reader.ReadHeader | wadReader/src/reader.cpp:55-58 | the lump count is read at byte 4 and the directory offset at byte 8, each widened to `size_t` |
| Reader.ReadDirectoryEntries | wadReader/src/reader.cpp:53-68 | returns exactly lumpCount entries in directory order, entry i decoded from dirOffset + 16i |
| Reader.HeaderIgnoresMagic | wadReader/src/reader.cpp:55-58 | buffers that differ only in bytes 0-3 have the same count and offset, and the same directory when it starts at byte 4 or later |
| Reader.DirectoryExtensional | wadReader/src/reader.cpp:60-67 | the directory is determined by the header and the records it names |
| Reader.ArchiveHeader | wadReader/src/reader.cpp:55-58 | an encoded archive's header reads back its entry count and the offset 12 |
| Reader.ArchiveRecord | wadReader/src/reader.cpp:62-65 | record i of an encoded archive sits at 12 + 16i |
| Reader.ArchiveRecords | wadReader/src/reader.cpp:62-65 | every record of an encoded archive reads back its entry |
| Reader.DirectoryOfRecords | wadReader/src/reader.cpp:60-67 | a buffer whose records read back the entries has exactly those entries as directory |
| Reader.DirectoryEntryAt | wadReader/src/reader.cpp:62-65 | directory entry i is the record at dirOffset + 16i |
| Reader.DirectoryOfEncoded | wadReader/src/reader.cpp:53-68 | reading the directory of an encoded archive gives back its entries, in order |
| LumpTypes.GetLump | wadReader/src/lump_types.cpp:7-42 | a lump class exists exactly for the twelve names, and the class found is the one made for that name |
| LumpTypes.GetLumpOfKindName | wadReader/src/lump_types.cpp:7-42 | every lump class is found under its own name |
| LumpTypes.UndecodedNames | wadReader/src/lump_types.cpp:7-42 | REJECT, BLOCKMAP, GL_NODES and GL_PVS have no lump class |
| LumpTypes.ThingAt | wadReader/src/lump_types.cpp:51-57 | a Thing read field by field: X, Y, BinAngle as i16, TypeId, Flags as u16 (ThingAtEncoded is its inverse) |
| LumpTypes.VertexAt | wadReader/src/lump_types.cpp:73 | the byte copy of a Vertex: two packed little-endian i16 (VertexAtEncoded is its inverse) |
| LumpTypes.LineDefAt | wadReader/src/lump_types.cpp:85 | the byte copy of a LineDef: seven packed little-endian u16 (LineDefAtEncoded is its inverse) |
| LumpTypes.SideDefAt | wadReader/src/lump_types.cpp:97-106 | a SideDef read as two i16, three names and an i16 sector stored in a u16 field (SideDefAtEncoded is its inverse) |
| LumpTypes.SectorAt | wadReader/src/lump_types.cpp:121-133 | a Sector read as two i16 heights, two names and three i16, the last two stored in u16 fields (SectorAtEncoded is its inverse) |
| LumpTypes.SegAt | wadReader/src/lump_types.cpp:149 | the byte copy of a Seg: u16, u16, i16, u16, u16, i16 (SegAtEncoded is its inverse) |
| LumpTypes.SubSectorAt | wadReader/src/lump_types.cpp:161 | the byte copy of a SubSector: two u16 (SubSectorAtEncoded is its inverse) |
| LumpTypes.NodeAt | wadReader/src/lump_types.cpp:173 | the 28 bytes of a node record, kept raw (see the findings) |
| LumpTypes.ColorAt | wadReader/src/lump_types.cpp:372-375 | one palette colour: three bytes r, g, b and alpha 255 |
| LumpTypes.GLVertexAt | wadReader/src/lump_types.cpp:206-227 | a GL vertex: two i32 in a versioned layout, two i16 in version 0 (GLVertexAtEncoded is its inverse) |
| LumpTypes.GLSegAt | wadReader/src/lump_types.cpp:268-311 | a GL seg in the layout of its version, with the tag bits split off the endpoints (GLSegWideAtEncoded and GLSegNarrowAtEncoded are its inverse) |
| LumpTypes.GLSubSectorAt | wadReader/src/lump_types.cpp:345-357 | a GL subsector: two u32 for a positive version, two u16 otherwise (GLSubSectorAtEncoded is its inverse) |
| LumpTypes.DecodeThings | wadReader/src/lump_types.cpp:44-64 | size / 10 Things, record i at offset + 10i (ParseThings is proved equal to it) |
| LumpTypes.DecodeVertexes | wadReader/src/lump_types.cpp:66-76 | size / 4 Vertexes, record i at offset + 4i (ParseVertexes) |
| LumpTypes.DecodeLineDefs | wadReader/src/lump_types.cpp:78-88 | size / 14 LineDefs, record i at offset + 14i (ParseLineDefs) |
| LumpTypes.DecodeSideDefs | wadReader/src/lump_types.cpp:90-112 | size / 30 SideDefs, record i at offset + 30i (ParseSideDefs) |
| LumpTypes.DecodeSectors | wadReader/src/lump_types.cpp:114-140 | size / 26 Sectors, record i at offset + 26i (ParseSectors) |
| LumpTypes.DecodeSegs | wadReader/src/lump_types.cpp:142-152 | size / 12 Segs, record i at offset + 12i (ParseSegs) |
| LumpTypes.DecodeSubSectors | wadReader/src/lump_types.cpp:154-164 | size / 4 SubSectors, record i at offset + 4i (ParseSubSectors) |
| LumpTypes.DecodeNodes | wadReader/src/lump_types.cpp:166-176 | size / 28 raw node records, record i at offset + 28i (ParseNodes) |
| LumpTypes.DecodeGLVerts | wadReader/src/lump_types.cpp:178-234 | after a 4-byte magic for versions 2 and 5, 8-byte records; otherwise 4-byte records from the offset (ParseGLVerts) |
| LumpTypes.DecodeGLSegs | wadReader/src/lump_types.cpp:236-315 | after a 4-byte magic for version 3, 16-byte records for a non-zero version and 10-byte ones for version 0 (ParseGLSegs) |
| LumpTypes.DecodeGLSubSectors | wadReader/src/lump_types.cpp:317-361 | after a 4-byte magic for version 3, 8-byte records for a positive version and 4-byte ones otherwise (ParseGLSubSectors) |
| LumpTypes.DecodePlayPal | wadReader/src/lump_types.cpp:363-381 | size / 768 palettes keyed 0, 1, ..., palette i at offset + 768i (ParsePlayPal) |
| LumpTypes.DecodeLump | wadReader/src/lump_types.cpp:44-381 | what Parse leaves in a fresh lump of each class, with the sniffed version for the three GL classes (ParseLump and DecodeLumpKind) |
| LumpTypes.PaletteAt | wadReader/src/lump_types.cpp:369-377 | a palette has 256 colours; colour j is the bytes at offset + 3j, +1, +2 with alpha 255 |
| LumpTypes.GLVertsVersion | wadReader/src/lump_types.cpp:180-189 | GL_VERT is version 2 exactly for "gNd2", 5 exactly for "gND5", and 0 otherwise or when shorter than 4 bytes |
| LumpTypes.GLStreamVersion | wadReader/src/lump_types.cpp:238-244 | GL_SEGS/GL_SSECT are version 3 exactly for "gNd3"; otherwise 5 exactly when GL_VERT was 5; otherwise 0 |
| LumpTypes.TagMask | wadReader/src/lump_types.cpp:262-264 | the GL tag is one of bits 15, 30 and 31 |
| LumpTypes.SplitTag | wadReader/src/lump_types.cpp:275-286 | the GL flag is set exactly when the tag bit is set, and the index is the raw value less the bit exactly then |
| LumpTypes.SplitTagClearsOnlyTag | wadReader/src/lump_types.cpp:275-306 | only the tag bit changes: it is clear in the index, and the bits below and above it are the raw value's |
| LumpTypes.TagBitClear | wadReader/src/lump_types.cpp:278 | subtracting a set bit clears it and leaves the lower and higher bits |
| LumpTypes.TagBitSet | wadReader/src/lump_types.cpp:275 | adding a clear bit sets it |
| LumpTypes.SplitTagOfTagged | wadReader/src/lump_types.cpp:272-306 | tagging an index whose tag bit is clear is undone by SplitTag |
| LumpCodecs.EncodeThing | wadReader/include/lump_types.h:62-73 | a Thing is written in 10 bytes |
| LumpCodecs.ThingAtEncoded | wadReader/src/lump_types.cpp:53-57 | a Thing is read as X, Y, BinAngle (i16), TypeId, Flags (u16), and an encoded Thing reads back exactly |
| LumpCodecs.EncodeLineDef | wadReader/include/lump_types.h:109-117 | the seven u16 fields of a LineDef fill its 14 bytes |
| LumpCodecs.LineDefAtEncoded | wadReader/src/lump_types.cpp:85 | the byte copy of a LineDef reads back its seven fields in declaration order |
| LumpCodecs.EncodeSideDef | wadReader/include/lump_types.h:128-139 | a SideDef is written in 30 bytes |
| LumpCodecs.SideDefAtEncoded | wadReader/src/lump_types.cpp:99-106 | a SideDef is read as two i16 offsets, three names and SectorId, which reads back exactly even when 0x8000 or more |
| LumpCodecs.EncodeVertex | wadReader/include/lump_types.h:87-93 | a Vertex is written in 4 bytes |
| LumpCodecs.VertexAtEncoded | wadReader/src/lump_types.cpp:73 | an encoded Vertex reads back exactly |
| LumpCodecs.EncodeSector | wadReader/include/lump_types.h:150-164 | a Sector whose special type and tag fit an i16 reading is written in 26 bytes |
| LumpCodecs.SectorAtEncoded | wadReader/src/lump_types.cpp:121-133 | an encoded Sector reads back exactly, including SpecialType and TagNumber of 0x8000 or more |
| LumpCodecs.EncodeSeg | wadReader/include/lump_types.h:175-184 | a Seg is written in 12 bytes |
| LumpCodecs.SegAtEncoded | wadReader/src/lump_types.cpp:149 | an encoded Seg reads back its six fields in declaration order |
| LumpCodecs.EncodeSubSector | wadReader/include/lump_types.h:195-200 | a SubSector is written in 4 bytes |
| LumpCodecs.SubSectorAtEncoded | wadReader/src/lump_types.cpp:161 | an encoded SubSector reads back its count and first seg |
| LumpCodecs.EncodeGLVertex | wadReader/src/lump_types.cpp:191-227 | a GL vertex whose coordinates fit the version's width is written in 8 bytes for a non-zero version and 4 for version 0 |
| LumpCodecs.GLVertexAtEncoded | wadReader/src/lump_types.cpp:206-227 | an encoded GL vertex reads back exactly in either layout |
| LumpCodecs.EncodeGLSubSector | wadReader/src/lump_types.cpp:327-357 | a GL subsector is written in 8 bytes for a positive version and 4 for version 0 |
| LumpCodecs.GLSubSectorAtEncoded | wadReader/src/lump_types.cpp:343-357 | an encoded GL subsector reads back exactly in either layout |
| LumpCodecs.EncodeGLSeg | wadReader/src/lump_types.cpp:272-311 | a GL seg is written as 16 bytes in the wide layouts and 10 in the legacy one |
| LumpCodecs.TagSplit | wadReader/src/lump_types.cpp:275-306 | an endpoint index below the tag bit, with its flag, survives tagging then SplitTag |
| LumpCodecs.GLSegWideAtEncoded | wadReader/src/lump_types.cpp:272-291 | a version 3 or 5 seg (u32 endpoints, u16 line and direction, u32 partner) reads back with its flags |
| LumpCodecs.GLSegNarrowAtEncoded | wadReader/src/lump_types.cpp:292-311 | a version 0 seg (u16 fields, bit-15 tags) reads back with its flags |
| LumpCodecs.EncodePalette | wadReader/include/lump_types.h:289-294 | a palette is written in 768 bytes |
| LumpCodecs.PaletteAtEncoded | wadReader/src/lump_types.cpp:369-377 | a palette of opaque colours reads back exactly |
| LumpCodecs.DecodeThingsOfEncoded | wadReader/src/lump_types.cpp:44-64 | a THINGS lump of encoded records decodes to those records, in order |
| LumpCodecs.DecodeThingsIgnoresTail | wadReader/src/lump_types.cpp:46 | bytes after the last whole record are ignored |
| LumpParse.ParseThings | wadReader/src/lump_types.cpp:44-64 | size / 10 Things, record i from offset + 10i |
| LumpParse.ParseVertexes | wadReader/src/lump_types.cpp:66-76 | size / 4 vertexes, record i from offset + 4i |
| LumpParse.ParseLineDefs | wadReader/src/lump_types.cpp:78-88 | size / 14 LineDefs, record i from offset + 14i |
| LumpParse.ParseSideDefs | wadReader/src/lump_types.cpp:90-112 | size / 30 SideDefs, record i from offset + 30i |
| LumpParse.ParseSectors | wadReader/src/lump_types.cpp:114-140 | size / 26 sectors, record i from offset + 26i |
| LumpParse.ParseSegs | wadReader/src/lump_types.cpp:142-152 | size / 12 segs, record i from offset + 12i |
| LumpParse.ParseSubSectors | wadReader/src/lump_types.cpp:154-164 | size / 4 subsectors, record i from offset + 4i |
| LumpParse.ParseNodes | wadReader/src/lump_types.cpp:166-176 | size / 28 raw node records, record i from offset + 28i |
| LumpParse.ReadGLVertsMagic | wadReader/src/lump_types.cpp:183-189 | the magic test yields the GL_VERT version |
| LumpParse.ReadGLVertex | wadReader/src/lump_types.cpp:206-227 | one GL vertex: two i32 in the wide layouts, two i16 otherwise |
| LumpParse.ParseGLVerts | wadReader/src/lump_types.cpp:178-234 | the version is GLVertsVersion; the records are the 8-byte ones after the magic or the 4-byte ones from the offset, as DecodeGLVerts |
| LumpParse.TagEndpoint | wadReader/src/lump_types.cpp:275-279 | the flag reports the tag bit and the index is the raw value with it cleared |
| LumpParse.ReadGLSeg | wadReader/src/lump_types.cpp:268-311 | one GL seg record, in the layout of its version |
| LumpParse.ReadGLStreamMagic | wadReader/src/lump_types.cpp:238-244 | the magic test yields the GL_SEGS/GL_SSECT version |
| LumpParse.ParseGLSegs | wadReader/src/lump_types.cpp:236-315 | the version is GLStreamVersion; the records are (size - skip) / width segs, as DecodeGLSegs |
| LumpParse.GLSegsLayout | wadReader/src/lump_types.cpp:238-264 | the header branches give the stream version (0, 3 or 5), the record width, the bytes skipped and the flag bit of that version |
| LumpParse.GLSegsElement | wadReader/src/lump_types.cpp:258-313 | record i of the stream lies inside the buffer and decodes to element i of DecodeGLSegs |
| LumpParse.ReadGLSegRecord | wadReader/src/lump_types.cpp:266-313 | reading record i yields element i of DecodeGLSegs and advances the offset by one record width |
| LumpParse.ParseGLSubSectors | wadReader/src/lump_types.cpp:317-361 | the version is GLStreamVersion; the records are two u32 for a positive version and two u16 otherwise, as DecodeGLSubSectors |
| LumpParse.ParsePlayPal | wadReader/src/lump_types.cpp:363-381 | size / 768 palettes keyed 0, 1, ..., as DecodePlayPal |
| LumpParse.ParseLump | wadReader/src/doom_map.cpp:218-227 | Parse on a fresh lump of a kind decodes it and keeps that kind |
| LumpStore.Find | wadReader/include/doom_map.h:32-40 | GetLump<T> finds a lump exactly when the name is stored, returns the stored lump, and never inserts |
| LumpStore.LoadStep | wadReader/src/doom_map.cpp:213-229 | the store after LoadLumpData: unchanged for a stored name or one without a lump class, otherwise with the entry decoded under the stored GL_VERT version (LoadStepFrame states this) |
| LumpStore.LoadLevel | wadReader/src/doom_map.cpp:127-131 | the store after the load of a level: GL_VERT first, then every loadable name decoded with the version GL_VERT settled (LoadLevelLoaded proves it is the store the loop leaves) |
| LumpStore.LoadStepFrame | wadReader/src/doom_map.cpp:213-229 | LoadLumpData changes only the entry's name; that name gains a lump exactly when it was absent and has a lump class, decoded with the stored GL_VERT version |
| LumpStore.LoadStepIdempotent | wadReader/src/doom_map.cpp:215-216 | loading the same entry twice is loading it once |
| LumpStore.StoredNameIsFinal | wadReader/src/doom_map.cpp:215-216 | once a name is stored no entry of that name replaces it: the first decode wins |
| LumpStore.LoadStepWellKeyed | wadReader/src/doom_map.cpp:218-228 | every stored lump keeps the class GetLump makes for its name |
| LumpStore.DecodeLumpKind | wadReader/src/doom_map.cpp:218-227 | a decoded lump has the class it was created as |
| LumpStore.LoadedFromNothing | wadReader/src/doom_map.cpp:130-131 | before the entry loop the store is loaded from no entries |
| LumpStore.LoadedVersion | wadReader/src/doom_map.cpp:222-225 | once GL_VERT has had its turn first, the loop never changes the version passed on |
| LumpStore.LoadedFromStep | wadReader/src/doom_map.cpp:130-131 | loading one more entry, in any order, extends the loaded store by that entry |
| LumpStore.LoadableInsert | wadReader/src/doom_map.cpp:130-131 | one more entry adds its name to the loadable names exactly when it is that name's lump |
| LumpStore.LoadedFromAdd | wadReader/src/doom_map.cpp:130-131 | a new loadable name is stored with its decode |
| LumpStore.LoadedFromSkip | wadReader/src/doom_map.cpp:130-131 | an entry that adds nothing leaves the store loaded |
| LumpStore.LoadedFromUnique | wadReader/src/doom_map.cpp:130-131 | the loaded store is determined whatever the iteration order |
| LumpStore.LevelLoadedUsesGLVertVersion | wadReader/src/doom_map.cpp:127-131 | when GL_VERT is new, every other new lump is decoded with the version sniffed from GL_VERT, and GL_VERT itself with 0 |
| LumpStore.LevelLoadedFrame | wadReader/src/doom_map.cpp:128-131 | the level's load adds exactly its loadable names and keeps every stored lump |
| LumpStore.LoadLevelLoaded | wadReader/src/doom_map.cpp:128-131 | LoadLevel is the one store the load describes |
| MapGrouping.IsMapLump | wadReader/src/doom_map.cpp:5-43 | a name is a map lump exactly when it is one of the ten classic names or starts with "GL_" |
| MapGrouping.GLNamesHavePrefix | wadReader/src/doom_map.cpp:28-39 | the five explicit GL names pass the prefix test |
| MapGrouping.Step | wadReader/src/doom_map.cpp:62-93 | one loop body: a marker closes an open level and opens one by its name; inside a level a map lump is stored by name and any other lump closes the level; outside a level a lump is skipped (StepLevels, MarkerEmits, LaterDuplicateWins and NonMapLumpCloses state this) |
| MapGrouping.Walk | wadReader/src/doom_map.cpp:57-94 | the loop state after the directory (WalkTracksMarker describes it by indices) |
| MapGrouping.Levels | wadReader/src/doom_map.cpp:55-94 | what `Levels` holds after the loop (LevelsAreWellFormed, ClosingIndicesSpec and NoFinalFlush describe it) |
| MapGrouping.WalkAppend | wadReader/src/doom_map.cpp:61-94 | the walk over one more entry is one more loop body |
| MapGrouping.StepLevels | wadReader/src/doom_map.cpp:63-91 | one body appends the open level exactly when the entry is a marker or a non-map lump, the loop is inside a level and the level holds a lump; otherwise it appends nothing |
| MapGrouping.MarkerEmits | wadReader/src/doom_map.cpp:63-75 | from any state inside a non-empty level, a marker appends exactly Level(name, current) and leaves the loop inside an empty level named by the marker |
| MapGrouping.MarkerEmitsOpenLevel | wadReader/src/doom_map.cpp:63-75 | for any directory whose open level is non-empty, one more marker appends that open level to Levels and opens an empty one by its name |
| MapGrouping.LaterDuplicateWins | wadReader/src/doom_map.cpp:80-83 | a later duplicate map lump overwrites the earlier one |
| MapGrouping.NonMapLumpCloses | wadReader/src/doom_map.cpp:84-91 | a non-map lump closes the level, and entries are ignored until the next marker |
| MapGrouping.ByNameSpec | wadReader/src/doom_map.cpp:82 | storing a span by name keeps every name of the span as a key, each key holding an entry of the span with that name; it is empty only for an empty span |
| MapGrouping.ByNameAppend | wadReader/src/doom_map.cpp:82 | one more lump is stored under its own name |
| MapGrouping.ByNameLastWins | wadReader/src/doom_map.cpp:82 | each name keeps the last entry of that name in the span |
| MapGrouping.ByNameWitness | wadReader/src/doom_map.cpp:82 | every stored entry has a position in the span |
| MapGrouping.LastMarkerBefore | wadReader/src/doom_map.cpp:63-74 | the index j of the last marker among the first n entries, or -1: es[j] is a marker and no later entry before n is one |
| MapGrouping.InLevelAtIff | wadReader/src/doom_map.cpp:58-91 | the loop is inside a level after n entries exactly when a marker has been seen and only map lumps follow the last one |
| MapGrouping.OpenLevelSpan | wadReader/src/doom_map.cpp:63-83 | the open level is named after the last marker es[j] and holds the last entry of each name after j |
| MapGrouping.OpenLevelByName | wadReader/src/doom_map.cpp:63-83 | the open level is named after the last marker before n and holds ByName of the entries after it |
| MapGrouping.WalkOpenLevel | wadReader/src/doom_map.cpp:61-94 | after every prefix the loop's flag, name and entries are the described open level, and nothing is collected outside a level |
| MapGrouping.WalkTracksMarker | wadReader/src/doom_map.cpp:61-94 | after n entries: inside a level exactly when a marker es[j] was seen with only map lumps after it; then the name is es[j]'s and the entries are the last of each name in es[j+1..n]; otherwise no entries |
| MapGrouping.LevelsStep | wadReader/src/doom_map.cpp:63-91 | entry n - 1 appends the open level exactly when it ends a non-empty open level, and nothing otherwise |
| MapGrouping.LevelsAreClosedSpans | wadReader/src/doom_map.cpp:61-94 | the levels of a prefix are, one for one and in order, the open levels just before its closing indices |
| MapGrouping.ClosingIndexEmits | wadReader/src/doom_map.cpp:63-91 | every closing index ends a non-empty open level |
| MapGrouping.EmittingIndexCloses | wadReader/src/doom_map.cpp:63-91 | every entry that ends a non-empty open level is a closing index |
| MapGrouping.ClosingIndicesSpec | wadReader/src/doom_map.cpp:61-94 | c is a closing index exactly when es[c] ends a non-empty open level; the closing indices increase strictly |
| MapGrouping.LevelsAreWellFormed | wadReader/src/doom_map.cpp:63-92 | level i is opened by the marker es[j] and closed by es[c], j < c, with only non-marker map lumps between; it is named after es[j], holds the last entry of each name in es[j+1..c], and is non-empty |
| MapGrouping.LevelIsClosedSpan | wadReader/src/doom_map.cpp:61-92 | level i is emitted at its closing index and equals the level open just before that index |
| MapGrouping.LevelEntriesAreMapLumps | wadReader/src/doom_map.cpp:80-83 | every lump of an emitted level is a directory entry and a map lump stored under its own name, never a marker |
| MapGrouping.LevelsInOrder | wadReader/src/doom_map.cpp:61-94 | levels come in directory order and do not overlap: a later level opens at or after the entry that closed an earlier one |
| MapGrouping.LumpStepInLevel | wadReader/src/doom_map.cpp:78-83 | a non-marker after which the loop is inside a level found it inside the same level and emitted nothing |
| MapGrouping.OpenLevelAddsNothing | wadReader/src/doom_map.cpp:78-83 | while the loop stays inside a level, the lumps after its marker add no level |
| MapGrouping.NoFinalFlush | wadReader/src/doom_map.cpp:61-95 | when the directory ends inside a level, every level was closed at or before that level's marker, so the open level is never emitted: Levels is what it was at the marker |
| MapGrouping.ClosingBeforeOpenMarker | wadReader/src/doom_map.cpp:61-92 | inside a level at the end of the directory, every closing index is at or before that level's marker |
| MapGrouping.LevelsAtMostMarkers | wadReader/src/doom_map.cpp:63-75 | emitted levels plus the open one never outnumber the markers |
| MapGrouping.LevelsOfPrefix | wadReader/src/doom_map.cpp:61-94 | the walk only appends: the levels of a prefix start the levels of the whole |
| Topology.Resize | wadReader/src/doom_map.cpp:146 | resize keeps the first n sectors and pads with empty ones |
| Topology.EdgeSector | wadReader/src/doom_map.cpp:156-184 | the sector of line L's front side, which receives both of its edges |
| Topology.SectorEdges | wadReader/src/doom_map.cpp:152-185 | reference definition: the edges of the lines before n filed under sector t, in line order (CacheLineEdgesPerSector proves the loop builds them; SectorEdgesMembers characterises them) |
| Topology.LineEdges | wadReader/src/doom_map.cpp:152-185 | a line has one edge per defined side, all for that line |
| Topology.AppendEdges | wadReader/src/doom_map.cpp:168 | a push_back into one sector keeps the number of sectors |
| Topology.AppendEdgesTwice | wadReader/src/doom_map.cpp:168-183 | two pushes into one sector are one append of both |
| Topology.AddLineEdges | wadReader/src/doom_map.cpp:154-184 | one loop body keeps the number of sectors |
| Topology.CacheLineEdges | wadReader/src/doom_map.cpp:152-185 | the edge loop keeps the number of sectors |
| Topology.SectorLineEdges | wadReader/src/doom_map.cpp:154-184 | the edges line L files under a sector belong to line L |
| Topology.AddLineEdgesAt | wadReader/src/doom_map.cpp:154-184 | one loop body appends line L's edges to sector t exactly when they are filed there |
| Topology.CacheLineEdgesPerSector | wadReader/src/doom_map.cpp:152-185 | the edge loop appends to each sector exactly its own edges in line order, and leaves its subsectors |
| Topology.CacheLineEdgesNone | wadReader/src/doom_map.cpp:152 | before any line the cache is unchanged |
| Topology.CacheLineEdgesStep | wadReader/src/doom_map.cpp:152-185 | each line extends every sector by its own edges |
| Topology.SectorEdgesMembers | wadReader/src/doom_map.cpp:152-185 | an edge is filed under sector t exactly when it is an edge of a visited line whose front side lies in t |
| Topology.SectorEdgesHas | wadReader/src/doom_map.cpp:152-185 | the same, for one edge |
| Topology.SectorEdgesSound | wadReader/src/doom_map.cpp:152-185 | every edge filed under t comes from a visited line whose front side lies in t |
| Topology.SectorEdgesComplete | wadReader/src/doom_map.cpp:152-185 | every edge of a visited line whose front side lies in t is filed under t |
| Topology.SectorLineEdgesHas | wadReader/src/doom_map.cpp:156-184 | line L files its edges under t exactly when its front side lies in t |
| Topology.SectorEdgesBound | wadReader/src/doom_map.cpp:152 | every filed edge comes from a visited line |
| Topology.SectorEdgesOrdered | wadReader/src/doom_map.cpp:152-185 | a sector's edges come in line order |
| Topology.BackEdgeInFrontSector | wadReader/src/doom_map.cpp:171-184 | the back edge of a two-sided line is filed under the front side's sector, with the front sidedef as Destination |
| Topology.EdgeCountAppend | wadReader/src/doom_map.cpp:168 | appending edges to one sector adds their number to the total |
| Topology.CacheLineEdgesCount | wadReader/src/doom_map.cpp:152-185 | the edge loop adds one edge per defined side |
| Topology.SegSide | wadReader/src/doom_map.cpp:193-195 | the side a subsector's first seg runs along: the back side when its Direction is non-zero, the front side otherwise |
| Topology.Owner | wadReader/src/doom_map.cpp:189-197 | the sector found through a subsector's first seg, its line and the side its Direction picks is a valid sector index |
| Topology.CacheSubSectors | wadReader/src/doom_map.cpp:187-200 | the subsector loop keeps the number of sectors |
| Topology.CacheSubSectorsPerSector | wadReader/src/doom_map.cpp:187-200 | the subsector loop appends to each sector exactly the subsectors it owns, and leaves its edges |
| Topology.OwnedSubSectorsSpec | wadReader/src/doom_map.cpp:187-200 | a sector lists exactly the subsectors it owns, each once, in ascending order |
| Topology.ClearLeafBit | wadReader/src/doom_map.cpp:101-105 | masking bit 15 leaves a value below 0x8000, drops 0x8000 from a leaf and keeps a non-leaf |
| Topology.LeafSet | wadReader/src/doom_map.cpp:97-123 | the subsector numbers FindLeafs(n) inserts, left leaves recorded from RightChild as written (LeafSetSound, LeafSetComplete) |
| Topology.ParsedChildren | wadReader/src/lump_types.cpp:170-173 | the child fields the parse leaves: 0 for every node, since the copy covers only the float fields |
| Topology.ParsedChildrenNeverEnd | wadReader/src/doom_map.cpp:97-123 | with the parsed children every node's right child is node 0, not a leaf, so the tree is not well founded and FindLeafs recurses forever |
| Topology.RecordChildren | wadReader/include/lump_types.h:226-227 | the evident child fields: the u16 at bytes 24 and 26 of a node record |
| Topology.RecordChildrenEncoded | wadReader/include/lump_types.h:219-227 | a record whose last four bytes encode two children reads them back, whatever its first 24 bytes |
| Topology.ReachableBelow | wadReader/src/doom_map.cpp:97-123 | every node reachable from node n has an index of at most n |
| Topology.LeafSetSound | wadReader/src/doom_map.cpp:97-123 | every recorded subsector is the masked right child of a node in the subtree that has a leaf child |
| Topology.LeafSetComplete | wadReader/src/doom_map.cpp:97-123 | every node in the subtree with a leaf child contributes its masked right child |
| Topology.LeftLeafRecordsRightChild | wadReader/src/doom_map.cpp:113-117 | a node with two leaf children records its right subsector only |
| DoomMap.LookUpPointers | wadReader/src/doom_map.cpp:133-144 | each typed pointer is the GetLump<T> lookup of its name |
| DoomMap.LevelMap.constructor | wadReader/include/doom_map.h:47-49 | a level refers to its archive, starts with no lumps, pointers, sectors or leaves |
| DoomMap.LevelMap.LoadLumpData | wadReader/src/doom_map.cpp:213-229 | the store after the call is LoadStep of the store before |
| DoomMap.LevelMap.GLVertVersion | wadReader/src/doom_map.cpp:222-225 | the version passed on is the stored GL_VERT lump's FormatVersion, or 0 |
| DoomMap.LevelMap.LoadLumps | wadReader/src/doom_map.cpp:128-131 | `Entries[GL_VERT]` is inserted if missing and the store becomes LoadLevel of the old one |
| DoomMap.LevelMap.LoadGLVertFirst | wadReader/src/doom_map.cpp:127-128 | GL_VERT is loaded first, settling the version for the rest |
| DoomMap.LevelMap.LoadEntries | wadReader/src/doom_map.cpp:130-131 | in any order, the loop loads every entry of the level |
| DoomMap.LevelMap.CacheEdges | wadReader/src/doom_map.cpp:152-185 | the edge loop leaves CacheLineEdges of the old cache |
| DoomMap.LevelMap.CacheEdgesOfLine | wadReader/src/doom_map.cpp:154-184 | one iteration pushes the line's edges, front first, into the front side's sector |
| DoomMap.LevelMap.CacheSubSectorOwners | wadReader/src/doom_map.cpp:187-200 | the subsector loop leaves CacheSubSectors of the old cache |
| DoomMap.LevelMap.FindLeafs | wadReader/src/doom_map.cpp:97-123 | the leaf set grows by exactly LeafSet of the subtree |
| DoomMap.LevelMap.Load | wadReader/src/doom_map.cpp:125-203 | the store is LoadLevel of the old one, the pointers are the lookups, the cache is resized then built, and the leaves of the root \|Nodes\| - 1 are added |
| DoomMap.LevelMap.LoadTopology | wadReader/src/doom_map.cpp:133-202 | after the loads: lookups, the built cache and the root's leaves |
| DoomMap.LevelMap.BuildSectorCache | wadReader/src/doom_map.cpp:146-200 | resize, edges, then subsectors, read through the typed pointers |
| DoomMap.WADFile.constructor | wadReader/include/doom_map.h:17-20 | an archive starts with no buffer, entries or levels |
| DoomMap.WADFile.Read | wadReader/src/doom_map.cpp:45-95 | the directory is stored and the levels are fresh level objects, one per level of the walk, each with an empty store |
| DoomMap.WADFile.GroupLevels | wadReader/src/doom_map.cpp:57-94 | the loop emits exactly the levels of the walk |
| DoomMap.WADFile.Emit | wadReader/src/doom_map.cpp:67-68 | push_back appends one fresh level and keeps the earlier ones |
| GameMap.GameLoadStep | game/src/doom_map.cpp:30-41 | the store after LoadLumpData(entry) (GameLoadStepFrame states it) |
| GameMap.GameLoadAll | game/src/doom_map.cpp:26-27 | the store after the loop of Read over the entries in order (GameLoadAllKeys, GameLoadAllKeeps, FirstOccurrenceWins) |
| GameMap.CacheMapStore | game/src/doom_map.cpp:45-48 | the store after the four inserting lookups of CacheMap (CacheMapStoreSpec) |
| GameMap.GameLoadStepFrame | game/src/doom_map.cpp:30-41 | a null entry, a stored name or an unknown name change nothing; otherwise exactly the name is added, decoded with version 0, and every other key is untouched |
| GameMap.GameLoadAllKeeps | game/src/doom_map.cpp:26-27 | what is stored stays stored unchanged |
| GameMap.GameLoadAllKeys | game/src/doom_map.cpp:26-27 | Read stores exactly the names stored before and the known lump names in the directory |
| GameMap.FirstOccurrenceWins | game/src/doom_map.cpp:26-33 | when a name occurs several times only its first occurrence is decoded |
| GameMap.GameLoadAllSuffix | game/src/doom_map.cpp:26-27 | the later entries keep a key an earlier prefix stored |
| GameMap.GameLoadAllStep | game/src/doom_map.cpp:26-27 | the fold over one more entry is one more LoadLumpData |
| GameMap.Subscript | game/src/doom_map.cpp:45-48 | `operator[]` inserts a null value for a missing name, returns the stored one otherwise, and keeps every other key |
| GameMap.CacheMapStoreSpec | game/src/doom_map.cpp:43-49 | CacheMap adds exactly the four cached names, null where they were missing |
| GameMap.CachedNameBlocksLoad | game/src/doom_map.cpp:32-48 | after CacheMap, loading one of the four names is a no-op even where it holds null |
| GameMap.DoomMap.constructor | game/include/doom_map.h:18-24 | a map starts with no entries, lumps or pointers |
| GameMap.DoomMap.LoadLumpData | game/src/doom_map.cpp:30-41 | the store after the call is GameLoadStep of the store before |
| GameMap.DoomMap.Read | game/src/doom_map.cpp:19-28 | the directory is stored and every entry is loaded in directory order |
| GameMap.DoomMap.LoadEntries | game/src/doom_map.cpp:26-27 | the loop folds LoadLumpData over the entries in order |
| GameMap.CacheMap | game/src/doom_map.cpp:43-49 | each pointer is `LumpDB[name]` after the inserting lookups |

## Findings

| source | as written | input that shows it | evidently intended | confidence | as-written member | corrected member |
|---|---|---|---|---|---|---|
| wadReader/src/lump_types.cpp:170-173 | `memcpy(&Contents[i], data + offset, Node::ReadSize)` fills the float fields at the start of `Node`; `RightChild` and `LeftChild` stay 0, so `FindLeafs(Nodes->Contents.size()-1)` (wadReader/src/doom_map.cpp:202) recurses into node 0 forever | any NODES lump with at least one 28-byte record | the children are the record's u16 fields at bytes 24 and 26 | not executed | Topology.ParsedChildrenNeverEnd | Topology.RecordChildrenEncoded |

## Left out

- File I/O: `LoadFileData`/`UnloadFileData` are replaced by a byte-sequence parameter. The buffer is required to be shorter than 2^31 bytes because the loader reports its size as a C `int`. `DoomMap::Read` of the game ignores its file name and opens a fixed path; the model takes the bytes.
- Floating point: the `MapScale` scaling, `Position`, `Angle`, `Floor`, `Ceiling`, `Offset` and the 16.16-to-float GL vertex conversion are not modelled. Records keep the raw integers. `LevelMap::GetVertex` only converts to floats and is not modelled.
- DoomMap.LevelMap.Load: the random sector tint (`GetRandomValue`) is not modelled, and `SectorInfo` carries no tint.
- DoomMap.LevelMap.FindLeafs: the node records are kept as 28 raw bytes. `NodesLump::Parse` copies them over the first 28 of the 48 bytes of float fields at the start of `Node`, so `RightChild` and `LeftChild` keep the 0 of `resize`, and `FindLeafs` of the root recurses into node 0 without end (`ParsedChildrenNeverEnd`). `Load` takes the child fields as a parameter holding the evident intent, the record's own fields at bytes 24 and 26 (`RecordChildren`, required by `LoadReady`); the code as written does not terminate.
- DoomMap.LevelMap.Load: every pointer it dereferences without a check, and every index it follows, is a precondition (`LoadReady`), and so is the node tree being well founded (children below their parent). The source relies on these and checks none of them.
- DoomMap.LevelMap.LoadEntries: the source iterates an unordered map. The model picks entries in an order it leaves open and proves the result does not depend on it.
- DoomMap.LevelMap.Load: the eleven typed pointers are grouped into one `LumpPointers` value rather than eleven fields. Each holds the stored lump rather than a pointer to it.
- DoomMap.LevelMap.constructor: the level's store and buffer are fields of the level itself. The code reads `LumpDB` and `BufferData` in `LevelMap` methods, but the header gives a level neither.
- `WADFile::LoadLumpData` and `LevelMap::CacheFlat` are declared but have no definition; they are not part of this model. Neither are `Flats` and `PalettesLump`, which nothing shown fills.
- `ThingsByType` is declared but never filled, and the `Visualize` callback of a lump belongs to the user interface; neither is modelled.
- Destructors and ownership: freeing the buffer and deleting lumps are not modelled.
- LumpTypes.DecodeGLSegs, LumpTypes.DecodeGLSubSectors: a version 3 stream shorter than its 4-byte magic makes the unsigned size wrap around and read far outside the lump. It is excluded by precondition (`GLStreamSafe`), as are all out-of-buffer reads.
- The point-in-sector query, patch and texture compositing, and the camera, rendering and UI code are outside the decoder core and are not part of this model.
