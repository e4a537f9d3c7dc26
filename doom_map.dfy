/**
 * The WADFile and LevelMap classes of wadReader/include/doom_map.h with the
 * methods of wadReader/src/doom_map.cpp.
 *
 * WADFile::Read reads the directory and groups it into levels; each level
 * holds its lumps by name and its own memoised store of decoded lumps.
 * LevelMap::Load decodes the level's lumps (GL_VERT first), caches typed
 * lookups of the lumps it uses, builds the per-sector edge and subsector
 * lists and collects the leaf subsectors of the node tree.
 *
 * The directory is an ordered sequence of entries and a level's entries a
 * map keyed by name, as the code means them (its declarations disagree).
 */
module DoomMap {
  import opened Wrappers
  import opened Bytes
  import opened Reader
  import opened LumpTypes
  import LumpParse
  import opened MapGrouping
  import opened LumpStore
  import opened Topology

  /**
   * What Load dereferences without a check: the lumps it indexes are
   * stored with their classes, every index it follows is in range, and the
   * node tree has a root and is well founded.  The children are those each
   * NODES record holds (RecordChildren): the evident intent, since the
   * parse as written leaves every child 0 (ParsedChildrenNeverEnd).
   */
  predicate LoadReady(db: Store, children: seq<NodeChildren>) {
    SECTORS in db && db[SECTORS].SectorsLump? &&
    LINEDEFS in db && db[LINEDEFS].LineDefsLump? &&
    SIDEDEFS in db && db[SIDEDEFS].SideDefsLump? &&
    GL_SEGS in db && db[GL_SEGS].GLSegsLump? &&
    GL_SSECT in db && db[GL_SSECT].GLSubSectorsLump? &&
    NODES in db && db[NODES].NodesLump? &&
    LinesSafe(db[LINEDEFS].lineDefs, db[SIDEDEFS].sideDefs, |db[SECTORS].sectors|) &&
    SubSectorsSafe(db[GL_SSECT].glSubSectors, db[GL_SEGS].glSegs, db[LINEDEFS].lineDefs,
                   db[SIDEDEFS].sideDefs, |db[SECTORS].sectors|) &&
    |children| == |db[NODES].nodes| && 0 < |children| && ValidTree(children) &&
    forall i :: 0 <= i < |children| ==>
      |db[NODES].nodes[i].raw| == NodeReadSize && children[i] == RecordChildren(db[NODES].nodes[i].raw)
  }

  /** The sector cache Load builds from a loaded store: resize, then edges, then subsectors. */
  function BuiltCache(cache: seq<SectorInfo>, db: Store, children: seq<NodeChildren>): seq<SectorInfo>
    requires LoadReady(db, children)
  {
    var lines := db[LINEDEFS].lineDefs;
    var sides := db[SIDEDEFS].sideDefs;
    var resized := Resize(cache, |db[SECTORS].sectors|);
    CacheSubSectors(CacheLineEdges(resized, lines, sides, |lines|),
                    db[GL_SSECT].glSubSectors, db[GL_SEGS].glSegs, lines, sides, |db[GL_SSECT].glSubSectors|)
  }

  /** The eleven typed lump pointers of a LevelMap (Verts, Lines, ..., GLSubSectors). */
  datatype LumpPointers = LumpPointers(
    verts: Option<Lump>, lines: Option<Lump>, things: Option<Lump>, sectors: Option<Lump>,
    sides: Option<Lump>, segs: Option<Lump>, subsectors: Option<Lump>, nodes: Option<Lump>,
    glVerts: Option<Lump>, glSegs: Option<Lump>, glSubSectors: Option<Lump>)

  /** Every pointer null, as a LevelMap starts. */
  const NoPointers: LumpPointers := LumpPointers(None, None, None, None, None, None, None, None, None, None, None)

  /** The `GetLump<T>` lookups of Load, one per pointer. */
  function LookUpPointers(db: Store): LumpPointers {
    LumpPointers(
      Find(db, VERTEXES), Find(db, LINEDEFS), Find(db, THINGS), Find(db, SECTORS),
      Find(db, SIDEDEFS), Find(db, SEGS), Find(db, SSECTORS), Find(db, NODES),
      Find(db, GL_VERT), Find(db, GL_SEGS), Find(db, GL_SSECT))
  }

  class LevelMap {
    /** The non-owning reference to the archive the level came from. */
    const source: WADFile
    const name: string
    var entries: map<string, DirectoryEntry>
    const bufferData: seq<byte>

    var lumpDB: Store

    /** Verts, Lines, ..., GLSubSectors: null until Load sets them. */
    var pointers: LumpPointers

    var sectorCache: seq<SectorInfo>
    var leafNodes: set<nat>

    constructor (source: WADFile, name: string, entries: map<string, DirectoryEntry>, bufferData: seq<byte>)
      ensures this.source == source && this.name == name && this.entries == entries && this.bufferData == bufferData
      ensures lumpDB == map[] && sectorCache == [] && leafNodes == {}
      ensures pointers == NoPointers
    {
      this.source := source;
      this.name := name;
      this.entries := entries;
      this.bufferData := bufferData;
      lumpDB := map[];
      pointers := NoPointers;
      sectorCache := [];
      leafNodes := {};
    }

    /** Decode an entry into the store unless its name is stored already or has no lump class. */
    method LoadLumpData(entry: DirectoryEntry)
      requires WellKeyed(lumpDB) && Decodable(bufferData, entry)
      modifies this`lumpDB
      ensures lumpDB == LoadStep(old(lumpDB), entry, bufferData)
    {
      if entry.name in lumpDB {
        return;
      }
      var kind := LumpTypes.GetLump(entry.name);
      if kind.None? {
        return;
      }
      var version := GLVertVersion();
      var lump := LumpParse.ParseLump(kind.value, bufferData, entry.lumpOffset, entry.lumpSize, version);
      lumpDB := lumpDB[entry.name := lump];
    }

    /** The GL_VERT lump's FormatVersion when the store holds one, else 0. */
    method GLVertVersion() returns (version: int)
      requires WellKeyed(lumpDB)
      ensures version == VersionOf(lumpDB)
    {
      version := 0;
      if GL_VERT in lumpDB {
        assert KindOf(lumpDB[GL_VERT]) == GLVertsKind;
        version := lumpDB[GL_VERT].formatVersion;
      }
    }

    /**
     * The loading half of Load: `Entries[GL_VERT]` (inserting a default
     * entry when the level has none) is loaded first, then every entry in
     * the map's unspecified order.
     */
    method LoadLumps()
      requires WellKeyed(lumpDB) && WellNamed(entries) && AllDecodable(bufferData, entries)
      modifies this`entries, this`lumpDB
      ensures entries == WithGLVert(old(entries))
      ensures lumpDB == LoadLevel(old(lumpDB), old(entries), bufferData)
      ensures WellKeyed(lumpDB)
    {
      ghost var db0, e0 := lumpDB, entries;
      LoadGLVertFirst();
      LoadEntries();
      assert LevelLoaded(lumpDB, db0, e0, bufferData);
      LoadLevelLoaded(lumpDB, db0, e0, bufferData);
    }

    /** `LoadLumpData(Entries[GL_VERT])`, where operator[] inserts a default entry. */
    method LoadGLVertFirst()
      requires WellKeyed(lumpDB) && WellNamed(entries) && AllDecodable(bufferData, entries)
      modifies this`entries, this`lumpDB
      ensures entries == WithGLVert(old(entries))
      ensures lumpDB == LoadGLVert(old(lumpDB), old(entries), bufferData)
      ensures WellKeyed(lumpDB) && WellNamed(entries) && AllDecodable(bufferData, entries)
      ensures VersionSettled(lumpDB, entries)
    {
      if GL_VERT !in entries {
        entries := entries[GL_VERT := DefaultEntry];
      }
      assert Decodable(bufferData, entries[GL_VERT]);
      LoadStepWellKeyed(lumpDB, entries[GL_VERT], bufferData);
      LoadLumpData(entries[GL_VERT]);
      assert GL_VERT in Loadable(entries) ==> GL_VERT in lumpDB;
    }

    /** The loop over every entry, in an order the model leaves open. */
    method LoadEntries()
      requires WellKeyed(lumpDB) && WellNamed(entries) && AllDecodable(bufferData, entries)
      requires VersionSettled(lumpDB, entries)
      modifies this`lumpDB
      ensures LoadedFrom(lumpDB, old(lumpDB), entries, bufferData) && WellKeyed(lumpDB)
    {
      ghost var start := lumpDB;
      var pending := entries.Keys;
      ghost var done: map<string, DirectoryEntry> := map[];
      LoadedFromNothing(start, bufferData);
      while pending != {}
        invariant pending <= entries.Keys
        invariant done.Keys == entries.Keys - pending
        invariant forall k :: k in done ==> done[k] == entries[k]
        invariant AllDecodable(bufferData, done)
        invariant LoadedFrom(lumpDB, start, done, bufferData)
        invariant WellKeyed(lumpDB)
        decreases pending
      {
        var k :| k in pending;
        var entry := entries[k];
        assert Loadable(done[k := entry]) <= Loadable(entries);
        LoadedFromStep(lumpDB, start, done, k, entry, bufferData);
        LoadStepWellKeyed(lumpDB, entry, bufferData);
        LoadLumpData(entry);
        done := done[k := entry];
        pending := pending - {k};
      }
      assert done == entries;
    }

    /** The edge loop of Load over the lines in index order. */
    method CacheEdges(lineDefs: seq<LineDef>, sideDefs: seq<SideDef>)
      requires LinesSafe(lineDefs, sideDefs, |sectorCache|)
      modifies this`sectorCache
      ensures sectorCache == CacheLineEdges(old(sectorCache), lineDefs, sideDefs, |lineDefs|)
    {
      var lineIndex := 0;
      while lineIndex < |lineDefs|
        invariant 0 <= lineIndex <= |lineDefs|
        invariant sectorCache == CacheLineEdges(old(sectorCache), lineDefs, sideDefs, lineIndex)
      {
        CacheEdgesOfLine(lineDefs, sideDefs, lineIndex);
        lineIndex := lineIndex + 1;
      }
    }

    /** One iteration of the edge loop: the edges of line lineIndex, front side first. */
    method CacheEdgesOfLine(lineDefs: seq<LineDef>, sideDefs: seq<SideDef>, lineIndex: nat)
      requires LinesSafe(lineDefs, sideDefs, |sectorCache|) && lineIndex < |lineDefs|
      modifies this`sectorCache
      ensures sectorCache == AddLineEdges(old(sectorCache), lineDefs, sideDefs, lineIndex)
    {
      ghost var pushed: seq<Edge> := [];
      var line := lineDefs[lineIndex];
      if line.frontSideDef != InvalidSideDefIndex {
        var side := sideDefs[line.frontSideDef];
        var edge := Edge(lineIndex, false, line.frontSideDef, line.backSideDef);
        sectorCache := sectorCache[side.sectorId := sectorCache[side.sectorId].(edges := sectorCache[side.sectorId].edges + [edge])];
        pushed := [edge];
      }
      assert pushed != [] ==> sectorCache == AppendEdges(old(sectorCache), EdgeSector(lineDefs, sideDefs, lineIndex), pushed);
      if line.backSideDef != InvalidSideDefIndex {
        // as written: the back edge is filed under the FRONT side's sector
        var side := sideDefs[line.frontSideDef];
        // as written: Destination receives a sidedef index
        var edge := Edge(lineIndex, true, line.backSideDef, line.frontSideDef);
        sectorCache := sectorCache[side.sectorId := sectorCache[side.sectorId].(edges := sectorCache[side.sectorId].edges + [edge])];
        if pushed != [] {
          AppendEdgesTwice(old(sectorCache), side.sectorId as nat, pushed, [edge]);
        } else {
          assert pushed + [edge] == [edge];
        }
        pushed := pushed + [edge];
      }
      assert pushed == LineEdges(lineDefs, lineIndex);
    }

    /** The subsector loop of Load: each GL subsector goes to the sector of its first seg's side. */
    method CacheSubSectorOwners(subs: seq<GLSubSector>, segList: seq<GLSeg>, lineDefs: seq<LineDef>, sideDefs: seq<SideDef>)
      requires SubSectorsSafe(subs, segList, lineDefs, sideDefs, |sectorCache|)
      modifies this`sectorCache
      ensures sectorCache == CacheSubSectors(old(sectorCache), subs, segList, lineDefs, sideDefs, |subs|)
    {
      var subSectorId := 0;
      while subSectorId < |subs|
        invariant 0 <= subSectorId <= |subs|
        invariant |sectorCache| == |old(sectorCache)|
        invariant sectorCache == CacheSubSectors(old(sectorCache), subs, segList, lineDefs, sideDefs, subSectorId)
      {
        var subsector := subs[subSectorId];
        var firstSeg := segList[subsector.startSegment];
        var line := lineDefs[firstSeg.lineIndex];
        var side: nat := line.frontSideDef;
        if firstSeg.direction != 0 {
          side := line.backSideDef;
        }
        var sector := sideDefs[side].sectorId;
        sectorCache := sectorCache[sector := sectorCache[sector].(subSectors := sectorCache[sector].subSectors + [subSectorId])];
        subSectorId := subSectorId + 1;
      }
    }

    /**
     * Insert the leaf subsectors of the subtree at nodeId, right child
     * first.  `tree` holds the child fields of the node records.
     */
    method FindLeafs(tree: seq<NodeChildren>, nodeId: nat)
      requires ValidTree(tree) && nodeId < |tree|
      modifies this`leafNodes
      ensures leafNodes == old(leafNodes) + LeafSet(tree, nodeId)
      decreases nodeId
    {
      var node := tree[nodeId];
      if IsLeaf(node.right) {
        var subsector := ClearLeafBit(node.right);
        leafNodes := leafNodes + {subsector as nat};
      } else {
        FindLeafs(tree, node.right);
      }
      if IsLeaf(node.left) {
        // as written: the left leaf is masked from the RIGHT child
        var subsector := ClearLeafBit(node.right);
        leafNodes := leafNodes + {subsector as nat};
      } else {
        FindLeafs(tree, node.left);
      }
    }

    /**
     * LevelMap::Load, without the random sector tints.  `children` holds
     * the child fields of the NODES records as the format defines them
     * (see LoadReady).
     */
    method Load(children: seq<NodeChildren>)
      requires WellKeyed(lumpDB) && WellNamed(entries) && AllDecodable(bufferData, entries)
      requires LoadReady(LoadLevel(lumpDB, entries, bufferData), children)
      modifies this`entries, this`lumpDB, this`sectorCache, this`leafNodes
      modifies this`pointers
      ensures entries == WithGLVert(old(entries))
      ensures lumpDB == LoadLevel(old(lumpDB), old(entries), bufferData) && LoadReady(lumpDB, children)
      ensures pointers == LookUpPointers(lumpDB)
      ensures sectorCache == BuiltCache(old(sectorCache), lumpDB, children)
      ensures leafNodes == old(leafNodes) + LeafSet(children, |children| - 1)
    {
      LoadLumps();
      LoadTopology(children);
    }

    /** The part of Load after the loads: the typed lookups, the sector cache and the leaf walk. */
    method LoadTopology(children: seq<NodeChildren>)
      requires LoadReady(lumpDB, children)
      modifies this`sectorCache, this`leafNodes
      modifies this`pointers
      ensures pointers == LookUpPointers(lumpDB)
      ensures sectorCache == BuiltCache(old(sectorCache), lumpDB, children)
      ensures leafNodes == old(leafNodes) + LeafSet(children, |children| - 1)
    {
      pointers := LookUpPointers(lumpDB);
      BuildSectorCache(children);
      FindLeafs(children, |pointers.nodes.value.nodes| - 1);
    }

    /** The resize, edge loop and subsector loop of Load, read through the typed pointers. */
    method BuildSectorCache(children: seq<NodeChildren>)
      requires pointers == LookUpPointers(lumpDB) && LoadReady(lumpDB, children)
      modifies this`sectorCache
      ensures sectorCache == BuiltCache(old(sectorCache), lumpDB, children)
    {
      var lineDefs := pointers.lines.value.lineDefs;
      var sideDefs := pointers.sides.value.sideDefs;
      sectorCache := Resize(sectorCache, |pointers.sectors.value.sectors|);
      CacheEdges(lineDefs, sideDefs);
      CacheSubSectorOwners(pointers.glSubSectors.value.glSubSectors, pointers.glSegs.value.glSegs, lineDefs, sideDefs);
    }
  }

  /** The level objects hold the grouped levels, each fresh from the walk, with an empty store. */
  ghost predicate Emitted(wad: WADFile, levels: seq<LevelMap>, grouped: seq<Level>, buffer: seq<byte>)
    reads levels
  {
    |levels| == |grouped| &&
    forall j :: 0 <= j < |levels| ==>
      levels[j].name == grouped[j].name && levels[j].entries == grouped[j].entries &&
      levels[j].source == wad && levels[j].bufferData == buffer && levels[j].lumpDB == map[]
  }

  class WADFile {
    var bufferData: seq<byte>
    var entries: seq<DirectoryEntry>
    var levels: seq<LevelMap>

    constructor ()
      ensures bufferData == [] && entries == [] && levels == []
    {
      bufferData := [];
      entries := [];
      levels := [];
    }

    /**
     * WADFile::Read on the bytes of the file: the directory, then the walk
     * that groups it into levels.  Each emitted level is a new LevelMap
     * with the grouped entries and an empty store.
     */
    method Read(buffer: seq<byte>)
      requires DirectoryFits(buffer)
      modifies this
      ensures bufferData == buffer && entries == Directory(buffer)
      ensures Emitted(this, levels, Levels(entries), buffer)
      ensures forall j :: 0 <= j < |levels| ==> fresh(levels[j])
    {
      bufferData := buffer;
      entries := ReadDirectoryEntries(buffer);
      levels := [];
      GroupLevels();
    }

    /** The loop of WADFile::Read over the directory. */
    method GroupLevels()
      modifies this`levels
      requires levels == []
      ensures Emitted(this, levels, Levels(entries), bufferData)
      ensures forall j :: 0 <= j < |levels| ==> fresh(levels[j])
    {
      var inMap := false;
      var name: string := "";
      var current: map<string, DirectoryEntry> := map[];
      var i := 0;
      while i < |entries|
        invariant 0 <= i <= |entries|
        invariant Walk(entries[..i]) == Walker(Walk(entries[..i]).levels, inMap, name, current)
        invariant Emitted(this, levels, Walk(entries[..i]).levels, bufferData)
        invariant forall j :: 0 <= j < |levels| ==> fresh(levels[j])
      {
        var entry := entries[i];
        ghost var w := Walk(entries[..i]);
        WalkAppend(entries[..i], entry);
        assert entries[..i + 1] == entries[..i] + [entry];
        if entry.lumpSize == 0 {
          if inMap {
            if |current| > 0 {
              Emit(name, current, w.levels);
            }
            name := "";
            current := map[];
          }
          name := entry.name;
          inMap := true;
        } else if inMap {
          if IsMapLump(entry.name) {
            current := current[entry.name := entry];
          } else {
            if |current| > 0 {
              Emit(name, current, w.levels);
            }
            name := "";
            current := map[];
            inMap := false;
          }
        }
        i := i + 1;
      }
      // as written: a level still open here is not emitted
      assert entries[..i] == entries;
    }

    /** `Levels.push_back(map)`: a copy of the open level joins the list. */
    method Emit(name: string, current: map<string, DirectoryEntry>, ghost grouped: seq<Level>)
      requires Emitted(this, levels, grouped, bufferData)
      modifies this`levels
      ensures Emitted(this, levels, grouped + [Level(name, current)], bufferData)
      ensures |levels| == |old(levels)| + 1 && levels[..|old(levels)|] == old(levels)
      ensures fresh(levels[|old(levels)|])
    {
      var level := new LevelMap(this, name, current, bufferData);
      levels := levels + [level];
    }
  }
}
