/**
 * The older lump store of game/src/doom_map.cpp: DoomMap::Read decodes every
 * directory entry in order into LumpDB, DoomMap::LoadLumpData memoises by
 * name and always parses with the default GL-vertex version 0, and CacheMap
 * reads four pointers through the inserting `operator[]`.
 *
 * LumpDB maps a name to a possibly null lump pointer: `operator[]` stores a
 * null value for a name that was missing.
 */
module GameMap {
  import opened Wrappers
  import opened Bytes
  import opened Reader
  import opened LumpTypes
  import LumpParse
  import opened LumpStore

  /** DoomMap::LumpDB; None is a stored null pointer. */
  type GameStore = map<string, Option<Lump>>

  /** The store after DoomMap::LoadLumpData(entry); None is a null entry pointer. */
  function GameLoadStep(db: GameStore, entry: Option<DirectoryEntry>, buffer: seq<byte>): GameStore
    requires entry.Some? ==> Decodable(buffer, entry.value)
  {
    if entry.None? || entry.value.name in db then db
    else match GetLump(entry.value.name)
      case None => db
      case Some(kind) =>
        db[entry.value.name := Some(DecodeLump(kind, buffer, entry.value.lumpOffset, entry.value.lumpSize, 0))]
  }

  /**
   * A null entry, a stored name or a name without a lump class change
   * nothing; otherwise exactly the entry's name is added, decoded with the
   * default version 0, and every other key keeps its value.
   */
  lemma GameLoadStepFrame(db: GameStore, entry: Option<DirectoryEntry>, buffer: seq<byte>)
    requires entry.Some? ==> Decodable(buffer, entry.value)
    ensures entry.None? ==> GameLoadStep(db, entry, buffer) == db
    ensures entry.Some? && (entry.value.name in db || GetLump(entry.value.name).None?) ==>
      GameLoadStep(db, entry, buffer) == db
    ensures entry.Some? && entry.value.name !in db && GetLump(entry.value.name).Some? ==>
      var r := GameLoadStep(db, entry, buffer);
      var e := entry.value;
      r.Keys == db.Keys + {e.name} &&
      r[e.name] == Some(DecodeLump(GetLump(e.name).value, buffer, e.lumpOffset, e.lumpSize, 0)) &&
      forall k :: k in db ==> r[k] == db[k]
  {
  }

  predicate AllEntriesDecodable(buffer: seq<byte>, es: seq<DirectoryEntry>) {
    forall i :: 0 <= i < |es| ==> Decodable(buffer, es[i])
  }

  /** The store after the loop of DoomMap::Read has loaded the entries es, in order. */
  function GameLoadAll(db: GameStore, es: seq<DirectoryEntry>, buffer: seq<byte>): GameStore
    requires AllEntriesDecodable(buffer, es)
    decreases |es|
  {
    if es == [] then db
    else GameLoadStep(GameLoadAll(db, es[..|es| - 1], buffer), Some(es[|es| - 1]), buffer)
  }

  /** What is stored stays stored: loading more entries never changes a key's value. */
  lemma {:induction false} GameLoadAllKeeps(db: GameStore, es: seq<DirectoryEntry>, buffer: seq<byte>, k: string)
    requires AllEntriesDecodable(buffer, es) && k in db
    ensures k in GameLoadAll(db, es, buffer) && GameLoadAll(db, es, buffer)[k] == db[k]
    decreases |es|
  {
    if es != [] {
      GameLoadAllKeeps(db, es[..|es| - 1], buffer, k);
    }
  }

  /** The names Read stores are those already stored and those of known lumps in the directory. */
  lemma {:induction false} GameLoadAllKeys(db: GameStore, es: seq<DirectoryEntry>, buffer: seq<byte>, k: string)
    requires AllEntriesDecodable(buffer, es)
    ensures k in GameLoadAll(db, es, buffer) <==>
      k in db || (GetLump(k).Some? && exists j :: 0 <= j < |es| && es[j].name == k)
    decreases |es|
  {
    if es != [] {
      var prefix, e := es[..|es| - 1], es[|es| - 1];
      GameLoadAllKeys(db, prefix, buffer, k);
      if GetLump(k).Some? && (exists j :: 0 <= j < |es| && es[j].name == k) {
        var j :| 0 <= j < |es| && es[j].name == k;
        if j < |es| - 1 {
          assert prefix[j] == es[j];
        }
      }
      if exists j :: 0 <= j < |prefix| && prefix[j].name == k {
        var j :| 0 <= j < |prefix| && prefix[j].name == k;
        assert es[j] == prefix[j];
      }
    }
  }

  /**
   * When a name occurs several times in the directory, the store holds the
   * decode of its first occurrence (with version 0).
   */
  lemma {:induction false} FirstOccurrenceWins(db: GameStore, es: seq<DirectoryEntry>, buffer: seq<byte>, i: nat)
    requires AllEntriesDecodable(buffer, es) && i < |es|
    requires es[i].name !in db && GetLump(es[i].name).Some?
    requires forall j :: 0 <= j < i ==> es[j].name != es[i].name
    ensures es[i].name in GameLoadAll(db, es, buffer)
    ensures GameLoadAll(db, es, buffer)[es[i].name] ==
      Some(DecodeLump(GetLump(es[i].name).value, buffer, es[i].lumpOffset, es[i].lumpSize, 0))
  {
    var k := es[i].name;
    var before := GameLoadAll(db, es[..i], buffer);
    GameLoadAllKeys(db, es[..i], buffer, k);
    assert k !in before;
    var after := GameLoadAll(db, es[..i + 1], buffer);
    assert es[..i + 1][..i] == es[..i];
    assert after == GameLoadStep(before, Some(es[i]), buffer);
    GameLoadAllSuffix(after, db, es, buffer, i + 1, k);
  }

  /** Loading the rest of the entries keeps a key the first i + 1 entries stored. */
  lemma {:induction false} GameLoadAllSuffix(mid: GameStore, db: GameStore, es: seq<DirectoryEntry>, buffer: seq<byte>,
                                             n: nat, k: string)
    requires AllEntriesDecodable(buffer, es) && n <= |es|
    requires mid == GameLoadAll(db, es[..n], buffer) && k in mid
    ensures k in GameLoadAll(db, es, buffer) && GameLoadAll(db, es, buffer)[k] == mid[k]
    decreases |es| - n
  {
    if n == |es| {
      assert es[..n] == es;
    } else {
      var next := GameLoadAll(db, es[..n + 1], buffer);
      assert es[..n + 1][..n] == es[..n];
      assert next == GameLoadStep(mid, Some(es[n]), buffer);
      GameLoadAllSuffix(next, db, es, buffer, n + 1, k);
    }
  }

  /** `LumpDB[name]`: the stored value, after inserting a null one for a missing name. */
  function Subscript(db: GameStore, name: string): (r: (GameStore, Option<Lump>))
    ensures r.0.Keys == db.Keys + {name} && r.1 == r.0[name]
    ensures forall k :: k in db ==> r.0[k] == db[k]
    ensures name !in db ==> r.1.None?
  {
    if name in db then (db, db[name]) else (db[name := None], None)
  }

  /** The four pointers CacheMap reads. */
  const CachedNames: set<string> := {VERTEXES, LINEDEFS, SECTORS, THINGS}

  /** The store after CacheMap: the four names are keys, a missing one holding null. */
  function CacheMapStore(db: GameStore): GameStore {
    Subscript(Subscript(Subscript(Subscript(db, VERTEXES).0, LINEDEFS).0, SECTORS).0, THINGS).0
  }

  /** CacheMap adds exactly the four cached names, null where they were missing. */
  lemma CacheMapStoreSpec(db: GameStore)
    ensures CacheMapStore(db).Keys == db.Keys + CachedNames
    ensures forall k :: k in db ==> CacheMapStore(db)[k] == db[k]
    ensures forall k :: k in CachedNames && k !in db ==> CacheMapStore(db)[k].None?
  {
  }

  /** After CacheMap, loading one of the four names is a no-op, even where it holds null. */
  lemma CachedNameBlocksLoad(db: GameStore, e: DirectoryEntry, buffer: seq<byte>)
    requires Decodable(buffer, e) && e.name in CachedNames
    ensures GameLoadStep(CacheMapStore(db), Some(e), buffer) == CacheMapStore(db)
    ensures e.name !in db ==> CacheMapStore(db)[e.name].None?
  {
    CacheMapStoreSpec(db);
  }

  class DoomMap {
    var entries: seq<DirectoryEntry>
    var lumpDB: GameStore

    var verts: Option<Lump>
    var lines: Option<Lump>
    var things: Option<Lump>
    var sectors: Option<Lump>

    var bufferData: seq<byte>

    constructor ()
      ensures entries == [] && lumpDB == map[] && bufferData == []
      ensures verts.None? && lines.None? && things.None? && sectors.None?
    {
      entries := [];
      lumpDB := map[];
      verts, lines, things, sectors := None, None, None, None;
      bufferData := [];
    }

    /** DoomMap::LoadLumpData: decode with the default version 0 unless null, stored or unknown. */
    method LoadLumpData(entry: Option<DirectoryEntry>)
      requires entry.Some? ==> Decodable(bufferData, entry.value)
      modifies this`lumpDB
      ensures lumpDB == GameLoadStep(old(lumpDB), entry, bufferData)
    {
      if entry.None? || entry.value.name in lumpDB {
        return;
      }
      var kind := LumpTypes.GetLump(entry.value.name);
      if kind.None? {
        return;
      }
      var lump := LumpParse.ParseLump(kind.value, bufferData, entry.value.lumpOffset, entry.value.lumpSize, 0);
      lumpDB := lumpDB[entry.value.name := Some(lump)];
    }

    /**
     * DoomMap::Read on the bytes of the file: the directory, then every
     * entry loaded in directory order into the existing store.
     */
    method Read(buffer: seq<byte>)
      requires DirectoryFits(buffer) && AllEntriesDecodable(buffer, Directory(buffer))
      modifies this`bufferData, this`entries, this`lumpDB
      ensures bufferData == buffer && entries == Directory(buffer)
      ensures lumpDB == GameLoadAll(old(lumpDB), entries, buffer)
    {
      bufferData := buffer;
      entries := ReadDirectoryEntries(buffer);
      LoadEntries();
    }

    /** The loop of DoomMap::Read: LoadLumpData on every directory entry, in order. */
    method LoadEntries()
      requires AllEntriesDecodable(bufferData, entries)
      modifies this`lumpDB
      ensures lumpDB == GameLoadAll(old(lumpDB), entries, bufferData)
    {
      var i := 0;
      while i < |entries|
        invariant 0 <= i <= |entries|
        invariant lumpDB == GameLoadAll(old(lumpDB), entries[..i], bufferData)
      {
        GameLoadAllStep(old(lumpDB), entries, bufferData, i);
        LoadLumpData(Some(entries[i]));
        i := i + 1;
      }
      assert entries[..i] == entries;
    }
  }

  /** One more entry: the fold over the first i + 1 entries is one step after the fold over the first i. */
  lemma GameLoadAllStep(db: GameStore, es: seq<DirectoryEntry>, buffer: seq<byte>, i: nat)
    requires AllEntriesDecodable(buffer, es) && i < |es|
    ensures AllEntriesDecodable(buffer, es[..i]) && AllEntriesDecodable(buffer, es[..i + 1])
    ensures GameLoadAll(db, es[..i + 1], buffer) == GameLoadStep(GameLoadAll(db, es[..i], buffer), Some(es[i]), buffer)
  {
    assert es[..i + 1][..i] == es[..i];
  }

  /** CacheMap: the four pointers read through the inserting `operator[]`. */
  method CacheMap(m: DoomMap)
    modifies m`lumpDB, m`verts, m`lines, m`sectors, m`things
    ensures m.lumpDB == CacheMapStore(old(m.lumpDB))
    ensures m.verts == m.lumpDB[VERTEXES] && m.lines == m.lumpDB[LINEDEFS]
    ensures m.sectors == m.lumpDB[SECTORS] && m.things == m.lumpDB[THINGS]
  {
    var r := Subscript(m.lumpDB, VERTEXES);
    m.verts := r.1;
    r := Subscript(r.0, LINEDEFS);
    m.lines := r.1;
    r := Subscript(r.0, SECTORS);
    m.sectors := r.1;
    r := Subscript(r.0, THINGS);
    m.things := r.1;
    m.lumpDB := r.0;
  }
}
