/**
 * The memoised lump store of a level (LumpDB, LoadLumpData and GetLump<T>
 * of wadReader/src/doom_map.cpp and wadReader/include/doom_map.h), as
 * functions on the store; the LevelMap class of DoomMap updates its store
 * field by exactly these functions.
 *
 * A name maps to its decoded lump, and a name is decoded at most once:
 * loading an entry whose name is already stored, or whose name has no lump
 * class, changes nothing.  The GL_VERT lump's format version, when that lump
 * is stored, is passed to every later decode.
 */
module LumpStore {
  import opened Wrappers
  import opened Bytes
  import opened Reader
  import opened LumpTypes

  type Store = map<string, Lump>

  /** GetLump<T>: the stored lump, or None (the null pointer); it never inserts. */
  function Find(db: Store, name: string): (r: Option<Lump>)
    ensures r.Some? <==> name in db
    ensures r.Some? ==> r.value == db[name]
  {
    if name in db then Some(db[name]) else None
  }

  /** Every stored lump has the class GetLump creates for its name. */
  predicate WellKeyed(db: Store) {
    forall k :: k in db ==> GetLump(k) == Some(KindOf(db[k]))
  }

  /** The version LoadLumpData passes on: GL_VERT's FormatVersion, or 0 when it is absent. */
  function VersionOf(db: Store): int {
    if GL_VERT in db && db[GL_VERT].GLVertsLump? then db[GL_VERT].formatVersion else 0
  }

  /** The bytes an entry's decoder reads lie inside the buffer (no read is checked). */
  predicate Decodable(buffer: seq<byte>, e: DirectoryEntry) {
    GetLump(e.name).Some? ==> ParseSafe(GetLump(e.name).value, buffer, e.lumpOffset, e.lumpSize)
  }

  /** The lump decoded from an entry whose name GetLump knows, with GL_VERT version v. */
  function EntryLump(buffer: seq<byte>, e: DirectoryEntry, v: int): Lump
    requires Decodable(buffer, e) && GetLump(e.name).Some?
  {
    DecodeLump(GetLump(e.name).value, buffer, e.lumpOffset, e.lumpSize, v)
  }

  /** The store after LoadLumpData(e). */
  function LoadStep(db: Store, e: DirectoryEntry, buffer: seq<byte>): Store
    requires Decodable(buffer, e)
  {
    if e.name in db then db
    else match GetLump(e.name)
      case None => db
      case Some(_) => db[e.name := EntryLump(buffer, e, VersionOf(db))]
  }

  /**
   * LoadLumpData touches only the entry's own name: every other key keeps
   * its lump, the entry's name gains a lump exactly when it was absent and
   * names a lump class, and that lump is decoded with the stored GL_VERT
   * version.
   */
  lemma LoadStepFrame(db: Store, e: DirectoryEntry, buffer: seq<byte>)
    requires Decodable(buffer, e)
    ensures forall k :: k != e.name ==> (k in LoadStep(db, e, buffer) <==> k in db)
    ensures forall k :: k != e.name && k in db ==> LoadStep(db, e, buffer)[k] == db[k]
    ensures e.name in LoadStep(db, e, buffer) <==> e.name in db || GetLump(e.name).Some?
    ensures e.name in db ==> LoadStep(db, e, buffer)[e.name] == db[e.name]
    ensures e.name !in db && GetLump(e.name).Some? ==>
      LoadStep(db, e, buffer)[e.name] ==
        DecodeLump(GetLump(e.name).value, buffer, e.lumpOffset, e.lumpSize, VersionOf(db))
  {
  }

  /** A second load of the same entry is a no-op. */
  lemma LoadStepIdempotent(db: Store, e: DirectoryEntry, buffer: seq<byte>)
    requires Decodable(buffer, e)
    ensures LoadStep(LoadStep(db, e, buffer), e, buffer) == LoadStep(db, e, buffer)
  {
  }

  /** Once a name is stored, no entry of that name replaces its lump: the first decode wins. */
  lemma StoredNameIsFinal(db: Store, e: DirectoryEntry, f: DirectoryEntry, buffer: seq<byte>)
    requires Decodable(buffer, e) && Decodable(buffer, f) && e.name == f.name
    requires GetLump(e.name).Some?
    ensures LoadStep(LoadStep(db, e, buffer), f, buffer) == LoadStep(db, e, buffer)
  {
  }

  /** Loading keeps each lump under the name of its class. */
  lemma LoadStepWellKeyed(db: Store, e: DirectoryEntry, buffer: seq<byte>)
    requires WellKeyed(db) && Decodable(buffer, e)
    ensures WellKeyed(LoadStep(db, e, buffer))
  {
    if e.name !in db && GetLump(e.name).Some? {
      var kind := GetLump(e.name).value;
      DecodeLumpKind(kind, buffer, e.lumpOffset, e.lumpSize, VersionOf(db));
    }
  }

  lemma DecodeLumpKind(kind: LumpKind, data: seq<byte>, offset: nat, size: nat, v: int)
    requires ParseSafe(kind, data, offset, size)
    ensures KindOf(DecodeLump(kind, data, offset, size, v)) == kind
  {
  }

  // -----------------------------------------------------------------------
  // The entry loop of LevelMap::Load, over an unordered map of entries.
  // -----------------------------------------------------------------------

  /** The entry held under a key is that key's lump, or names nothing GetLump knows. */
  predicate WellNamed(entries: map<string, DirectoryEntry>) {
    forall k :: k in entries ==> entries[k].name == k || GetLump(entries[k].name).None?
  }

  predicate AllDecodable(buffer: seq<byte>, entries: map<string, DirectoryEntry>) {
    forall k :: k in entries ==> Decodable(buffer, entries[k])
  }

  /** The names an entry map will add to the store. */
  function Loadable(entries: map<string, DirectoryEntry>): set<string> {
    set k | k in entries && entries[k].name == k && GetLump(k).Some?
  }

  /**
   * The store r is what loading every entry of the map into db gives, in
   * any order: names already stored keep their lump, and every other
   * loadable name is decoded from its entry with db's version.
   */
  ghost predicate LoadedFrom(r: Store, db: Store, entries: map<string, DirectoryEntry>, buffer: seq<byte>)
    requires AllDecodable(buffer, entries)
  {
    (forall k :: k in r <==> k in db || k in Loadable(entries)) &&
    (forall k :: k in db ==> k in r && r[k] == db[k]) &&
    (forall k :: k in Loadable(entries) && k !in db ==>
      k in r && r[k] == EntryLump(buffer, entries[k], VersionOf(db)))
  }

  /** The loop does not move GL_VERT once it has been given its turn first. */
  predicate VersionSettled(db: Store, entries: map<string, DirectoryEntry>) {
    GL_VERT in db || GL_VERT !in Loadable(entries)
  }

  /** Before the loop nothing is loaded. */
  lemma LoadedFromNothing(db: Store, buffer: seq<byte>)
    ensures LoadedFrom(db, db, map[], buffer)
  {
    assert Loadable(map[]) == {};
  }

  /** A loaded store under a settled version still has db's version. */
  lemma LoadedVersion(r: Store, db: Store, entries: map<string, DirectoryEntry>, buffer: seq<byte>)
    requires AllDecodable(buffer, entries) && LoadedFrom(r, db, entries, buffer)
    requires VersionSettled(db, entries)
    ensures VersionOf(r) == VersionOf(db)
  {
  }

  /** Loading one more entry of the map extends the loaded store by that entry, whatever the order. */
  lemma LoadedFromStep(r: Store, db: Store, done: map<string, DirectoryEntry>, k: string, e: DirectoryEntry, buffer: seq<byte>)
    requires k !in done && AllDecodable(buffer, done) && Decodable(buffer, e)
    requires e.name == k || GetLump(e.name).None?
    requires VersionSettled(db, done[k := e])
    requires LoadedFrom(r, db, done, buffer)
    ensures AllDecodable(buffer, done[k := e])
    ensures LoadedFrom(LoadStep(r, e, buffer), db, done[k := e], buffer)
  {
    assert AllDecodable(buffer, done[k := e]);
    if e.name == k && GetLump(k).Some? && k !in r {
      assert VersionSettled(db, done);
      LoadedVersion(r, db, done, buffer);
      LoadedFromAdd(r, db, done, k, e, buffer);
    } else {
      assert LoadStep(r, e, buffer) == r;
      LoadedFromSkip(r, db, done, k, e, buffer);
    }
  }

  lemma LoadableInsert(done: map<string, DirectoryEntry>, k: string, e: DirectoryEntry)
    requires k !in done
    ensures Loadable(done[k := e]) == Loadable(done) + (if e.name == k && GetLump(k).Some? then {k} else {})
  {
  }

  lemma LoadedFromAdd(r: Store, db: Store, done: map<string, DirectoryEntry>, k: string, e: DirectoryEntry, buffer: seq<byte>)
    requires k !in done && AllDecodable(buffer, done) && AllDecodable(buffer, done[k := e])
    requires Decodable(buffer, e) && e.name == k && GetLump(k).Some? && k !in r && k !in db
    requires LoadedFrom(r, db, done, buffer)
    ensures LoadedFrom(r[k := EntryLump(buffer, e, VersionOf(db))], db, done[k := e], buffer)
  {
    var all := done[k := e];
    var r' := r[k := EntryLump(buffer, e, VersionOf(db))];
    LoadableInsert(done, k, e);
    assert forall j :: j in r' <==> j in db || j in Loadable(all);
    assert forall j :: j in db ==> j in r' && r'[j] == db[j];
    assert r'[k] == EntryLump(buffer, all[k], VersionOf(db));
    forall j | j in Loadable(all) && j !in db && j != k
      ensures r'[j] == EntryLump(buffer, all[j], VersionOf(db))
    {
      assert all[j] == done[j];
    }
  }

  lemma LoadedFromSkip(r: Store, db: Store, done: map<string, DirectoryEntry>, k: string, e: DirectoryEntry, buffer: seq<byte>)
    requires k !in done && AllDecodable(buffer, done) && AllDecodable(buffer, done[k := e]) && Decodable(buffer, e)
    requires e.name == k || GetLump(e.name).None?
    requires !(e.name == k && GetLump(k).Some? && k !in r)
    requires LoadedFrom(r, db, done, buffer)
    ensures LoadedFrom(r, db, done[k := e], buffer)
  {
    var all := done[k := e];
    LoadableInsert(done, k, e);
    forall j | j in Loadable(all) && j !in db
      ensures j in r && r[j] == EntryLump(buffer, all[j], VersionOf(db))
    {
      assert j != k;
      assert all[j] == done[j];
    }
  }

  /** Only one store is loaded from given entries: the description is complete. */
  lemma LoadedFromUnique(r: Store, s: Store, db: Store, entries: map<string, DirectoryEntry>, buffer: seq<byte>)
    requires AllDecodable(buffer, entries)
    requires LoadedFrom(r, db, entries, buffer) && LoadedFrom(s, db, entries, buffer)
    ensures r == s
  {
    assert r.Keys == s.Keys;
  }

  /** The default entry `Entries[GL_VERT]` inserts when the level has none. */
  const DefaultEntry: DirectoryEntry := DirectoryEntry(0, 0, "")

  /** The entries after `Entries[GL_VERT]`. */
  function WithGLVert(entries: map<string, DirectoryEntry>): map<string, DirectoryEntry> {
    if GL_VERT in entries then entries else entries[GL_VERT := DefaultEntry]
  }

  /** The store after `LoadLumpData(Entries[GL_VERT])`, the first load of LevelMap::Load. */
  function LoadGLVert(db: Store, entries: map<string, DirectoryEntry>, buffer: seq<byte>): Store
    requires AllDecodable(buffer, entries)
  {
    var all := WithGLVert(entries);
    assert Decodable(buffer, all[GL_VERT]);
    LoadStep(db, all[GL_VERT], buffer)
  }

  /**
   * What the lump loading of LevelMap::Load leaves: every name the level
   * holds a lump class for is stored; a name stored before keeps its lump;
   * any other one is decoded from its entry, with the version of the
   * level's own GL_VERT lump (0 without one) since GL_VERT is loaded first.
   */
  ghost predicate LevelLoaded(r: Store, db: Store, entries: map<string, DirectoryEntry>, buffer: seq<byte>)
    requires AllDecodable(buffer, entries)
  {
    assert AllDecodable(buffer, WithGLVert(entries));
    LoadedFrom(r, LoadGLVert(db, entries, buffer), WithGLVert(entries), buffer)
  }

  /**
   * GL_VERT really is decoded first: a level whose GL_VERT entry is new
   * to the store has every other new lump decoded with that lump's format
   * version, and GL_VERT itself with version 0.
   */
  lemma LevelLoadedUsesGLVertVersion(r: Store, db: Store, entries: map<string, DirectoryEntry>, buffer: seq<byte>)
    requires WellNamed(entries) && AllDecodable(buffer, entries)
    requires LevelLoaded(r, db, entries, buffer)
    requires GL_VERT in Loadable(entries) && GL_VERT !in db
    ensures entries[GL_VERT].lumpOffset + entries[GL_VERT].lumpSize <= |buffer|
    ensures forall k :: k in Loadable(entries) && k !in db ==>
      k in r && r[k] == DecodeLump(GetLump(k).value, buffer, entries[k].lumpOffset, entries[k].lumpSize,
                                   if k == GL_VERT then 0
                                   else GLVertsVersion(buffer, entries[GL_VERT].lumpOffset, entries[GL_VERT].lumpSize))
  {
    assert Decodable(buffer, entries[GL_VERT]);
    var db1 := LoadGLVert(db, entries, buffer);
    assert WithGLVert(entries) == entries;
    assert Loadable(entries) == Loadable(WithGLVert(entries));
    assert db1 == db[GL_VERT := DecodeLump(GLVertsKind, buffer, entries[GL_VERT].lumpOffset, entries[GL_VERT].lumpSize, VersionOf(db))];
  }

  /** Names the level does not hold, and names stored before, are left alone. */
  lemma LevelLoadedFrame(r: Store, db: Store, entries: map<string, DirectoryEntry>, buffer: seq<byte>)
    requires WellNamed(entries) && AllDecodable(buffer, entries)
    requires LevelLoaded(r, db, entries, buffer)
    ensures forall k :: k in r <==> k in db || k in Loadable(entries)
    ensures forall k :: k in db ==> k in r && r[k] == db[k]
  {
    var all := WithGLVert(entries);
    assert Decodable(buffer, all[GL_VERT]);
    assert Loadable(all) == Loadable(entries);
  }

  /** The store LevelMap::Load leaves, computed in one step. */
  function LoadLevel(db: Store, entries: map<string, DirectoryEntry>, buffer: seq<byte>): Store
    requires AllDecodable(buffer, entries)
  {
    assert AllDecodable(buffer, WithGLVert(entries));
    var db1 := LoadGLVert(db, entries, buffer);
    var all := WithGLVert(entries);
    map k | k in db1.Keys + Loadable(all) :: if k in db1 then db1[k] else EntryLump(buffer, all[k], VersionOf(db1))
  }

  /** LoadLevel is the store the loading loop describes, and the only one. */
  lemma LoadLevelLoaded(r: Store, db: Store, entries: map<string, DirectoryEntry>, buffer: seq<byte>)
    requires AllDecodable(buffer, entries)
    ensures LevelLoaded(LoadLevel(db, entries, buffer), db, entries, buffer)
    ensures LevelLoaded(r, db, entries, buffer) ==> r == LoadLevel(db, entries, buffer)
  {
    assert AllDecodable(buffer, WithGLVert(entries));
    if LevelLoaded(r, db, entries, buffer) {
      LoadedFromUnique(r, LoadLevel(db, entries, buffer), LoadGLVert(db, entries, buffer), WithGLVert(entries), buffer);
    }
  }
}
