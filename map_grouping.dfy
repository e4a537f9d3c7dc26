/**
 * Level grouping of wadReader/src/doom_map.cpp: IsMapLump and the walk of
 * WADFile::Read over the ordered directory.
 *
 * The walk has two states.  A zero-size marker entry closes any open level
 * (emitting it when it holds at least one lump) and opens a level named
 * after itself; while a level is open, map lumps are stored under their
 * names; any other lump closes the level, and entries are then skipped until
 * the next marker.  A level still open at the end of the directory is not
 * emitted.
 */
module MapGrouping {
  import opened Reader
  import opened LumpTypes

  /** The ten map lumps of the original format. */
  const ClassicMapLumps: set<string> :=
    {THINGS, LINEDEFS, SIDEDEFS, VERTEXES, SEGS, SSECTORS, NODES, SECTORS, REJECT, BLOCKMAP}

  /** `name.substr(0, 3) == "GL_"`: substr clips at the end of a shorter name. */
  predicate HasGLPrefix(name: string) {
    (if |name| < 3 then name else name[..3]) == "GL_"
  }

  /** The explicit tests of the source, in order; the prefix test subsumes the GL names. */
  function IsMapLump(name: string): (r: bool)
    ensures r <==> name in ClassicMapLumps || (|name| >= 3 && name[..3] == "GL_")
  {
    if name == THINGS then true
    else if name == LINEDEFS then true
    else if name == SIDEDEFS then true
    else if name == VERTEXES then true
    else if name == SEGS then true
    else if name == SSECTORS then true
    else if name == NODES then true
    else if name == SECTORS then true
    else if name == REJECT then true
    else if name == BLOCKMAP then true
    else if name == GL_VERT then true
    else if name == GL_SEGS then true
    else if name == GL_SSECT then true
    else if name == GL_NODES then true
    else if name == GL_PVS then true
    else HasGLPrefix(name)
  }

  /** The five named GL lumps already pass the prefix test. */
  lemma GLNamesHavePrefix()
    ensures HasGLPrefix(GL_VERT) && HasGLPrefix(GL_SEGS) && HasGLPrefix(GL_SSECT)
    ensures HasGLPrefix(GL_NODES) && HasGLPrefix(GL_PVS)
  {
  }

  /** Marker entries: a level starts at a lump of size 0. */
  predicate IsMarker(e: DirectoryEntry) {
    e.lumpSize == 0
  }

  /** A level as the grouping emits it: its name and its lumps by name. */
  datatype Level = Level(name: string, entries: map<string, DirectoryEntry>)

  /** The state of the walk: levels emitted so far, the flag, and the open level. */
  datatype Walker = Walker(levels: seq<Level>, inMap: bool, name: string, current: map<string, DirectoryEntry>)

  const Start: Walker := Walker([], false, "", map[])

  /** Emit the open level if it holds anything, then clear its name and entries. */
  function Close(w: Walker): Walker {
    Walker(if |w.current| > 0 then w.levels + [Level(w.name, w.current)] else w.levels, w.inMap, "", map[])
  }

  /** One iteration of the loop body of WADFile::Read. */
  function Step(w: Walker, e: DirectoryEntry): Walker {
    if IsMarker(e) then
      var closed := if w.inMap then Close(w) else w;
      closed.(name := e.name, inMap := true)
    else if w.inMap then
      if IsMapLump(e.name) then w.(current := w.current[e.name := e])
      else Close(w).(inMap := false)
    else
      w
  }

  /** The state after the walk has seen the entries es, in order. */
  function Walk(es: seq<DirectoryEntry>): Walker
    decreases |es|
  {
    if es == [] then Start else Step(Walk(es[..|es| - 1]), es[|es| - 1])
  }

  /** The levels WADFile::Read emits for a directory. */
  function Levels(es: seq<DirectoryEntry>): seq<Level> {
    Walk(es).levels
  }

  lemma WalkAppend(es: seq<DirectoryEntry>, e: DirectoryEntry)
    ensures Walk(es + [e]) == Step(Walk(es), e)
  {
    assert (es + [e])[..|es|] == es;
  }

  // -----------------------------------------------------------------------
  // The grouping described by directory indices.
  // -----------------------------------------------------------------------

  /** The index of the last marker among the first n entries, or -1 when there is none. */
  function LastMarkerBefore(es: seq<DirectoryEntry>, n: nat): (r: int)
    requires n <= |es|
    ensures -1 <= r < n
    ensures r >= 0 ==> IsMarker(es[r])
    ensures forall k :: r < k < n ==> !IsMarker(es[k])
    decreases n
  {
    if n == 0 then -1
    else if IsMarker(es[n - 1]) then n - 1
    else LastMarkerBefore(es, n - 1)
  }

  /** The entries of a span by name, a later entry replacing an earlier one of the same name. */
  function ByName(span: seq<DirectoryEntry>): map<string, DirectoryEntry>
    decreases |span|
  {
    if span == [] then map[]
    else
      var last := span[|span| - 1];
      ByName(span[..|span| - 1])[last.name := last]
  }

  /**
   * Every name of the span is a key, each key holds an entry of the span
   * with that name, and the map is empty only for an empty span.
   */
  lemma {:induction false} ByNameSpec(span: seq<DirectoryEntry>)
    ensures forall k :: k in ByName(span) ==> ByName(span)[k].name == k && ByName(span)[k] in span
    ensures forall i :: 0 <= i < |span| ==> span[i].name in ByName(span)
    ensures |ByName(span)| == 0 <==> span == []
    decreases |span|
  {
    if span != [] {
      var prefix := span[..|span| - 1];
      ByNameSpec(prefix);
      assert forall i :: 0 <= i < |prefix| ==> prefix[i] == span[i];
    }
  }

  /** The position in the span of the entry a key holds. */
  lemma {:induction false} ByNameWitness(span: seq<DirectoryEntry>, k: string) returns (idx: nat)
    requires k in ByName(span)
    ensures idx < |span| && span[idx] == ByName(span)[k] && span[idx].name == k
    decreases |span|
  {
    var prefix, last := span[..|span| - 1], span[|span| - 1];
    if k == last.name {
      idx := |span| - 1;
    } else {
      idx := ByNameWitness(prefix, k);
    }
  }

  /** Appending an entry stores it under its name. */
  lemma ByNameAppend(span: seq<DirectoryEntry>, e: DirectoryEntry)
    ensures ByName(span + [e]) == ByName(span)[e.name := e]
  {
    assert (span + [e])[..|span|] == span;
  }

  /** Each name keeps the last of its entries in the span. */
  lemma {:induction false} ByNameLastWins(span: seq<DirectoryEntry>, i: nat)
    requires i < |span| && forall m :: i < m < |span| ==> span[m].name != span[i].name
    ensures span[i].name in ByName(span) && ByName(span)[span[i].name] == span[i]
    decreases |span|
  {
    if i < |span| - 1 {
      var prefix := span[..|span| - 1];
      assert forall m :: i < m < |prefix| ==> prefix[m] == span[m];
      ByNameLastWins(prefix, i);
    }
  }

  /**
   * After the first n entries the walk is inside a level: reading back
   * from entry n - 1, map lumps lead to a marker.
   */
  predicate InLevelAt(es: seq<DirectoryEntry>, n: nat)
    requires n <= |es|
    decreases n
  {
    n > 0 && (IsMarker(es[n - 1]) || (IsMapLump(es[n - 1].name) && InLevelAt(es, n - 1)))
  }

  /** The level open after the first n entries: the marker's name with each later lump stored under its name. */
  function OpenLevelAt(es: seq<DirectoryEntry>, n: nat): Level
    requires n <= |es| && InLevelAt(es, n)
    decreases n
  {
    if IsMarker(es[n - 1]) then Level(es[n - 1].name, map[])
    else
      var open := OpenLevelAt(es, n - 1);
      Level(open.name, open.entries[es[n - 1].name := es[n - 1]])
  }

  /** An entry that ends an open level: a marker, or a lump that is not a map lump. */
  predicate Closes(e: DirectoryEntry) {
    IsMarker(e) || !IsMapLump(e.name)
  }

  /** The entry es[c] ends an open level that holds at least one lump. */
  predicate EmitsAt(es: seq<DirectoryEntry>, c: nat)
    requires c < |es|
  {
    Closes(es[c]) && InLevelAt(es, c) && |OpenLevelAt(es, c).entries| > 0
  }

  /** The indices among the first n entries at which the walk emits a level, in directory order. */
  function ClosingBefore(es: seq<DirectoryEntry>, n: nat): (r: seq<nat>)
    requires n <= |es|
    ensures forall i :: 0 <= i < |r| ==> r[i] < n
    decreases n
  {
    if n == 0 then []
    else ClosingBefore(es, n - 1) + (if |Levels(es[..n])| > |Levels(es[..n - 1])| then [n - 1] else [])
  }

  /** The indices of the entries at which a level is emitted. */
  function ClosingIndices(es: seq<DirectoryEntry>): (r: seq<nat>)
    ensures forall i :: 0 <= i < |r| ==> r[i] < |es|
  {
    ClosingBefore(es, |es|)
  }

  /** A span one entry longer. */
  lemma SliceExtend(es: seq<DirectoryEntry>, i: nat, n: nat)
    requires i < n <= |es|
    ensures es[i .. n] == es[i .. n - 1] + [es[n - 1]]
  {
  }

  /** The open level was opened by the last marker, and every entry after it is a map lump. */
  lemma {:induction false} OpenLevelMarker(es: seq<DirectoryEntry>, n: nat)
    requires n <= |es| && InLevelAt(es, n)
    ensures 0 <= LastMarkerBefore(es, n)
    ensures forall k :: LastMarkerBefore(es, n) < k < n ==> IsMapLump(es[k].name)
    decreases n
  {
    if !IsMarker(es[n - 1]) {
      OpenLevelMarker(es, n - 1);
    }
  }

  /**
   * The open level described by indices: it was opened by the last marker
   * es[j], every entry after it is a map lump, and the level is named after
   * es[j] and holds the last entry of each name after j.
   */
  lemma {:induction false} OpenLevelSpan(es: seq<DirectoryEntry>, n: nat)
    requires n <= |es| && InLevelAt(es, n)
    ensures 0 <= LastMarkerBefore(es, n)
    ensures forall k :: LastMarkerBefore(es, n) < k < n ==> IsMapLump(es[k].name)
    ensures OpenLevelAt(es, n) ==
      Level(es[LastMarkerBefore(es, n)].name, ByName(es[LastMarkerBefore(es, n) + 1 .. n]))
  {
    OpenLevelMarker(es, n);
    OpenLevelByName(es, n);
  }

  /** The open level is named after the last marker and holds the entries after it by name. */
  lemma {:induction false} OpenLevelByName(es: seq<DirectoryEntry>, n: nat)
    requires n <= |es| && InLevelAt(es, n)
    ensures 0 <= LastMarkerBefore(es, n) &&
      OpenLevelAt(es, n) == Level(es[LastMarkerBefore(es, n)].name, ByName(es[LastMarkerBefore(es, n) + 1 .. n]))
    decreases n
  {
    if IsMarker(es[n - 1]) {
      assert es[n .. n] == [];
    } else {
      OpenLevelByName(es, n - 1);
      var j := LastMarkerBefore(es, n);
      assert j == LastMarkerBefore(es, n - 1);
      var open := OpenLevelAt(es, n - 1);
      assert open == Level(es[j].name, ByName(es[j + 1 .. n - 1]));
      SliceExtend(es, j + 1, n);
      ByNameAppend(es[j + 1 .. n - 1], es[n - 1]);
    }
  }

  /** One more entry of the directory is one more step of the walk. */
  lemma WalkPrefix(es: seq<DirectoryEntry>, n: nat)
    requires 0 < n <= |es|
    ensures Walk(es[..n]) == Step(Walk(es[..n - 1]), es[n - 1])
  {
    assert es[..n][..n - 1] == es[..n - 1];
  }

  /** The levels one step emits: the open level, when the entry ends it and it holds a lump. */
  lemma StepLevels(w: Walker, e: DirectoryEntry)
    ensures Step(w, e).levels ==
      w.levels + (if Closes(e) && w.inMap && |w.current| > 0 then [Level(w.name, w.current)] else [])
  {
  }

  /**
   * The walk after the first n entries is in the state the description
   * gives: inside a level exactly when InLevelAt holds, with the open level
   * OpenLevelAt, and with nothing collected otherwise.
   */
  predicate WalkMatches(es: seq<DirectoryEntry>, n: nat)
    requires n <= |es|
  {
    (Walk(es[..n]).inMap <==> InLevelAt(es, n)) &&
    (InLevelAt(es, n) ==> Level(Walk(es[..n]).name, Walk(es[..n]).current) == OpenLevelAt(es, n)) &&
    (!InLevelAt(es, n) ==> Walk(es[..n]).current == map[])
  }

  /** The two-state loop is in the described state after every prefix of the directory. */
  lemma {:induction false} WalkOpenLevel(es: seq<DirectoryEntry>, n: nat)
    requires n <= |es|
    ensures WalkMatches(es, n)
    decreases n
  {
    if n > 0 {
      WalkOpenLevel(es, n - 1);
      WalkPrefix(es, n);
    }
  }

  /** Inside a level exactly when a marker has been seen and only map lumps follow the last one. */
  lemma {:induction false} InLevelAtIff(es: seq<DirectoryEntry>, n: nat)
    requires n <= |es|
    ensures InLevelAt(es, n) <==>
      LastMarkerBefore(es, n) >= 0 && forall k :: LastMarkerBefore(es, n) < k < n ==> IsMapLump(es[k].name)
    decreases n
  {
    if n > 0 {
      InLevelAtIff(es, n - 1);
      if InLevelAt(es, n) {
        OpenLevelMarker(es, n);
      }
    }
  }

  /**
   * The state of the two-state loop after the first n entries, by indices:
   * it is inside a level exactly when a marker es[j] has been seen and only
   * map lumps follow the last one; it then holds the name of es[j] and the
   * last entry of each name after j, and otherwise holds nothing.
   */
  lemma WalkTracksMarker(es: seq<DirectoryEntry>, n: nat)
    requires n <= |es|
    ensures Walk(es[..n]).inMap <==>
      LastMarkerBefore(es, n) >= 0 && forall k :: LastMarkerBefore(es, n) < k < n ==> IsMapLump(es[k].name)
    ensures Walk(es[..n]).inMap ==>
      var j := LastMarkerBefore(es, n);
      0 <= j < n && IsMarker(es[j]) &&
      Walk(es[..n]).name == es[j].name && Walk(es[..n]).current == ByName(es[j + 1 .. n])
    ensures !Walk(es[..n]).inMap ==> Walk(es[..n]).current == map[]
  {
    WalkOpenLevel(es, n);
    InLevelAtIff(es, n);
    if InLevelAt(es, n) {
      OpenLevelSpan(es, n);
    }
  }

  /**
   * One entry of the directory emits exactly the level the description
   * gives: the open level before it, when the entry ends it and it holds a
   * lump, and nothing otherwise.
   */
  lemma LevelsStep(es: seq<DirectoryEntry>, n: nat)
    requires 0 < n <= |es|
    ensures Levels(es[..n]) == Levels(es[..n - 1]) + (if EmitsAt(es, n - 1) then [OpenLevelAt(es, n - 1)] else [])
  {
    WalkOpenLevel(es, n - 1);
    WalkPrefix(es, n);
    StepLevels(Walk(es[..n - 1]), es[n - 1]);
  }

  /** The walk emits exactly the levels open just before its closing indices, in order. */
  lemma {:induction false} LevelsAreClosedSpans(es: seq<DirectoryEntry>, n: nat)
    requires n <= |es|
    ensures |Levels(es[..n])| == |ClosingBefore(es, n)|
    ensures forall i :: 0 <= i < |ClosingBefore(es, n)| ==>
      InLevelAt(es, ClosingBefore(es, n)[i]) && Levels(es[..n])[i] == OpenLevelAt(es, ClosingBefore(es, n)[i])
    decreases n
  {
    if n > 0 {
      LevelsAreClosedSpans(es, n - 1);
      LevelsStep(es, n);
    }
  }

  /** Every closing index ends a non-empty open level. */
  lemma {:induction false} ClosingIndexEmits(es: seq<DirectoryEntry>, n: nat, i: nat)
    requires n <= |es| && i < |ClosingBefore(es, n)|
    ensures EmitsAt(es, ClosingBefore(es, n)[i])
    decreases n
  {
    if i < |ClosingBefore(es, n - 1)| {
      ClosingIndexEmits(es, n - 1, i);
    } else {
      LevelsStep(es, n);
    }
  }

  /** An index at which the walk's list of levels grows is listed. */
  lemma {:induction false} GrowthCloses(es: seq<DirectoryEntry>, n: nat, c: nat)
    requires c < n <= |es| && |Levels(es[..c + 1])| > |Levels(es[..c])|
    ensures c in ClosingBefore(es, n)
    decreases n
  {
    if c < n - 1 {
      GrowthCloses(es, n - 1, c);
    }
  }

  /** Every entry that ends a non-empty open level is a closing index. */
  lemma EmittingIndexCloses(es: seq<DirectoryEntry>, c: nat)
    requires c < |es| && EmitsAt(es, c)
    ensures c in ClosingIndices(es)
  {
    LevelsStep(es, c + 1);
    GrowthCloses(es, |es|, c);
  }

  /** The closing indices increase strictly. */
  lemma {:induction false} ClosingIndicesIncrease(es: seq<DirectoryEntry>, n: nat)
    requires n <= |es|
    ensures forall a, b :: 0 <= a < b < |ClosingBefore(es, n)| ==> ClosingBefore(es, n)[a] < ClosingBefore(es, n)[b]
    decreases n
  {
    if n > 0 {
      ClosingIndicesIncrease(es, n - 1);
    }
  }

  /** A level is emitted at c exactly when es[c] ends a non-empty open level; the indices increase. */
  lemma ClosingIndicesSpec(es: seq<DirectoryEntry>)
    ensures forall c: nat :: c in ClosingIndices(es) <==> c < |es| && EmitsAt(es, c)
    ensures forall a, b :: 0 <= a < b < |ClosingIndices(es)| ==> ClosingIndices(es)[a] < ClosingIndices(es)[b]
  {
    ClosingIndicesIncrease(es, |es|);
    forall c: nat ensures c in ClosingIndices(es) <==> c < |es| && EmitsAt(es, c) {
      if c in ClosingIndices(es) {
        var i :| 0 <= i < |ClosingIndices(es)| && ClosingIndices(es)[i] == c;
        ClosingIndexEmits(es, |es|, i);
      }
      if c < |es| && EmitsAt(es, c) {
        EmittingIndexCloses(es, c);
      }
    }
  }

  /**
   * Level i of the directory is opened by the marker es[j] and closed by
   * es[c]: everything strictly between them is a map lump, the level is
   * named after es[j], holds the last entry of each name between them, and
   * holds at least one.
   */
  lemma LevelsAreWellFormed(es: seq<DirectoryEntry>, i: nat)
    requires i < |Levels(es)|
    ensures i < |ClosingIndices(es)|
    ensures var c := ClosingIndices(es)[i]; 0 <= LastMarkerBefore(es, c) < c < |es|
    ensures var c := ClosingIndices(es)[i]; var j := LastMarkerBefore(es, c);
      IsMarker(es[j]) && Closes(es[c])
    ensures var c := ClosingIndices(es)[i]; var j := LastMarkerBefore(es, c);
      forall k :: j < k < c ==> !IsMarker(es[k]) && IsMapLump(es[k].name)
    ensures var c := ClosingIndices(es)[i]; var j := LastMarkerBefore(es, c);
      Levels(es)[i] == Level(es[j].name, ByName(es[j + 1 .. c])) && |Levels(es)[i].entries| > 0
  {
    LevelIsClosedSpan(es, i);
    OpenLevelSpan(es, ClosingIndices(es)[i]);
  }

  /** Level i of the whole directory is the open level just before its closing index, which ends it. */
  lemma LevelIsClosedSpan(es: seq<DirectoryEntry>, i: nat)
    requires i < |Levels(es)|
    ensures i < |ClosingIndices(es)| && ClosingIndices(es)[i] < |es|
    ensures EmitsAt(es, ClosingIndices(es)[i])
    ensures Levels(es)[i] == OpenLevelAt(es, ClosingIndices(es)[i])
  {
    assert es[..|es|] == es;
    LevelsAreClosedSpans(es, |es|);
    ClosingIndexEmits(es, |es|, i);
  }

  /** Every lump of an emitted level is a map lump of the directory, stored under its own name, and not a marker. */
  lemma LevelEntriesAreMapLumps(es: seq<DirectoryEntry>, i: nat, k: string)
    requires i < |Levels(es)| && k in Levels(es)[i].entries
    ensures IsMapLump(k) && Levels(es)[i].entries[k].name == k && !IsMarker(Levels(es)[i].entries[k])
    ensures Levels(es)[i].entries[k] in es
  {
    LevelsAreWellFormed(es, i);
    var c := ClosingIndices(es)[i];
    var j := LastMarkerBefore(es, c);
    var span := es[j + 1 .. c];
    var idx := ByNameWitness(span, k);
    assert es[j + 1 + idx] == span[idx];
  }

  /** Levels come in directory order and do not overlap: a later level opens at or after the entry that closed an earlier one. */
  lemma LevelsInOrder(es: seq<DirectoryEntry>, a: nat, b: nat)
    requires a < b < |Levels(es)|
    ensures b < |ClosingIndices(es)| && ClosingIndices(es)[a] < ClosingIndices(es)[b]
    ensures ClosingIndices(es)[a] <= LastMarkerBefore(es, ClosingIndices(es)[b])
  {
    LevelsAreWellFormed(es, b);
    ClosingIndicesIncrease(es, |es|);
    ClosingIndexEmits(es, |es|, a);
  }

  /** A lump that leaves the walk inside a level found it inside the same level and emitted nothing. */
  lemma LumpStepInLevel(es: seq<DirectoryEntry>, n: nat)
    requires 0 < n <= |es| && Walk(es[..n]).inMap && !IsMarker(es[n - 1])
    ensures Walk(es[..n - 1]).inMap && Levels(es[..n]) == Levels(es[..n - 1])
    ensures LastMarkerBefore(es, n) == LastMarkerBefore(es, n - 1)
  {
    WalkPrefix(es, n);
  }

  /** While the walk stays inside a level, the lumps after its marker add no level. */
  lemma {:induction false} OpenLevelAddsNothing(es: seq<DirectoryEntry>, n: nat)
    requires n <= |es| && InLevelAt(es, n)
    ensures 0 <= LastMarkerBefore(es, n)
    ensures Levels(es[..n]) == Levels(es[..LastMarkerBefore(es, n) + 1])
    decreases n
  {
    if !IsMarker(es[n - 1]) {
      LevelsStep(es, n);
      OpenLevelAddsNothing(es, n - 1);
    }
  }

  /**
   * A level still open at the end of the directory is never emitted: no
   * level closes after its marker, and the entries after that marker add
   * no level.
   */
  lemma NoFinalFlush(es: seq<DirectoryEntry>)
    requires Walk(es).inMap
    ensures InLevelAt(es, |es|)
    ensures forall i :: 0 <= i < |ClosingIndices(es)| ==> ClosingIndices(es)[i] <= LastMarkerBefore(es, |es|)
    ensures Levels(es) == Levels(es[..LastMarkerBefore(es, |es|) + 1])
  {
    assert es[..|es|] == es;
    WalkOpenLevel(es, |es|);
    OpenLevelAddsNothing(es, |es|);
    ClosingBeforeOpenMarker(es);
  }

  /** Every level emitted so far was closed at or before the marker of the level still open. */
  lemma ClosingBeforeOpenMarker(es: seq<DirectoryEntry>)
    requires InLevelAt(es, |es|)
    ensures forall i :: 0 <= i < |ClosingIndices(es)| ==> ClosingIndices(es)[i] <= LastMarkerBefore(es, |es|)
  {
    OpenLevelSpan(es, |es|);
    forall i | 0 <= i < |ClosingIndices(es)| ensures ClosingIndices(es)[i] <= LastMarkerBefore(es, |es|) {
      ClosingIndexEmits(es, |es|, i);
    }
  }

  /** A marker ends a non-empty open level: that level is appended and the marker opens the next one. */
  lemma MarkerEmits(w: Walker, e: DirectoryEntry)
    requires IsMarker(e) && w.inMap && |w.current| > 0
    ensures Step(w, e) == Walker(w.levels + [Level(w.name, w.current)], true, e.name, map[])
  {
  }

  /** For a whole directory: a marker after a non-empty open level emits exactly that level and opens an empty one. */
  lemma MarkerEmitsOpenLevel(es: seq<DirectoryEntry>, m: DirectoryEntry)
    requires IsMarker(m) && InLevelAt(es, |es|) && |OpenLevelAt(es, |es|).entries| > 0
    ensures Levels(es + [m]) == Levels(es) + [OpenLevelAt(es, |es|)]
    ensures InLevelAt(es + [m], |es| + 1) && OpenLevelAt(es + [m], |es| + 1) == Level(m.name, map[])
  {
    assert es[..|es|] == es;
    WalkAppend(es, m);
    WalkOpenLevel(es, |es|);
  }

  /** Number of marker entries. */
  function Markers(es: seq<DirectoryEntry>): nat
    decreases |es|
  {
    if es == [] then 0 else Markers(es[..|es| - 1]) + if IsMarker(es[|es| - 1]) then 1 else 0
  }

  /** Each emitted level was opened by its own marker, and the open level by one more. */
  lemma {:induction false} LevelsAtMostMarkers(es: seq<DirectoryEntry>)
    ensures |Levels(es)| + (if Walk(es).inMap then 1 else 0) <= Markers(es)
    decreases |es|
  {
    if es != [] {
      LevelsAtMostMarkers(es[..|es| - 1]);
    }
  }

  /** The walk only ever appends: the levels of a prefix start the levels of the whole. */
  lemma {:induction false} LevelsOfPrefix(es: seq<DirectoryEntry>, n: nat)
    requires n <= |es|
    ensures |Levels(es[..n])| <= |Levels(es)| && Levels(es[..n]) == Levels(es)[..|Levels(es[..n])|]
    decreases |es| - n
  {
    if n < |es| {
      LevelsOfPrefix(es, n + 1);
      assert es[..n + 1][..n] == es[..n];
    } else {
      assert es[..n] == es;
    }
  }

  /** A later copy of a map lump in the same level replaces the earlier one. */
  lemma LaterDuplicateWins(w: Walker, a: DirectoryEntry, b: DirectoryEntry)
    requires w.inMap && !IsMarker(a) && !IsMarker(b) && a.name == b.name && IsMapLump(a.name)
    ensures Step(Step(w, a), b).current == w.current[b.name := b]
    ensures Step(Step(w, a), b).inMap
  {
  }

  /** A non-map lump inside a level ends it; entries are skipped until the next marker. */
  lemma NonMapLumpCloses(w: Walker, e: DirectoryEntry, f: DirectoryEntry)
    requires w.inMap && !IsMarker(e) && !IsMapLump(e.name) && !IsMarker(f)
    ensures !Step(w, e).inMap && Step(w, e).current == map[]
    ensures Step(Step(w, e), f) == Step(w, e)
  {
  }
}
