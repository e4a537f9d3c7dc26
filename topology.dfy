/**
 * The sector cache and the leaf walk that LevelMap::Load builds from the
 * decoded lumps (wadReader/src/doom_map.cpp), as functions over sequences.
 * The LevelMap class of DoomMap computes them with loops and recursion
 * that are proved equal to these functions.
 *
 * Three details of the source are kept as written:
 *   - both edges of a line go to the sector of its FRONT side (the back edge
 *     also reads FrontSideDef to find its sector);
 *   - an edge's Destination holds a sidedef index, not a sector index;
 *   - a node whose left child is a leaf records the subsector number of
 *     its RIGHT child.
 */
module Topology {
  import opened Bytes
  import opened LumpTypes

  /** SectorInfo::Edge: a line, which side of it, the side drawn, and the other side. */
  datatype Edge = Edge(line: nat, reverse: bool, side: nat, destination: nat)

  /** SectorInfo without its random tint. */
  datatype SectorInfo = SectorInfo(edges: seq<Edge>, subSectors: seq<nat>)

  const EmptySector: SectorInfo := SectorInfo([], [])

  /** `std::vector::resize`: keeps the first n elements and pads with empty ones. */
  function Resize(cache: seq<SectorInfo>, n: nat): (r: seq<SectorInfo>)
    ensures |r| == n
    ensures forall i :: 0 <= i < n && i < |cache| ==> r[i] == cache[i]
    ensures forall i :: |cache| <= i < n ==> r[i] == EmptySector
  {
    if n <= |cache| then cache[..n] else cache + seq(n - |cache|, _ => EmptySector)
  }

  // -----------------------------------------------------------------------
  // Edges
  // -----------------------------------------------------------------------

  predicate Defined(side: uint16) {
    side != InvalidSideDefIndex
  }

  /** The edges Load pushes for line L: one per defined side, front first. */
  function LineEdges(lines: seq<LineDef>, L: nat): (r: seq<Edge>)
    requires L < |lines|
    ensures |r| == (if Defined(lines[L].frontSideDef) then 1 else 0) + (if Defined(lines[L].backSideDef) then 1 else 0)
    ensures r != [] <==> Defined(lines[L].frontSideDef) || Defined(lines[L].backSideDef)
    ensures forall i :: 0 <= i < |r| ==> r[i].line == L
  {
    var l := lines[L];
    var front, back := Edge(L, false, l.frontSideDef, l.backSideDef), Edge(L, true, l.backSideDef, l.frontSideDef);
    if Defined(l.frontSideDef) && Defined(l.backSideDef) then [front, back]
    else if Defined(l.frontSideDef) then [front]
    else if Defined(l.backSideDef) then [back]
    else []
  }

  /**
   * Every line with an edge reads its front sidedef, and that sidedef's
   * sector indexes the cache (neither access is checked in the source).
   */
  predicate LinesSafe(lines: seq<LineDef>, sides: seq<SideDef>, sectorCount: nat) {
    forall L :: 0 <= L < |lines| && (Defined(lines[L].frontSideDef) || Defined(lines[L].backSideDef)) ==>
      lines[L].frontSideDef < |sides| && sides[lines[L].frontSideDef].sectorId < sectorCount
  }

  /** The sector whose list receives line L's edges: that of the front side, for both edges. */
  function EdgeSector(lines: seq<LineDef>, sides: seq<SideDef>, L: nat): nat
    requires L < |lines| && lines[L].frontSideDef < |sides|
  {
    sides[lines[L].frontSideDef].sectorId
  }

  function AppendEdges(cache: seq<SectorInfo>, t: nat, es: seq<Edge>): (r: seq<SectorInfo>)
    requires t < |cache|
    ensures |r| == |cache|
  {
    cache[t := cache[t].(edges := cache[t].edges + es)]
  }

  /** Two appends to one sector's edge list are one append of both. */
  lemma AppendEdgesTwice(cache: seq<SectorInfo>, t: nat, a: seq<Edge>, b: seq<Edge>)
    requires t < |cache|
    ensures AppendEdges(AppendEdges(cache, t, a), t, b) == AppendEdges(cache, t, a + b)
  {
    assert cache[t].edges + a + b == cache[t].edges + (a + b);
  }

  /** The cache after the body of the edge loop for line L. */
  function AddLineEdges(cache: seq<SectorInfo>, lines: seq<LineDef>, sides: seq<SideDef>, L: nat): (r: seq<SectorInfo>)
    requires LinesSafe(lines, sides, |cache|) && L < |lines|
    ensures |r| == |cache|
  {
    if LineEdges(lines, L) == [] then cache
    else AppendEdges(cache, EdgeSector(lines, sides, L), LineEdges(lines, L))
  }

  /** The cache after the edge loop has run over the first n lines. */
  function CacheLineEdges(cache: seq<SectorInfo>, lines: seq<LineDef>, sides: seq<SideDef>, n: nat): (r: seq<SectorInfo>)
    requires LinesSafe(lines, sides, |cache|) && n <= |lines|
    ensures |r| == |cache|
  {
    if n == 0 then cache else AddLineEdges(CacheLineEdges(cache, lines, sides, n - 1), lines, sides, n - 1)
  }

  /** The edges of line L if they are filed under sector t, otherwise none. */
  function SectorLineEdges(lines: seq<LineDef>, sides: seq<SideDef>, sectorCount: nat, t: nat, L: nat): (r: seq<Edge>)
    requires LinesSafe(lines, sides, sectorCount) && L < |lines|
    ensures forall i :: 0 <= i < |r| ==> r[i].line == L
  {
    if LineEdges(lines, L) != [] && EdgeSector(lines, sides, L) == t then LineEdges(lines, L) else []
  }

  /** Reference definition: the edges of lines below n whose list is sector t's, in line order. */
  function SectorEdges(lines: seq<LineDef>, sides: seq<SideDef>, sectorCount: nat, t: nat, n: nat): seq<Edge>
    requires LinesSafe(lines, sides, sectorCount) && n <= |lines|
  {
    if n == 0 then []
    else SectorEdges(lines, sides, sectorCount, t, n - 1) + SectorLineEdges(lines, sides, sectorCount, t, n - 1)
  }

  /** One iteration of the edge loop appends line L's edges to sector t when they are filed there. */
  lemma AddLineEdgesAt(c: seq<SectorInfo>, lines: seq<LineDef>, sides: seq<SideDef>, L: nat, t: nat)
    requires LinesSafe(lines, sides, |c|) && L < |lines| && t < |c|
    ensures AddLineEdges(c, lines, sides, L)[t].edges == c[t].edges + SectorLineEdges(lines, sides, |c|, t, L)
    ensures AddLineEdges(c, lines, sides, L)[t].subSectors == c[t].subSectors
  {
    if LineEdges(lines, L) == [] {
      assert c[t].edges + [] == c[t].edges;
    }
  }

  /** Sector t of the cache after the first n lines: its own edges appended, its subsectors untouched. */
  predicate EdgesFiled(cache: seq<SectorInfo>, lines: seq<LineDef>, sides: seq<SideDef>, n: nat, t: nat)
    requires LinesSafe(lines, sides, |cache|) && n <= |lines| && t < |cache|
  {
    var after := CacheLineEdges(cache, lines, sides, n)[t];
    after.edges == cache[t].edges + SectorEdges(lines, sides, |cache|, t, n) &&
    after.subSectors == cache[t].subSectors
  }

  /** The edge loop appends to each sector exactly that sector's edges, and leaves its subsectors alone. */
  lemma CacheLineEdgesPerSector(cache: seq<SectorInfo>, lines: seq<LineDef>, sides: seq<SideDef>, n: nat, t: nat)
    requires LinesSafe(lines, sides, |cache|) && n <= |lines| && t < |cache|
    ensures EdgesFiled(cache, lines, sides, n, t)
  {
    CacheLineEdgesNone(cache, lines, sides, t);
    var k := 0;
    while k < n
      invariant k <= n && EdgesFiled(cache, lines, sides, k, t)
    {
      CacheLineEdgesStep(cache, lines, sides, k + 1, t);
      k := k + 1;
    }
  }

  /** The base case of CacheLineEdgesPerSector: no line has been visited. */
  lemma CacheLineEdgesNone(cache: seq<SectorInfo>, lines: seq<LineDef>, sides: seq<SideDef>, t: nat)
    requires LinesSafe(lines, sides, |cache|) && t < |cache|
    ensures EdgesFiled(cache, lines, sides, 0, t)
  {
    assert cache[t].edges + [] == cache[t].edges;
  }

  /** The inductive step of CacheLineEdgesPerSector: from the first n - 1 lines to the first n. */
  lemma CacheLineEdgesStep(cache: seq<SectorInfo>, lines: seq<LineDef>, sides: seq<SideDef>, n: nat, t: nat)
    requires LinesSafe(lines, sides, |cache|) && 0 < n <= |lines| && t < |cache|
    requires EdgesFiled(cache, lines, sides, n - 1, t)
    ensures EdgesFiled(cache, lines, sides, n, t)
  {
    AddLineEdgesAt(CacheLineEdges(cache, lines, sides, n - 1), lines, sides, n - 1, t);
    AppendAssoc(cache[t].edges, SectorEdges(lines, sides, |cache|, t, n - 1), SectorLineEdges(lines, sides, |cache|, t, n - 1));
  }

  /** Concatenation regroups. */
  lemma AppendAssoc<T>(a: seq<T>, b: seq<T>, c: seq<T>)
    ensures a + b + c == a + (b + c)
  {
  }

  /** The edges of sector t are exactly the edges of lines below n whose front side lies in t. */
  lemma SectorEdgesMembers(lines: seq<LineDef>, sides: seq<SideDef>, sectorCount: nat, t: nat, n: nat)
    requires LinesSafe(lines, sides, sectorCount) && n <= |lines|
    ensures forall e :: e in SectorEdges(lines, sides, sectorCount, t, n) <==>
      e.line < n && e in LineEdges(lines, e.line) && EdgeSector(lines, sides, e.line) == t
  {
    forall e ensures e in SectorEdges(lines, sides, sectorCount, t, n) <==>
      e.line < n && e in LineEdges(lines, e.line) && EdgeSector(lines, sides, e.line) == t
    {
      SectorEdgesHas(lines, sides, sectorCount, t, n, e);
    }
  }

  /** SectorEdgesMembers for one edge e. */
  lemma SectorEdgesHas(lines: seq<LineDef>, sides: seq<SideDef>, sectorCount: nat, t: nat, n: nat, e: Edge)
    requires LinesSafe(lines, sides, sectorCount) && n <= |lines|
    ensures e in SectorEdges(lines, sides, sectorCount, t, n) <==>
      e.line < n && e in LineEdges(lines, e.line) && EdgeSector(lines, sides, e.line) == t
  {
    if e in SectorEdges(lines, sides, sectorCount, t, n) {
      SectorEdgesSound(lines, sides, sectorCount, t, n, e);
    }
    if e.line < n && e in LineEdges(lines, e.line) && EdgeSector(lines, sides, e.line) == t {
      SectorEdgesComplete(lines, sides, sectorCount, t, n, e);
    }
  }

  /** Every edge filed under sector t belongs to a line below n whose front side lies in t. */
  lemma {:induction false} SectorEdgesSound(lines: seq<LineDef>, sides: seq<SideDef>, sectorCount: nat, t: nat, n: nat, e: Edge)
    requires LinesSafe(lines, sides, sectorCount) && n <= |lines|
    requires e in SectorEdges(lines, sides, sectorCount, t, n)
    ensures e.line < n && e in LineEdges(lines, e.line) && EdgeSector(lines, sides, e.line) == t
  {
    if n == 0 {
      assert false;
    }
    var prefix := SectorEdges(lines, sides, sectorCount, t, n - 1);
    var last := SectorLineEdges(lines, sides, sectorCount, t, n - 1);
    if e in prefix {
      SectorEdgesSound(lines, sides, sectorCount, t, n - 1, e);
    } else {
      assert e in last;
      SectorLineEdgesHas(lines, sides, sectorCount, t, n - 1, e);
    }
  }

  /** Every edge of a line below n whose front side lies in t is filed under t. */
  lemma {:induction false} SectorEdgesComplete(lines: seq<LineDef>, sides: seq<SideDef>, sectorCount: nat, t: nat, n: nat, e: Edge)
    requires LinesSafe(lines, sides, sectorCount) && n <= |lines|
    requires e.line < n && e in LineEdges(lines, e.line) && EdgeSector(lines, sides, e.line) == t
    ensures e in SectorEdges(lines, sides, sectorCount, t, n)
  {
    if n == 0 {
      assert false;
    }
    var prefix := SectorEdges(lines, sides, sectorCount, t, n - 1);
    var last := SectorLineEdges(lines, sides, sectorCount, t, n - 1);
    if e.line == n - 1 {
      SectorLineEdgesHas(lines, sides, sectorCount, t, n - 1, e);
      assert e in last;
    } else {
      SectorEdgesComplete(lines, sides, sectorCount, t, n - 1, e);
      assert e in prefix;
    }
  }

  /** The edges line L files under sector t are its own edges when its front side lies in t. */
  lemma SectorLineEdgesHas(lines: seq<LineDef>, sides: seq<SideDef>, sectorCount: nat, t: nat, L: nat, e: Edge)
    requires LinesSafe(lines, sides, sectorCount) && L < |lines|
    ensures e in SectorLineEdges(lines, sides, sectorCount, t, L) <==>
      e.line == L && e in LineEdges(lines, L) && EdgeSector(lines, sides, L) == t
  {
    if e in LineEdges(lines, L) {
      var r := LineEdges(lines, L);
      var i :| 0 <= i < |r| && r[i] == e;
    }
  }

  /** Every edge of sector t comes from a line below n. */
  lemma {:induction false} SectorEdgesBound(lines: seq<LineDef>, sides: seq<SideDef>, sectorCount: nat, t: nat, n: nat)
    requires LinesSafe(lines, sides, sectorCount) && n <= |lines|
    ensures forall i :: 0 <= i < |SectorEdges(lines, sides, sectorCount, t, n)| ==>
      SectorEdges(lines, sides, sectorCount, t, n)[i].line < n
  {
    if n > 0 {
      SectorEdgesBound(lines, sides, sectorCount, t, n - 1);
      var prefix := SectorEdges(lines, sides, sectorCount, t, n - 1);
      var last := SectorLineEdges(lines, sides, sectorCount, t, n - 1);
      var s := SectorEdges(lines, sides, sectorCount, t, n);
      assert s == prefix + last;
      forall i | 0 <= i < |s| ensures s[i].line < n {
        if i < |prefix| {
          assert s[i] == prefix[i];
        } else {
          assert s[i] == last[i - |prefix|];
        }
      }
    }
  }

  /** The edges of a sector come in line order. */
  lemma {:induction false} SectorEdgesOrdered(lines: seq<LineDef>, sides: seq<SideDef>, sectorCount: nat, t: nat, n: nat)
    requires LinesSafe(lines, sides, sectorCount) && n <= |lines|
    ensures forall i, j :: 0 <= i < j < |SectorEdges(lines, sides, sectorCount, t, n)| ==>
      SectorEdges(lines, sides, sectorCount, t, n)[i].line <= SectorEdges(lines, sides, sectorCount, t, n)[j].line
  {
    if n > 0 {
      SectorEdgesOrdered(lines, sides, sectorCount, t, n - 1);
      SectorEdgesBound(lines, sides, sectorCount, t, n - 1);
      var prefix := SectorEdges(lines, sides, sectorCount, t, n - 1);
      var last := SectorLineEdges(lines, sides, sectorCount, t, n - 1);
      var s := SectorEdges(lines, sides, sectorCount, t, n);
      assert s == prefix + last;
      forall i, j | 0 <= i < j < |s| ensures s[i].line <= s[j].line {
        if j < |prefix| {
          assert s[i] == prefix[i] && s[j] == prefix[j];
        } else {
          assert s[j] == last[j - |prefix|];
          if i < |prefix| {
            assert s[i] == prefix[i];
          } else {
            assert s[i] == last[i - |prefix|];
          }
        }
      }
    }
  }

  /**
   * Two-sided lines: the back edge is filed under the front side's sector,
   * and its Destination is the front sidedef's index.
   */
  lemma BackEdgeInFrontSector(lines: seq<LineDef>, sides: seq<SideDef>, sectorCount: nat, L: nat)
    requires LinesSafe(lines, sides, sectorCount) && L < |lines|
    requires Defined(lines[L].frontSideDef) && Defined(lines[L].backSideDef)
    ensures lines[L].frontSideDef < |sides|
    ensures Edge(L, true, lines[L].backSideDef, lines[L].frontSideDef) in
      SectorEdges(lines, sides, sectorCount, sides[lines[L].frontSideDef].sectorId, |lines|)
  {
    assert LineEdges(lines, L)[1] == Edge(L, true, lines[L].backSideDef, lines[L].frontSideDef);
    SectorEdgesMembers(lines, sides, sectorCount, sides[lines[L].frontSideDef].sectorId, |lines|);
  }

  /** The number of edges held by a cache. */
  function EdgeCount(cache: seq<SectorInfo>): nat
    decreases |cache|
  {
    if cache == [] then 0 else EdgeCount(cache[..|cache| - 1]) + |cache[|cache| - 1].edges|
  }

  /** The number of defined sides among the first n lines. */
  function DefinedSides(lines: seq<LineDef>, n: nat): nat
    requires n <= |lines|
  {
    if n == 0 then 0
    else DefinedSides(lines, n - 1) + (if Defined(lines[n - 1].frontSideDef) then 1 else 0)
                                    + (if Defined(lines[n - 1].backSideDef) then 1 else 0)
  }

  lemma {:induction false} EdgeCountAppend(cache: seq<SectorInfo>, t: nat, es: seq<Edge>)
    requires t < |cache|
    ensures EdgeCount(AppendEdges(cache, t, es)) == EdgeCount(cache) + |es|
    decreases |cache|
  {
    var r := AppendEdges(cache, t, es);
    var last := |cache| - 1;
    if t == last {
      assert r[..last] == cache[..last];
    } else {
      EdgeCountAppend(cache[..last], t, es);
      assert r[..last] == AppendEdges(cache[..last], t, es);
    }
  }

  /** The edge loop adds one edge per defined side: no side is lost or counted twice. */
  lemma {:induction false} CacheLineEdgesCount(cache: seq<SectorInfo>, lines: seq<LineDef>, sides: seq<SideDef>, n: nat)
    requires LinesSafe(lines, sides, |cache|) && n <= |lines|
    ensures EdgeCount(CacheLineEdges(cache, lines, sides, n)) == EdgeCount(cache) + DefinedSides(lines, n)
  {
    if n > 0 {
      CacheLineEdgesCount(cache, lines, sides, n - 1);
      var c := CacheLineEdges(cache, lines, sides, n - 1);
      assert CacheLineEdges(cache, lines, sides, n) == AddLineEdges(c, lines, sides, n - 1);
      if LineEdges(lines, n - 1) != [] {
        EdgeCountAppend(c, EdgeSector(lines, sides, n - 1), LineEdges(lines, n - 1));
      }
    }
  }

  // -----------------------------------------------------------------------
  // Subsectors
  // -----------------------------------------------------------------------

  /** The side a GL seg runs along: the back side when its direction is non-zero. */
  function SegSide(line: LineDef, seg: GLSeg): nat {
    if seg.direction != 0 then line.backSideDef else line.frontSideDef
  }

  /** The first seg, its line, that line's side and the side's sector are all in range (unchecked in the source). */
  predicate SubSectorsSafe(subs: seq<GLSubSector>, segs: seq<GLSeg>, lines: seq<LineDef>, sides: seq<SideDef>, sectorCount: nat) {
    forall s :: 0 <= s < |subs| ==>
      subs[s].startSegment < |segs| &&
      segs[subs[s].startSegment].lineIndex < |lines| &&
      SegSide(lines[segs[subs[s].startSegment].lineIndex], segs[subs[s].startSegment]) < |sides| &&
      sides[SegSide(lines[segs[subs[s].startSegment].lineIndex], segs[subs[s].startSegment])].sectorId < sectorCount
  }

  /** The sector subsector s is filed under: that of the side its first seg runs along. */
  function Owner(subs: seq<GLSubSector>, segs: seq<GLSeg>, lines: seq<LineDef>, sides: seq<SideDef>, sectorCount: nat, s: nat): (r: nat)
    requires SubSectorsSafe(subs, segs, lines, sides, sectorCount) && s < |subs|
    ensures r < sectorCount
  {
    var seg := segs[subs[s].startSegment];
    sides[SegSide(lines[seg.lineIndex], seg)].sectorId
  }

  /** The cache after the subsector loop has run over the first n subsectors. */
  function CacheSubSectors(cache: seq<SectorInfo>, subs: seq<GLSubSector>, segs: seq<GLSeg>, lines: seq<LineDef>,
                           sides: seq<SideDef>, n: nat): (r: seq<SectorInfo>)
    requires SubSectorsSafe(subs, segs, lines, sides, |cache|) && n <= |subs|
    ensures |r| == |cache|
  {
    if n == 0 then cache
    else
      var c := CacheSubSectors(cache, subs, segs, lines, sides, n - 1);
      var t := Owner(subs, segs, lines, sides, |cache|, n - 1);
      c[t := c[t].(subSectors := c[t].subSectors + [n - 1])]
  }

  /** Reference definition: the subsectors below n owned by sector t, in increasing order. */
  function OwnedSubSectors(subs: seq<GLSubSector>, segs: seq<GLSeg>, lines: seq<LineDef>, sides: seq<SideDef>,
                           sectorCount: nat, t: nat, n: nat): seq<nat>
    requires SubSectorsSafe(subs, segs, lines, sides, sectorCount) && n <= |subs|
  {
    if n == 0 then []
    else
      OwnedSubSectors(subs, segs, lines, sides, sectorCount, t, n - 1) +
      (if Owner(subs, segs, lines, sides, sectorCount, n - 1) == t then [n - 1] else [])
  }

  /** The subsector loop appends to each sector exactly the subsectors it owns, and leaves its edges alone. */
  lemma {:induction false} CacheSubSectorsPerSector(cache: seq<SectorInfo>, subs: seq<GLSubSector>, segs: seq<GLSeg>,
                                                    lines: seq<LineDef>, sides: seq<SideDef>, n: nat, t: nat)
    requires SubSectorsSafe(subs, segs, lines, sides, |cache|) && n <= |subs| && t < |cache|
    ensures CacheSubSectors(cache, subs, segs, lines, sides, n)[t] ==
      SectorInfo(cache[t].edges, cache[t].subSectors + OwnedSubSectors(subs, segs, lines, sides, |cache|, t, n))
  {
    if n > 0 {
      CacheSubSectorsPerSector(cache, subs, segs, lines, sides, n - 1, t);
    }
  }

  /**
   * Sector t's subsectors are exactly those below n that it owns, each
   * once, in increasing order; so every subsector is listed by exactly one
   * sector.
   */
  lemma {:induction false} OwnedSubSectorsSpec(subs: seq<GLSubSector>, segs: seq<GLSeg>, lines: seq<LineDef>,
                                               sides: seq<SideDef>, sectorCount: nat, t: nat, n: nat)
    requires SubSectorsSafe(subs, segs, lines, sides, sectorCount) && n <= |subs|
    ensures forall s: nat :: s in OwnedSubSectors(subs, segs, lines, sides, sectorCount, t, n) <==>
      s < n && Owner(subs, segs, lines, sides, sectorCount, s) == t
    ensures forall i, j :: 0 <= i < j < |OwnedSubSectors(subs, segs, lines, sides, sectorCount, t, n)| ==>
      OwnedSubSectors(subs, segs, lines, sides, sectorCount, t, n)[i] <
      OwnedSubSectors(subs, segs, lines, sides, sectorCount, t, n)[j]
  {
    if n > 0 {
      OwnedSubSectorsSpec(subs, segs, lines, sides, sectorCount, t, n - 1);
      var prefix := OwnedSubSectors(subs, segs, lines, sides, sectorCount, t, n - 1);
      var o := OwnedSubSectors(subs, segs, lines, sides, sectorCount, t, n);
      forall i, j | 0 <= i < j < |o| ensures o[i] < o[j] {
        if j < |prefix| {
          assert o[i] == prefix[i] && o[j] == prefix[j];
        } else {
          assert o[i] == prefix[i] && prefix[i] in prefix;
        }
      }
    }
  }

  // -----------------------------------------------------------------------
  // Leaves of the node tree
  // -----------------------------------------------------------------------

  /** The two child fields of a node record. */
  datatype NodeChildren = NodeChildren(right: uint16, left: uint16)

  /** `child & (1 << 15)`: the child is a subsector. */
  predicate IsLeaf(child: uint16) {
    child >= 0x8000
  }

  /** `child & ~(1 << 15)`, truncated to 16 bits. */
  function ClearLeafBit(child: uint16): (r: uint16)
    ensures r < 0x8000
    ensures IsLeaf(child) ==> r + 0x8000 == child
    ensures !IsLeaf(child) ==> r == child
  {
    child % 0x8000
  }

  /**
   * The child fields as NodesLump::Parse leaves them.  The parse copies each
   * 28-byte record over the first 28 bytes of a Node, and the first 48
   * bytes of a Node are two Vector2 and two Rectangle of floats; the fields
   * after them, children included, keep the zero that `resize` gave them.
   */
  function ParsedChildren(nodes: seq<Node>): seq<NodeChildren> {
    seq(|nodes|, _ => NodeChildren(0, 0))
  }

  /**
   * As written, FindLeafs never ends on a parsed NODES lump: every node's
   * right child is node 0, which is not a leaf, so the children are not a
   * well-founded tree and node 0 recurses into itself.
   */
  lemma ParsedChildrenNeverEnd(nodes: seq<Node>)
    requires |nodes| > 0
    ensures forall n :: 0 <= n < |nodes| ==> ParsedChildren(nodes)[n].right == 0 && !IsLeaf(ParsedChildren(nodes)[n].right)
    ensures !ValidTree(ParsedChildren(nodes))
  {
    assert ParsedChildren(nodes)[0] == NodeChildren(0, 0);
  }

  /** The evident intent: a node's children are the record's last two u16 fields, right at byte 24, left at byte 26. */
  function RecordChildren(raw: seq<byte>): NodeChildren
    requires |raw| == NodeReadSize
  {
    NodeChildren(LE16(raw[24], raw[25]), LE16(raw[26], raw[27]))
  }

  /** A record whose last four bytes encode two children reads them back, whatever its first 24 bytes. */
  lemma RecordChildrenEncoded(front: seq<byte>, right: uint16, left: uint16)
    requires |front| == 24
    ensures |front + EncodeU16(right) + EncodeU16(left)| == NodeReadSize
    ensures RecordChildren(front + EncodeU16(right) + EncodeU16(left)) == NodeChildren(right, left)
  {
    var raw := front + EncodeU16(right) + EncodeU16(left);
    assert raw[24] == EncodeU16(right)[0] && raw[25] == EncodeU16(right)[1];
    assert raw[26] == EncodeU16(left)[0] && raw[27] == EncodeU16(left)[1];
    LE16OfEncode(right);
    LE16OfEncode(left);
  }

  /**
   * Every node child that is not a leaf has a smaller index than its parent,
   * as node builders emit them; the recursion of FindLeafs relies on it and
   * checks nothing.
   */
  predicate ValidTree(tree: seq<NodeChildren>) {
    forall n :: 0 <= n < |tree| ==>
      (!IsLeaf(tree[n].right) ==> tree[n].right < n) && (!IsLeaf(tree[n].left) ==> tree[n].left < n)
  }

  /** The subsector numbers FindLeafs(n) inserts. */
  function LeafSet(tree: seq<NodeChildren>, n: nat): set<nat>
    requires ValidTree(tree) && n < |tree|
    decreases n
  {
    var node := tree[n];
    (if IsLeaf(node.right) then {ClearLeafBit(node.right) as nat} else LeafSet(tree, node.right)) +
    (if IsLeaf(node.left) then {ClearLeafBit(node.right) as nat} else LeafSet(tree, node.left))
  }

  /** Node m lies in the subtree of node n. */
  predicate Reachable(tree: seq<NodeChildren>, n: nat, m: nat)
    requires ValidTree(tree) && n < |tree|
    decreases n
  {
    m == n ||
    (!IsLeaf(tree[n].right) && Reachable(tree, tree[n].right, m)) ||
    (!IsLeaf(tree[n].left) && Reachable(tree, tree[n].left, m))
  }

  predicate HasLeafChild(node: NodeChildren) {
    IsLeaf(node.right) || IsLeaf(node.left)
  }

  lemma {:induction false} ReachableBelow(tree: seq<NodeChildren>, n: nat, m: nat)
    requires ValidTree(tree) && n < |tree| && Reachable(tree, n, m)
    ensures m <= n
    decreases n
  {
    if m != n {
      if !IsLeaf(tree[n].right) && Reachable(tree, tree[n].right, m) {
        ReachableBelow(tree, tree[n].right, m);
      } else {
        ReachableBelow(tree, tree[n].left, m);
      }
    }
  }

  /**
   * Every number FindLeafs records is the cleared right child of a node of
   * the subtree that has a leaf child: below 0x8000, and never taken from a
   * left child.
   */
  lemma {:induction false} LeafSetSound(tree: seq<NodeChildren>, n: nat, x: nat)
    requires ValidTree(tree) && n < |tree| && x in LeafSet(tree, n)
    ensures x < 0x8000
    ensures exists m :: 0 <= m < |tree| && Reachable(tree, n, m) && HasLeafChild(tree[m]) && x == ClearLeafBit(tree[m].right)
    decreases n
  {
    var node := tree[n];
    if IsLeaf(node.right) && x == ClearLeafBit(node.right) as nat {
      assert Reachable(tree, n, n);
    } else if IsLeaf(node.left) && x == ClearLeafBit(node.right) as nat {
      assert Reachable(tree, n, n);
    } else if !IsLeaf(node.right) && x in LeafSet(tree, node.right) {
      LeafSetSound(tree, node.right, x);
      var m :| 0 <= m < |tree| && Reachable(tree, node.right, m) && HasLeafChild(tree[m]) && x == ClearLeafBit(tree[m].right);
      assert Reachable(tree, n, m);
    } else {
      LeafSetSound(tree, node.left, x);
      var m :| 0 <= m < |tree| && Reachable(tree, node.left, m) && HasLeafChild(tree[m]) && x == ClearLeafBit(tree[m].right);
      assert Reachable(tree, n, m);
    }
  }

  /** Conversely, every node of the subtree with a leaf child contributes its cleared right child. */
  lemma {:induction false} LeafSetComplete(tree: seq<NodeChildren>, n: nat, m: nat)
    requires ValidTree(tree) && n < |tree| && m < |tree| && Reachable(tree, n, m) && HasLeafChild(tree[m])
    ensures ClearLeafBit(tree[m].right) as nat in LeafSet(tree, n)
    decreases n
  {
    if m != n {
      if !IsLeaf(tree[n].right) && Reachable(tree, tree[n].right, m) {
        LeafSetComplete(tree, tree[n].right, m);
      } else {
        LeafSetComplete(tree, tree[n].left, m);
      }
    }
  }

  /** A node with two leaf children records its right subsector only. */
  lemma LeftLeafRecordsRightChild(tree: seq<NodeChildren>, n: nat)
    requires ValidTree(tree) && n < |tree| && IsLeaf(tree[n].right) && IsLeaf(tree[n].left)
    ensures LeafSet(tree, n) == {ClearLeafBit(tree[n].right) as nat}
  {
  }
}
