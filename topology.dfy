/** The table updates of the PostGIS topology procedures. One topology's
    tables are the fields of a class: the winged-edge edge_data table, the
    node table, its layers, and the relation table that binds
    TopoGeometries to their elements. Each procedure is a method that
    checks its arguments against the tables and then changes them.
    Spatial tests (within, the node and edge intersection scans,
    line_substring) and sequence values are parameters. */
module Topology {
  import opened Wrappers

  /** The messages the procedures raise. */
  const ELEMENT_MISMATCH := "TopoGeom element does not match the layer"
  const DUPLICATE_KEY := "duplicate key value violates unique constraint"
  const EQUALS_TOPOLOGIES := "Cannot compare TopoGeometries from different topologies"
  const EQUALS_COLLECTION := "GeometryCollection are not supported by equals()"
  const BAD_LAYER_TYPE := "Layer type must be one of POINT,LINE,POLYGON,COLLECTION"
  const NULL_QUERY := "cannot EXECUTE a null query string"
  const BAD_TOPOGEOM_TYPE := "Invalid TopoGeometry type (must be in the range 1..4"
  const NO_SUCH_LAYER := "No layer with this id is registered with the topology"
  const LAYER_TYPE_MISMATCH := "A Layer of this type cannot contain a TopoGeometry of this type"
  const SQLMM_NO_EDGE := "SQL/MM Spatial exception - non-existent edge"
  const SQLMM_NOT_ON_EDGE := "SQL/MM Spatial exception - point not on edge"
  const SQLMM_COINCIDENT_NODE := "SQL/MM Spatial exception - coincident node"
  const SQLMM_EDGE_NOT_ISOLATED := "SQL/MM Spatial exception - not isolated edge"
  const SQLMM_DIFFERENT_FACES := "SQL/MM Spatial exception - nodes in different faces"
  const SQLMM_NO_NODE := "SQL/MM Spatial exception - non-existent node"
  const SQLMM_NODE_NOT_ISOLATED := "SQL/MM Spatial exception - not isolated node"
  const SQLMM_INVALID_CURVE := "SQL/MM Spatial exception - invalid curve"
  const INTERSECTS_TOPOLOGIES := "Cannot compute intersection between TopoGeometries from different topologies"
  const INTERSECTS_COLLECTION := "GeometryCollection are not supported by intersects()"
  const INTERSECTS_HIERARCHICAL := "Hierarchical TopoGeometries are not currently supported by intersects()"

  function Abs(x: int): nat {
    if x < 0 then -x else x
  }

  /** A row of edge_data (the geometry column is not modelled). Its next
      edges are signed edge ids, and the abs columns are what the foreign
      keys check. */
  datatype Edge = Edge(
    start: int, end: int,
    nextLeft: int, absNextLeft: int,
    nextRight: int, absNextRight: int,
    leftFace: int, rightFace: int)

  /** A node row: only its containing face matters here (NULL is None). */
  datatype Node = Node(face: Option<int>)

  /** A row of topology.layer for this topology. */
  datatype Layer = Layer(featureType: int, level: int, child: Option<int>)

  /** A row of the relation table. */
  datatype Rel = Rel(topogeo: int, layer: int, element: int, etype: int)

  /** A TopoGeometry value. */
  datatype TopoGeom = TopoGeom(topology: int, layer: int, id: int, typ: int)

  /** The edge view's insert rule: it stores the abs columns from the signed
      next edges. */
  function EdgeRow(start: int, end: int, nextLeft: int, nextRight: int, leftFace: int, rightFace: int): (e: Edge)
    ensures AbsConsistent(e)
  {
    Edge(start, end, nextLeft, Abs(nextLeft), nextRight, Abs(nextRight), leftFace, rightFace)
  }

  predicate AbsConsistent(e: Edge) {
    e.absNextLeft == Abs(e.nextLeft) && e.absNextRight == Abs(e.nextRight)
  }

  predicate AllAbsConsistent(edges: map<int, Edge>) {
    forall id :: id in edges ==> AbsConsistent(edges[id])
  }

  /** The foreign keys on abs_next_left_edge and abs_next_right_edge hold. */
  predicate References(edges: map<int, Edge>) {
    forall id {:trigger RefsIn(edges[id], edges.Keys)} :: id in edges ==> RefsIn(edges[id], edges.Keys)
  }

  /** Both next edges of a row are among keys. */
  predicate RefsIn(e: Edge, keys: set<int>) {
    e.absNextLeft in keys && e.absNextRight in keys
  }

  /** One row under UPDATE edge_data SET next_right_edge = to,
      abs_next_right_edge = absTo WHERE next_right_edge = from. */
  function StepRight(e: Edge, from: int, to: int, absTo: int): Edge {
    if e.nextRight == from then e.(nextRight := to, absNextRight := absTo) else e
  }

  /** One row under the same UPDATE of next_left_edge. */
  function StepLeft(e: Edge, from: int, to: int, absTo: int): Edge {
    if e.nextLeft == from then e.(nextLeft := to, absNextLeft := absTo) else e
  }

  /** Two rows of one edge with the same endpoints and faces. */
  predicate SameEnds(e: Edge, f: Edge) {
    e.start == f.start && e.end == f.end && e.leftFace == f.leftFace && e.rightFace == f.rightFace
  }

  /** Two tables with the same edges, each with the same endpoints and
      faces: only next edges differ. */
  predicate SameShape(a: map<int, Edge>, b: map<int, Edge>) {
    a.Keys == b.Keys && forall id :: id in a ==> SameEnds(a[id], b[id])
  }

  /** The right-side UPDATE on the whole table, leaving out the rows in keep. */
  function RewireRight(edges: map<int, Edge>, from: int, to: int, absTo: int, keep: set<int>): (r: map<int, Edge>)
    ensures r.Keys == edges.Keys
    ensures forall id :: id in r ==> r[id] == if id in keep then edges[id] else StepRight(edges[id], from, to, absTo)
    ensures SameShape(edges, r)
  {
    map id | id in edges :: if id in keep then edges[id] else StepRight(edges[id], from, to, absTo)
  }

  /** The left-side UPDATE on the whole table. */
  function RewireLeft(edges: map<int, Edge>, from: int, to: int, absTo: int): (r: map<int, Edge>)
    ensures r.Keys == edges.Keys
    ensures forall id :: id in r ==> r[id] == StepLeft(edges[id], from, to, absTo)
    ensures SameShape(edges, r)
  {
    map id | id in edges :: StepLeft(edges[id], from, to, absTo)
  }

  // ---------------------------------------------------------------------
  // ST_NewEdgesSplit on edge_data

  /** Where a next_right reference goes once anedge is split into e1 (its
      first half) and e2 (its second half). */
  function RedirectRight(x: int, anedge: int, e1: int, e2: int): int {
    if x == anedge then e2 else if x == -anedge then -e1 else x
  }

  /** Where a next_left reference goes once anedge is split. */
  function RedirectLeft(x: int, anedge: int, e1: int, e2: int): int {
    if x == anedge then e1 else if x == -anedge then -e2 else x
  }

  /** An edge after the four UPDATEs of ST_NewEdgesSplit: each next edge
      that named ±anedge is redirected and its abs column rewritten; the
      rest of the row is untouched. */
  function Redirected(e: Edge, anedge: int, e1: int, e2: int): Edge {
    var right := e.nextRight == anedge || e.nextRight == -anedge;
    var left := e.nextLeft == anedge || e.nextLeft == -anedge;
    e.(nextRight := RedirectRight(e.nextRight, anedge, e1, e2),
       absNextRight := if right then Abs(RedirectRight(e.nextRight, anedge, e1, e2)) else e.absNextRight,
       nextLeft := RedirectLeft(e.nextLeft, anedge, e1, e2),
       absNextLeft := if left then Abs(RedirectLeft(e.nextLeft, anedge, e1, e2)) else e.absNextLeft)
  }

  /** The four UPDATEs of ST_NewEdgesSplit, applied in order to one row,
      redirect it. */
  lemma RedirectedSteps(e: Edge, anedge: int, e1: int, e2: int)
    requires anedge > 0 && e1 > 0 && e2 > 0
    ensures StepLeft(StepLeft(StepRight(StepRight(e, anedge, e2, e2), -anedge, -e1, e1), anedge, e1, e1), -anedge, -e2, e2)
      == Redirected(e, anedge, e1, e2)
  {
  }

  /** edge_data once ST_NewEdgesSplit has deleted the old edge and
      inserted its two halves, before the UPDATEs. */
  function Halves(edges: map<int, Edge>, anedge: int, nodeid: int, e1: int, e2: int): map<int, Edge>
    requires anedge in edges
  {
    var o := edges[anedge];
    (edges - {anedge})
      [e1 := EdgeRow(o.start, nodeid, e2, o.nextRight, o.leftFace, o.rightFace)]
      [e2 := EdgeRow(nodeid, o.end, o.nextLeft, -e1, o.leftFace, o.rightFace)]
  }

  /** edge_data after ST_NewEdgesSplit: the halves in place of the old
      edge, then every reference to ±anedge rewritten. The table loses the
      old edge and gains the halves, which run from its start to the node
      and from the node to its end; no other row moves or changes faces. */
  function SplitEdges(edges: map<int, Edge>, anedge: int, nodeid: int, e1: int, e2: int): (r: map<int, Edge>)
    requires anedge in edges
    ensures r.Keys == edges.Keys - {anedge} + {e1, e2}
    ensures e1 != e2 ==> r[e1].start == edges[anedge].start && r[e1].end == nodeid
    ensures r[e2].start == nodeid && r[e2].end == edges[anedge].end
    ensures forall id :: id in r && id != e1 && id != e2 ==> SameEnds(r[id], edges[id])
  {
    var r1 := RewireRight(Halves(edges, anedge, nodeid, e1, e2), anedge, e2, e2, {});
    var r2 := RewireRight(r1, -anedge, -e1, e1, {});
    var l1 := RewireLeft(r2, anedge, e1, e1);
    RewireLeft(l1, -anedge, -e2, e2)
  }

  /** One row of the split table. */
  lemma SplitEdgesAt(edges: map<int, Edge>, anedge: int, nodeid: int, e1: int, e2: int, id: int)
    requires anedge in edges && anedge > 0 && e1 > 0 && e2 > 0
    requires id in Halves(edges, anedge, nodeid, e1, e2)
    ensures id in SplitEdges(edges, anedge, nodeid, e1, e2)
    ensures SplitEdges(edges, anedge, nodeid, e1, e2)[id] == Redirected(Halves(edges, anedge, nodeid, e1, e2)[id], anedge, e1, e2)
  {
    RedirectedSteps(Halves(edges, anedge, nodeid, e1, e2)[id], anedge, e1, e2);
  }

  /** The split state edge by edge: the two halves start and end where the
      old edge and the new node are, keep the old faces, point at each
      other, and carry the old edge's outer next edges (redirected); every
      other edge is only redirected. */
  lemma SplitEdgesPointwise(edges: map<int, Edge>, anedge: int, nodeid: int, e1: int, e2: int)
    requires anedge in edges && anedge > 0
    requires e1 !in edges && e2 !in edges && e1 != e2 && e1 > 0 && e2 > 0
    ensures var s := SplitEdges(edges, anedge, nodeid, e1, e2);
      var o := edges[anedge];
      && s.Keys == edges.Keys - {anedge} + {e1, e2}
      && s[e1] == Redirected(EdgeRow(o.start, nodeid, e2, o.nextRight, o.leftFace, o.rightFace), anedge, e1, e2)
      && s[e2] == Redirected(EdgeRow(nodeid, o.end, o.nextLeft, -e1, o.leftFace, o.rightFace), anedge, e1, e2)
      && s[e1].nextLeft == e2 && s[e2].nextRight == -e1
      && s[e1].start == o.start && s[e1].end == nodeid && s[e2].start == nodeid && s[e2].end == o.end
      && s[e1].leftFace == s[e2].leftFace == o.leftFace && s[e1].rightFace == s[e2].rightFace == o.rightFace
      && forall id :: id in edges && id != anedge ==> s[id] == Redirected(edges[id], anedge, e1, e2)
  {
    var h := Halves(edges, anedge, nodeid, e1, e2);
    SplitEdgesAt(edges, anedge, nodeid, e1, e2, e1);
    SplitEdgesAt(edges, anedge, nodeid, e1, e2, e2);
    forall id | id in edges && id != anedge
      ensures SplitEdges(edges, anedge, nodeid, e1, e2)[id] == Redirected(edges[id], anedge, e1, e2)
    {
      assert h[id] == edges[id];
      SplitEdgesAt(edges, anedge, nodeid, e1, e2, id);
    }
  }

  /** A redirected row names neither direction of the split edge, and keeps
      its abs columns consistent. */
  lemma RedirectedClean(e: Edge, anedge: int, e1: int, e2: int)
    requires anedge > 0 && e1 > 0 && e2 > 0 && e1 != anedge && e2 != anedge
    requires AbsConsistent(e)
    ensures var r := Redirected(e, anedge, e1, e2);
      r.nextLeft != anedge && r.nextLeft != -anedge && r.nextRight != anedge && r.nextRight != -anedge
      && AbsConsistent(r)
  {
  }

  /** After the split no next edge names the old edge in either direction,
      and the abs columns still agree with the signed ones. */
  lemma SplitEdgesNoDangling(edges: map<int, Edge>, anedge: int, nodeid: int, e1: int, e2: int)
    requires anedge in edges && anedge > 0
    requires e1 !in edges && e2 !in edges && e1 != e2 && e1 > 0 && e2 > 0
    requires AllAbsConsistent(edges)
    ensures var s := SplitEdges(edges, anedge, nodeid, e1, e2);
      && s.Keys == edges.Keys - {anedge} + {e1, e2}
      && (PositiveIds(edges) ==> PositiveIds(s))
      && (forall id :: id in s ==>
            s[id].nextLeft != anedge && s[id].nextLeft != -anedge
            && s[id].nextRight != anedge && s[id].nextRight != -anedge)
      && AllAbsConsistent(s)
  {
    var h := Halves(edges, anedge, nodeid, e1, e2);
    var s := SplitEdges(edges, anedge, nodeid, e1, e2);
    assert h.Keys == edges.Keys - {anedge} + {e1, e2};
    forall id | id in s
      ensures s[id].nextLeft != anedge && s[id].nextLeft != -anedge
      ensures s[id].nextRight != anedge && s[id].nextRight != -anedge
      ensures AbsConsistent(s[id])
    {
      SplitEdgesAt(edges, anedge, nodeid, e1, e2, id);
      assert AbsConsistent(h[id]);
      RedirectedClean(h[id], anedge, e1, e2);
    }
  }

  /** The split keeps the foreign keys: every next edge still exists. */
  lemma SplitEdgesReferences(edges: map<int, Edge>, anedge: int, nodeid: int, e1: int, e2: int)
    requires anedge in edges && anedge > 0
    requires e1 !in edges && e2 !in edges && e1 != e2 && e1 > 0 && e2 > 0
    requires AllAbsConsistent(edges) && References(edges)
    ensures References(SplitEdges(edges, anedge, nodeid, e1, e2))
  {
    SplitEdgesPointwise(edges, anedge, nodeid, e1, e2);
    var s := SplitEdges(edges, anedge, nodeid, e1, e2);
    var o := edges[anedge];
    var keys := edges.Keys + {e1, e2};
    assert s.Keys == keys - {anedge} + {e1, e2};
    assert RefsIn(o, edges.Keys);
    forall id | id in s
      ensures RefsIn(s[id], s.Keys)
    {
      if id == e1 {
        RedirectedRefs(EdgeRow(o.start, nodeid, e2, o.nextRight, o.leftFace, o.rightFace), keys, anedge, e1, e2);
      } else if id == e2 {
        RedirectedRefs(EdgeRow(nodeid, o.end, o.nextLeft, -e1, o.leftFace, o.rightFace), keys, anedge, e1, e2);
      } else {
        assert RefsIn(edges[id], edges.Keys);
        RedirectedRefs(edges[id], keys, anedge, e1, e2);
      }
    }
  }

  /** A redirected row names only the halves or edges other than the split
      one. */
  lemma RedirectedRefs(e: Edge, keys: set<int>, anedge: int, e1: int, e2: int)
    requires anedge > 0 && e1 > 0 && e2 > 0 && e1 in keys && e2 in keys
    requires AbsConsistent(e) && RefsIn(e, keys)
    ensures RefsIn(Redirected(e, anedge, e1, e2), keys - {anedge} + {e1, e2})
  {
  }

  // ---------------------------------------------------------------------
  // ST_ModEdgesSplit on edge_data

  /** edge_data after ST_ModEdgesSplit as the source writes it: the new
      edge is inserted with next_right = -anedge, the old edge is cut at the
      node, and then every next_right of -anedge, the new edge's own
      included, becomes -newid. abs_next_left_edge of the old edge is left
      as it was. The endpoints come out as intended: the old edge now ends
      at the node, the new edge runs from the node to the old end, and no
      other row moves or changes faces. */
  function ModSplitEdgesAsWritten(edges: map<int, Edge>, anedge: int, nodeid: int, newid: int): (r: map<int, Edge>)
    requires anedge in edges && newid != anedge
    ensures r.Keys == edges.Keys + {newid}
    ensures r[anedge].start == edges[anedge].start && r[anedge].end == nodeid
    ensures r[newid].start == nodeid && r[newid].end == edges[anedge].end
    ensures forall id :: id in r && id != anedge && id != newid ==> SameEnds(r[id], edges[id])
  {
    var o := edges[anedge];
    var inserted := edges[newid := EdgeRow(nodeid, o.end, o.nextLeft, -anedge, o.leftFace, o.rightFace)];
    var cut := inserted[anedge := o.(nextLeft := newid, end := nodeid)];
    var r := RewireRight(cut, -anedge, -newid, newid, {});
    RewireLeft(r, -anedge, -newid, newid)
  }

  /** ST_ModEdgesSplit as evidently intended: the right-side UPDATE leaves
      the new edge alone, and the old edge's abs_next_left_edge follows its
      new next_left_edge. */
  function ModSplitEdges(edges: map<int, Edge>, anedge: int, nodeid: int, newid: int): map<int, Edge>
    requires anedge in edges && newid != anedge
  {
    var o := edges[anedge];
    var inserted := edges[newid := EdgeRow(nodeid, o.end, o.nextLeft, -anedge, o.leftFace, o.rightFace)];
    var cut := inserted[anedge := o.(nextLeft := newid, absNextLeft := newid, end := nodeid)];
    var r := RewireRight(cut, -anedge, -newid, newid, {newid});
    RewireLeft(r, -anedge, -newid, newid)
  }

  /** As written, the new edge's next_right always ends up as its own
      reverse, and the old edge's abs_next_left_edge disagrees with its
      next_left_edge, for every edge that can be split. */
  lemma ModSplitAsWrittenBreaks(edges: map<int, Edge>, anedge: int, nodeid: int, newid: int)
    requires anedge in edges && anedge > 0 && newid !in edges && newid > 0
    requires References(edges)
    ensures ModSplitEdgesAsWritten(edges, anedge, nodeid, newid)[newid].nextRight == -newid
    ensures !AbsConsistent(ModSplitEdgesAsWritten(edges, anedge, nodeid, newid)[anedge])
  {
    var o := edges[anedge];
    var inserted := edges[newid := EdgeRow(nodeid, o.end, o.nextLeft, -anedge, o.leftFace, o.rightFace)];
    var cut := inserted[anedge := o.(nextLeft := newid, end := nodeid)];
    var r := RewireRight(cut, -anedge, -newid, newid, {});
    var s := RewireLeft(r, -anedge, -newid, newid);
    assert cut[newid].nextRight == -anedge;
    assert r[newid].nextRight == -newid;
    assert s[newid] == StepLeft(r[newid], -anedge, -newid, newid);
    assert RefsIn(o, edges.Keys);
    assert cut[anedge].absNextLeft == o.absNextLeft != newid;
    assert s[anedge] == StepLeft(StepRight(cut[anedge], -anedge, -newid, newid), -anedge, -newid, newid);
  }

  /** The intended split: the old edge now ends at the node and turns onto
      the new edge, and the new edge runs from the node to the old end,
      keeps the old faces and turns back onto the old edge. */
  lemma ModSplitEdgesShape(edges: map<int, Edge>, anedge: int, nodeid: int, newid: int)
    requires anedge in edges && anedge > 0 && newid !in edges && newid > 0
    ensures var s := ModSplitEdges(edges, anedge, nodeid, newid);
      var o := edges[anedge];
      && s.Keys == edges.Keys + {newid}
      && s[anedge].start == o.start && s[anedge].end == nodeid && s[anedge].nextLeft == newid
      && s[newid].start == nodeid && s[newid].end == o.end && s[newid].nextRight == -anedge
      && s[newid].nextLeft == (if o.nextLeft == -anedge then -newid else o.nextLeft)
      && s[newid].leftFace == o.leftFace && s[newid].rightFace == o.rightFace
  {
    var o := edges[anedge];
    var inserted := edges[newid := EdgeRow(nodeid, o.end, o.nextLeft, -anedge, o.leftFace, o.rightFace)];
    var cut := inserted[anedge := o.(nextLeft := newid, absNextLeft := newid, end := nodeid)];
    var s := ModSplitEdges(edges, anedge, nodeid, newid);
    assert s[anedge] == StepLeft(StepRight(cut[anedge], -anedge, -newid, newid), -anedge, -newid, newid);
    assert s[newid] == StepLeft(cut[newid], -anedge, -newid, newid);
  }

  /** After the intended split, only the new edge names -anedge (as its
      next right edge), and the abs columns stay consistent. */
  lemma ModSplitEdgesClean(edges: map<int, Edge>, anedge: int, nodeid: int, newid: int)
    requires anedge in edges && anedge > 0 && newid !in edges && newid > 0
    requires AllAbsConsistent(edges)
    ensures var s := ModSplitEdges(edges, anedge, nodeid, newid);
      && (forall id :: id in s && id != newid ==> s[id].nextRight != -anedge)
      && (forall id :: id in s ==> s[id].nextLeft != -anedge)
      && AllAbsConsistent(s)
  {
    var o := edges[anedge];
    var inserted := edges[newid := EdgeRow(nodeid, o.end, o.nextLeft, -anedge, o.leftFace, o.rightFace)];
    var cut := inserted[anedge := o.(nextLeft := newid, absNextLeft := newid, end := nodeid)];
    var r := RewireRight(cut, -anedge, -newid, newid, {newid});
    var s := ModSplitEdges(edges, anedge, nodeid, newid);
    forall id | id in s
      ensures id != newid ==> s[id].nextRight != -anedge
      ensures s[id].nextLeft != -anedge && AbsConsistent(s[id])
    {
      assert AbsConsistent(cut[id]);
      assert s[id] == StepLeft(r[id], -anedge, -newid, newid);
      if id != newid {
        assert r[id] == StepRight(cut[id], -anedge, -newid, newid);
      }
    }
  }

  // ---------------------------------------------------------------------
  // Relation rewrites of the two splits

  /** The relation rows the split procedures look up: level-0 layers, edge
      elements (type 2) naming ±anedge. */
  function Matches(relation: set<Rel>, layers: map<int, Layer>, anedge: int): set<Rel> {
    set r | r in relation && r.etype == 2 && Abs(r.element) == anedge && r.layer in layers && layers[r.layer].level == 0
  }

  /** A new edge id with the sign of the row's element. */
  function Signed(r: Rel, id: int): int {
    if r.element < 0 then -id else id
  }

  function Retargeted(ms: set<Rel>, id: int): set<Rel> {
    set r | r in ms :: Rel(r.topogeo, r.layer, Signed(r, id), r.etype)
  }

  /** relation after ST_NewEdgesSplit: each matching row is replaced by one
      row for each half, with the same sign. */
  function SplitRelation(relation: set<Rel>, layers: map<int, Layer>, anedge: int, e1: int, e2: int): set<Rel> {
    var ms := Matches(relation, layers, anedge);
    (relation - ms) + Retargeted(ms, e1) + Retargeted(ms, e2)
  }

  /** relation after ST_ModEdgesSplit: each matching row stays and gains a
      same-sign row for the new edge. */
  function ModSplitRelation(relation: set<Rel>, layers: map<int, Layer>, anedge: int, newid: int): set<Rel> {
    relation + Retargeted(Matches(relation, layers, anedge), newid)
  }

  /** After ST_NewEdgesSplit no matching row is left; every other row is
      kept; and every matching row has its two replacements. */
  lemma SplitRelationProperties(relation: set<Rel>, layers: map<int, Layer>, anedge: int, e1: int, e2: int)
    requires anedge > 0 && e1 > 0 && e2 > 0 && e1 != anedge && e2 != anedge
    ensures Matches(SplitRelation(relation, layers, anedge, e1, e2), layers, anedge) == {}
    ensures forall r :: r in relation && r !in Matches(relation, layers, anedge) ==> r in SplitRelation(relation, layers, anedge, e1, e2)
    ensures forall r :: r in Matches(relation, layers, anedge) ==>
      Rel(r.topogeo, r.layer, Signed(r, e1), 2) in SplitRelation(relation, layers, anedge, e1, e2)
      && Rel(r.topogeo, r.layer, Signed(r, e2), 2) in SplitRelation(relation, layers, anedge, e1, e2)
  {
    var s := SplitRelation(relation, layers, anedge, e1, e2);
    var ms := Matches(relation, layers, anedge);
    forall r | r in Matches(s, layers, anedge)
      ensures false
    {
    }
  }

  // ---------------------------------------------------------------------
  // Isolated edges

  /** Some edge other than anedge starts or ends at node n. */
  predicate Touched(edges: map<int, Edge>, n: int, anedge: int) {
    exists id :: id in edges && id != anedge && (edges[id].start == n || edges[id].end == n)
  }

  /** ST_RemoveIsoEdge's checks: the edge exists, has the same face on both
      sides, and no other edge shares one of its nodes. */
  predicate Removable(edges: map<int, Edge>, anedge: int) {
    anedge in edges
    && edges[anedge].leftFace == edges[anedge].rightFace
    && !Touched(edges, edges[anedge].start, anedge)
    && !Touched(edges, edges[anedge].end, anedge)
  }

  /** The row ST_AddIsoEdge inserts: it turns back onto itself at both
      ends, and the face on both sides is the nodes' face (0 when NULL). */
  function IsoEdgeRow(anode: int, anothernode: int, edgeid: int, face: Option<int>): Edge {
    var f := if face.None? then 0 else face.value;
    EdgeRow(anode, anothernode, -edgeid, edgeid, f, f)
  }

  /** An edge added between two isolated nodes can be removed again, and
      removing it gives back the edge table it was added to. */
  lemma AddThenRemoveIsoEdge(edges: map<int, Edge>, anode: int, anothernode: int, edgeid: int, face: Option<int>)
    requires edgeid !in edges
    requires !Touched(edges, anode, edgeid) && !Touched(edges, anothernode, edgeid)
    ensures Removable(edges[edgeid := IsoEdgeRow(anode, anothernode, edgeid, face)], edgeid)
    ensures edges[edgeid := IsoEdgeRow(anode, anothernode, edgeid, face)] - {edgeid} == edges
  {
  }

  // ---------------------------------------------------------------------
  // Layer and TopoGeometry types

  /** AddTopoGeometryColumn's layer type names. */
  function LayerTypeCode(ltype: string): Option<int> {
    if ltype == "POINT" then Some(1)
    else if ltype == "LINE" then Some(2)
    else if ltype == "POLYGON" then Some(3)
    else if ltype == "COLLECTION" then Some(4)
    else None
  }

  function LayerTypeName(code: int): string
    requires 1 <= code <= 4
  {
    match code
    case 1 => "POINT"
    case 2 => "LINE"
    case 3 => "POLYGON"
    case _ => "COLLECTION"
  }

  /** The type names and codes 1..4 correspond one to one, and every other
      name is refused. */
  lemma LayerTypeCodeIff(ltype: string)
    ensures LayerTypeCode(ltype).Some? ==>
      1 <= LayerTypeCode(ltype).value <= 4 && LayerTypeName(LayerTypeCode(ltype).value) == ltype
    ensures LayerTypeCode(ltype).None? <==> ltype !in ["POINT", "LINE", "POLYGON", "COLLECTION"]
    ensures forall c :: 1 <= c <= 4 ==> LayerTypeCode(LayerTypeName(c)) == Some(c)
  {
    forall c | 1 <= c <= 4
      ensures LayerTypeCode(LayerTypeName(c)) == Some(c)
    {
      if c == 1 {
      } else if c == 2 {
      } else if c == 3 {
      } else {
      }
    }
  }

  /** Edge ids come from a SERIAL column. */
  predicate PositiveIds(edges: map<int, Edge>) {
    forall e :: e in edges ==> e > 0
  }

  predicate LayersOk(layers: map<int, Layer>) {
    forall l :: l in layers ==> LayerOk(layers[l])
  }

  /** A layer has a child exactly when it is above level 0. */
  predicate LayerOk(layer: Layer) {
    layer.level >= 0 && (layer.level > 0 <==> layer.child.Some?)
  }

  /** CreateTopoGeom's per-element rule: at level 0 the element type must
      match the TopoGeometry type unless that is a collection; above level
      0 it names the child layer. */
  predicate ElementFits(layer: Layer, tgType: int, objType: int) {
    if layer.level == 0 then tgType == 4 || tgType == objType
    else layer.child == Some(objType)
  }

  /** The relation table is UNIQUE(layer_id, topogeo_id, element_id,
      element_type): the INSERT for element k fails when its row is
      already stored or an earlier element is the same pair. */
  predicate RowTaken(stored: set<Rel>, newid: int, layerId: int, objs: seq<(int, int)>, k: int)
    requires 0 <= k < |objs|
  {
    Rel(newid, layerId, objs[k].0, objs[k].1) in stored
    || exists l :: 0 <= l < k && objs[l] == objs[k]
  }

  /** When CreateTopoGeom's element loop raises: an element the layer does
      not accept, or an element whose relation row breaks the UNIQUE
      constraint. */
  predicate ElementsRefused(layer: Layer, stored: set<Rel>, tgType: int, layerId: int, objs: seq<(int, int)>, newid: int) {
    exists k :: 0 <= k < |objs| && (!ElementFits(layer, tgType, objs[k].1) || RowTaken(stored, newid, layerId, objs, k))
  }

  /** When CreateTopoGeom raises: a type outside 1..4, an unknown layer, a
      layer whose type admits neither this type nor collections, no
      elements, or an element refused by the loop. */
  predicate CreateRefused(layers: map<int, Layer>, stored: set<Rel>, tgType: int, layerId: int, objs: seq<(int, int)>, newid: int) {
    !(1 <= tgType <= 4) || layerId !in layers
    || (layers[layerId].featureType != 4 && layers[layerId].featureType != tgType)
    || |objs| == 0
    || ElementsRefused(layers[layerId], stored, tgType, layerId, objs, newid)
  }

  /** The relation rows CreateTopoGeom inserts for its elements. */
  function ElementRows(newid: int, layerId: int, objs: seq<(int, int)>): set<Rel> {
    set k | 0 <= k < |objs| :: Rel(newid, layerId, objs[k].0, objs[k].1)
  }

  /** CreateTopoGeom's element loop over the stored relation rows: the
      new rows, one per element and none already stored, or the error of
      the first element that does not fit the layer or whose INSERT breaks
      the UNIQUE constraint. */
  method CheckedRows(layer: Layer, stored: set<Rel>, tgType: int, layerId: int, objs: seq<(int, int)>, newid: int)
    returns (rows: Result<set<Rel>>)
    ensures rows.Err? <==> ElementsRefused(layer, stored, tgType, layerId, objs, newid)
    ensures rows.Ok? ==> rows.value == ElementRows(newid, layerId, objs)
    ensures rows.Ok? ==> |rows.value| == |objs| && rows.value !! stored
  {
    var acc: set<Rel> := {};
    var i := 0;
    while i < |objs|
      invariant 0 <= i <= |objs|
      invariant acc == ElementRows(newid, layerId, objs[..i])
      invariant |acc| == i && acc !! stored
      invariant forall k :: 0 <= k < i ==> ElementFits(layer, tgType, objs[k].1) && !RowTaken(stored, newid, layerId, objs, k)
    {
      var (objId, objType) := objs[i];
      if !ElementFits(layer, tgType, objType) {
        return Err(ELEMENT_MISMATCH);
      }
      var row := Rel(newid, layerId, objId, objType);
      ElementRowsPrefixHas(newid, layerId, objs, i);
      if row in stored || row in acc {
        assert RowTaken(stored, newid, layerId, objs, i);
        return Err(DUPLICATE_KEY);
      }
      ElementRowsSnoc(newid, layerId, objs, i);
      acc := acc + {row};
      i := i + 1;
    }
    assert objs[..i] == objs;
    return Ok(acc);
  }

  /** An element given twice makes CreateTopoGeom raise: the second
      INSERT repeats the first one's row. */
  lemma RepeatedElementRefused(layers: map<int, Layer>, stored: set<Rel>, tgType: int, layerId: int,
                               objs: seq<(int, int)>, newid: int, k: int, l: int)
    requires 0 <= k < l < |objs| && objs[k] == objs[l]
    ensures CreateRefused(layers, stored, tgType, layerId, objs, newid)
  {
    if 1 <= tgType <= 4 && layerId in layers {
      assert RowTaken(stored, newid, layerId, objs, l);
      assert !ElementFits(layers[layerId], tgType, objs[l].1) || RowTaken(stored, newid, layerId, objs, l);
    }
  }

  /** Element i's row is among those of the elements before it exactly
      when one of them is the same pair. */
  lemma ElementRowsPrefixHas(newid: int, layerId: int, objs: seq<(int, int)>, i: int)
    requires 0 <= i < |objs|
    ensures Rel(newid, layerId, objs[i].0, objs[i].1) in ElementRows(newid, layerId, objs[..i])
      <==> exists l :: 0 <= l < i && objs[l] == objs[i]
  {
    var x := Rel(newid, layerId, objs[i].0, objs[i].1);
    if x in ElementRows(newid, layerId, objs[..i]) {
      var l :| 0 <= l < i && x == Rel(newid, layerId, objs[..i][l].0, objs[..i][l].1);
      assert objs[..i][l] == objs[l];
    }
    if exists l :: 0 <= l < i && objs[l] == objs[i] {
      var l :| 0 <= l < i && objs[l] == objs[i];
      assert objs[..i][l] == objs[l];
    }
  }

  lemma ElementRowsSnoc(newid: int, layerId: int, objs: seq<(int, int)>, i: int)
    requires 0 <= i < |objs|
    ensures ElementRows(newid, layerId, objs[..i + 1])
      == ElementRows(newid, layerId, objs[..i]) + {Rel(newid, layerId, objs[i].0, objs[i].1)}
  {
    var a := ElementRows(newid, layerId, objs[..i + 1]);
    var b := ElementRows(newid, layerId, objs[..i]) + {Rel(newid, layerId, objs[i].0, objs[i].1)};
    forall x | x in a ensures x in b {
      var k :| 0 <= k < i + 1 && x == Rel(newid, layerId, objs[..i + 1][k].0, objs[..i + 1][k].1);
      if k < i {
        assert objs[..i + 1][k] == objs[..i][k];
      }
    }
    forall x | x in b ensures x in a {
      if x != Rel(newid, layerId, objs[i].0, objs[i].1) {
        var k :| 0 <= k < i && x == Rel(newid, layerId, objs[..i][k].0, objs[..i][k].1);
        assert objs[..i + 1][k] == objs[..i][k];
      } else {
        assert objs[..i + 1][i] == objs[i];
      }
    }
  }

  // ---------------------------------------------------------------------
  // intersects and equals on TopoGeometries

  /** intersects(): the checks and the argument swap before the per-type
      tests; a hierarchical layer is refused. */

  function IntersectsOrder(tg1: TopoGeom, tg2: TopoGeom, layers: map<int, Layer>): (r: Result<(TopoGeom, TopoGeom)>)
    ensures r.Err? <==> (tg1.topology != tg2.topology || (if tg1.typ > tg2.typ then tg1.typ else tg2.typ) == 4
      || (tg1.layer in layers && layers[tg1.layer].level > 0) || (tg2.layer in layers && layers[tg2.layer].level > 0))
    ensures r.Ok? ==> r.value.0.typ <= r.value.1.typ && (r.value == (tg1, tg2) || r.value == (tg2, tg1))
  {
    if tg1.topology != tg2.topology then Err(INTERSECTS_TOPOLOGIES)
    else
      var a := if tg1.typ > tg2.typ then tg2 else tg1;
      var b := if tg1.typ > tg2.typ then tg1 else tg2;
      if b.typ == 4 then Err(INTERSECTS_COLLECTION)
      else if (a.layer in layers && layers[a.layer].level > 0) || (b.layer in layers && layers[b.layer].level > 0) then
        Err(INTERSECTS_HIERARCHICAL)
      else Ok((a, b))
  }

  /** The pair handed to the per-type tests is the two arguments, ordered by
      type, with no collection; swapping the arguments gives the same pair
      unless the types tie. */
  lemma IntersectsOrderProperties(tg1: TopoGeom, tg2: TopoGeom, layers: map<int, Layer>)
    ensures IntersectsOrder(tg1, tg2, layers).Ok? ==>
      var (a, b) := IntersectsOrder(tg1, tg2, layers).value;
      a.typ <= b.typ && b.typ != 4 && ((a, b) == (tg1, tg2) || (a, b) == (tg2, tg1))
    ensures 1 <= tg1.typ <= 4 && 1 <= tg2.typ <= 4 && (tg1.typ == 4 || tg2.typ == 4) ==>
      IntersectsOrder(tg1, tg2, layers).Err?
  {
  }

  /** Swapping the arguments of intersects() changes nothing but the order
      of two TopoGeometries of the same type. */
  lemma IntersectsOrderSymmetric(tg1: TopoGeom, tg2: TopoGeom, layers: map<int, Layer>)
    ensures IntersectsOrder(tg1, tg2, layers).Err? <==> IntersectsOrder(tg2, tg1, layers).Err?
    ensures tg1.typ != tg2.typ ==> IntersectsOrder(tg1, tg2, layers) == IntersectsOrder(tg2, tg1, layers)
  {
  }

  /** equals(): different types are never equal; otherwise the element sets
      are compared both ways with EXCEPT. The element sets are what
      GetTopoGeomElements returns. */
  function TopoEquals(tg1: TopoGeom, tg2: TopoGeom, elems1: set<(int, int)>, elems2: set<(int, int)>): (r: Result<bool>)
    ensures r.Err? <==> tg1.topology != tg2.topology || (tg1.typ == tg2.typ && tg1.typ == 4)
    ensures r.Ok? && tg1.typ != tg2.typ ==> r == Ok(false)
    ensures r.Ok? && elems1 != elems2 ==> r == Ok(false)
  {
    if tg1.topology != tg2.topology then Err(EQUALS_TOPOLOGIES)
    else if tg1.typ != tg2.typ then Ok(false)
    else if tg2.typ == 4 then Err(EQUALS_COLLECTION)
    else if elems1 - elems2 != {} then Ok(false)
    else if elems2 - elems1 != {} then Ok(false)
    else Ok(true)
  }

  /** equals holds exactly for two non-collection TopoGeometries of one
      type with the same elements, and it does not depend on argument
      order. */
  lemma TopoEqualsIff(tg1: TopoGeom, tg2: TopoGeom, elems1: set<(int, int)>, elems2: set<(int, int)>)
    ensures TopoEquals(tg1, tg2, elems1, elems2) == Ok(true) <==>
      tg1.topology == tg2.topology && tg1.typ == tg2.typ && tg1.typ != 4 && elems1 == elems2
    ensures TopoEquals(tg1, tg2, elems1, elems2) == TopoEquals(tg2, tg1, elems2, elems1)
  {
    if elems1 - elems2 == {} && elems2 - elems1 == {} {
      assert elems1 == elems2 by {
        forall x | x in elems1 ensures x in elems2 {
          assert x !in elems1 - elems2;
        }
        forall x | x in elems2 ensures x in elems1 {
          assert x !in elems2 - elems1;
        }
      }
    }
  }

  // ---------------------------------------------------------------------
  // The tables

  class Topology {
    const id: int
    var edges: map<int, Edge>
    var nodes: map<int, Node>
    var layers: map<int, Layer>
    var relation: set<Rel>

    /** Edge ids come from a SERIAL column and so are positive; the abs
        columns agree with the signed ones; a layer has a child exactly when
        it is above level 0. */
    predicate Valid()
      reads this
    {
      PositiveIds(edges) && AllAbsConsistent(edges) && LayersOk(layers)
    }

    /** A topology with no edges, nodes, layers or relations. */
    constructor (id: int)
      ensures Valid()
      ensures this.id == id && edges == map[] && nodes == map[] && layers == map[] && relation == {}
    {
      this.id := id;
      edges := map[];
      nodes := map[];
      layers := map[];
      relation := {};
    }

    /** AddTopoGeometryColumn's layer row. layerId is the next value of the
        layer sequence. A missing child layer leaves level NULL, which makes
        the INSERT text NULL and so an error. */
    method AddTopoGeometryColumn(ltype: string, child: Option<int>, layerId: int) returns (r: Result<int>)
      requires Valid() && layerId !in layers
      modifies this
      ensures Valid()
      ensures r.Err? <==> LayerTypeCode(ltype).None? || (child.Some? && child.value !in old(layers))
      ensures r.Err? ==> layers == old(layers)
      ensures r.Ok? ==> r.value == layerId && layers == old(layers)[layerId := Layer(
        LayerTypeCode(ltype).value,
        if child.None? then 0 else old(layers)[child.value].level + 1,
        child)]
      ensures edges == old(edges) && nodes == old(nodes) && relation == old(relation)
    {
      assert forall l :: l in layers ==> LayerOk(layers[l]);
      var intltype := LayerTypeCode(ltype);
      if intltype.None? {
        return Err(BAD_LAYER_TYPE);
      }
      if child.None? {
        layers := layers[layerId := Layer(intltype.value, 0, None)];
      } else {
        if child.value !in layers {
          return Err(NULL_QUERY);
        }
        var level := layers[child.value].level + 1;
        layers := layers[layerId := Layer(intltype.value, level, child)];
      }
      return Ok(layerId);
    }

    /** CreateTopoGeom. newid is the next value of the layer's TopoGeometry
        sequence. It checks each element as it inserts its relation row,
        which the UNIQUE constraint refuses when it already exists; an
        error rolls the whole call back, so the rows are collected and
        stored only when every element passed. An empty element array runs the
        loop once with NULL values and fails on the NULL INSERT text. */
    method CreateTopoGeom(tgType: int, layerId: int, objs: seq<(int, int)>, newid: int) returns (r: Result<TopoGeom>)
      requires Valid()
      modifies this
      ensures Valid()
      ensures r.Err? <==> CreateRefused(old(layers), old(relation), tgType, layerId, objs, newid)
      ensures r.Err? ==> relation == old(relation)
      ensures r.Ok? ==> (r.value == TopoGeom(id, layerId, newid, tgType)
        && relation == old(relation) + ElementRows(newid, layerId, objs)
        && |relation| == |old(relation)| + |objs|)
      ensures edges == old(edges) && nodes == old(nodes) && layers == old(layers)
    {
      if tgType < 1 || tgType > 4 {
        return Err(BAD_TOPOGEOM_TYPE);
      }
      if layerId !in layers {
        return Err(NO_SUCH_LAYER);
      }
      var layer := layers[layerId];
      if layer.featureType != 4 && layer.featureType != tgType {
        return Err(LAYER_TYPE_MISMATCH);
      }
      if |objs| == 0 {
        return Err(NULL_QUERY);
      }
      var rows := CheckedRows(layer, relation, tgType, layerId, objs, newid);
      if rows.Err? {
        return Err(rows.msg);
      }
      relation := relation + rows.value;
      return Ok(TopoGeom(id, layerId, newid, tgType));
    }

    /** ST_NewEdgesSplit. pointOnEdge is within(apoint, edge geometry),
        coincident says whether a node already sits at the point; nodeid,
        e1 and e2 are the next values of the node and edge sequences. */
    method NewEdgesSplit(anedge: int, pointOnEdge: bool, coincident: bool, nodeid: int, e1: int, e2: int)
      returns (r: Result<int>)
      requires Valid()
      requires nodeid !in nodes && e1 !in edges && e2 !in edges && e1 != e2 && e1 > 0 && e2 > 0
      modifies this
      ensures Valid()
      ensures r.Err? <==> anedge !in old(edges) || !pointOnEdge || coincident
      ensures r.Err? ==> edges == old(edges) && nodes == old(nodes) && relation == old(relation)
      ensures r.Ok? ==> (r == Ok(nodeid)
        && nodes == old(nodes)[nodeid := Node(None)]
        && edges == SplitEdges(old(edges), anedge, nodeid, e1, e2)
        && relation == SplitRelation(old(relation), layers, anedge, e1, e2))
      ensures layers == old(layers)
    {
      if anedge !in edges {
        return Err(SQLMM_NO_EDGE);
      }
      var oldedge := edges[anedge];
      if !pointOnEdge {
        return Err(SQLMM_NOT_ON_EDGE);
      }
      if coincident {
        return Err(SQLMM_COINCIDENT_NODE);
      }
      SplitEdgesNoDangling(edges, anedge, nodeid, e1, e2);
      nodes := nodes[nodeid := Node(None)];
      SplitEdgeRows(anedge, nodeid, e1, e2);
      ReplaceRelations(anedge, e1, e2);
      return Ok(nodeid);
    }

    /** The edge_data statements of ST_NewEdgesSplit: delete the old edge,
        insert the halves, then the four UPDATEs. */
    method SplitEdgeRows(anedge: int, nodeid: int, e1: int, e2: int)
      requires anedge in edges
      modifies this
      ensures edges == SplitEdges(old(edges), anedge, nodeid, e1, e2)
      ensures nodes == old(nodes) && layers == old(layers) && relation == old(relation)
    {
      var oldedge := edges[anedge];
      var table := edges - {anedge};
      table := table[e1 := EdgeRow(oldedge.start, nodeid, e2, oldedge.nextRight, oldedge.leftFace, oldedge.rightFace)];
      table := table[e2 := EdgeRow(nodeid, oldedge.end, oldedge.nextLeft, -e1, oldedge.leftFace, oldedge.rightFace)];
      table := RewireRight(table, anedge, e2, e2, {});
      table := RewireRight(table, -anedge, -e1, e1, {});
      table := RewireLeft(table, anedge, e1, e1);
      table := RewireLeft(table, -anedge, -e2, e2);
      edges := table;
    }

    /** The relation loop of ST_NewEdgesSplit over the matching rows. */
    method ReplaceRelations(anedge: int, e1: int, e2: int)
      requires anedge > 0 && e1 > 0 && e2 > 0 && e1 != anedge && e2 != anedge
      modifies this
      ensures relation == SplitRelation(old(relation), layers, anedge, e1, e2)
      ensures edges == old(edges) && nodes == old(nodes) && layers == old(layers)
    {
      var ms := Matches(relation, layers, anedge);
      MatchesShape(relation, layers, anedge);
      var rel := ReplaceRows(relation, ms, anedge, e1, e2);
      relation := rel;
    }

    /** The relation loop of ST_ModEdgesSplit over the matching rows. */
    method AddRelations(anedge: int, newid: int)
      modifies this
      ensures relation == ModSplitRelation(old(relation), layers, anedge, newid)
      ensures edges == old(edges) && nodes == old(nodes) && layers == old(layers)
    {
      var ms := Matches(relation, layers, anedge);
      var rel := AddRows(relation, ms, newid);
      relation := rel;
    }

    /** ST_ModEdgesSplit, in its intended form. */
    method ModEdgesSplit(anedge: int, pointOnEdge: bool, coincident: bool, nodeid: int, newid: int)
      returns (r: Result<int>)
      requires Valid()
      requires nodeid !in nodes && newid !in edges && newid > 0
      modifies this
      ensures Valid()
      ensures r.Err? <==> anedge !in old(edges) || !pointOnEdge || coincident
      ensures r.Err? ==> edges == old(edges) && nodes == old(nodes) && relation == old(relation)
      ensures r.Ok? ==> (r == Ok(nodeid)
        && nodes == old(nodes)[nodeid := Node(None)]
        && edges == ModSplitEdges(old(edges), anedge, nodeid, newid)
        && relation == ModSplitRelation(old(relation), layers, anedge, newid))
      ensures layers == old(layers)
    {
      if anedge !in edges {
        return Err(SQLMM_NO_EDGE);
      }
      var oldedge := edges[anedge];
      if !pointOnEdge {
        return Err(SQLMM_NOT_ON_EDGE);
      }
      if coincident {
        return Err(SQLMM_COINCIDENT_NODE);
      }
      ghost var before := edges;
      nodes := nodes[nodeid := Node(None)];
      var table := edges[newid := EdgeRow(nodeid, oldedge.end, oldedge.nextLeft, -anedge, oldedge.leftFace, oldedge.rightFace)];
      table := table[anedge := oldedge.(nextLeft := newid, absNextLeft := newid, end := nodeid)];
      table := RewireRight(table, -anedge, -newid, newid, {newid});
      table := RewireLeft(table, -anedge, -newid, newid);
      edges := table;
      ModSplitEdgesClean(before, anedge, nodeid, newid);
      AddRelations(anedge, newid);
      return Ok(nodeid);
    }

    /** ST_RemoveIsoEdge. */
    method RemoveIsoEdge(anedge: int) returns (r: Result<()>)
      requires Valid()
      modifies this
      ensures Valid()
      ensures r.Ok? <==> Removable(old(edges), anedge)
      ensures r.Ok? ==> edges == old(edges) - {anedge}
      ensures r.Err? ==> edges == old(edges)
      ensures nodes == old(nodes) && layers == old(layers) && relation == old(relation)
    {
      if anedge !in edges {
        return Err(SQLMM_NO_EDGE);
      }
      var edge := edges[anedge];
      if edge.leftFace != edge.rightFace {
        return Err(SQLMM_EDGE_NOT_ISOLATED);
      }
      if exists id | id in edges :: id != anedge && (edges[id].start == edge.start || edges[id].start == edge.end
                                                     || edges[id].end == edge.start || edges[id].end == edge.end) {
        return Err(SQLMM_EDGE_NOT_ISOLATED);
      }
      edges := edges - {anedge};
      return Ok(());
    }

    /** ST_AddIsoEdge's table checks and insert. anothernodeLast says which
        of the two node rows the scan returned last (its face is the one
        kept when the other is NULL); spatialOk stands for the curve checks;
        edgeid is the next value of the edge sequence. */
    method AddIsoEdge(anode: int, anothernode: int, anothernodeLast: bool, spatialOk: bool, edgeid: int)
      returns (r: Result<int>)
      requires Valid() && edgeid !in edges && edgeid > 0
      modifies this
      ensures Valid()
      ensures r.Ok? <==>
        anode in old(nodes) && anothernode in old(nodes) && anode != anothernode
        && !FacesClash(old(nodes)[anode].face, old(nodes)[anothernode].face)
        && !Touched(old(edges), anode, edgeid) && !Touched(old(edges), anothernode, edgeid)
        && spatialOk
      ensures r.Ok? ==> r.value == edgeid && edges == old(edges)[edgeid := IsoEdgeRow(anode, anothernode, edgeid,
        ScannedFace(old(nodes)[anode].face, old(nodes)[anothernode].face, anothernodeLast))]
      ensures r.Err? ==> edges == old(edges)
      ensures nodes == old(nodes) && layers == old(layers) && relation == old(relation)
    {
      var rows := Scanned(anode, anothernode, anothernodeLast, nodes);
      var count := 0;
      var aface: Option<int> := None;
      while count < |rows|
        invariant 0 <= count <= |rows|
        invariant count > 0 ==> aface == nodes[rows[count - 1]].face
        invariant count >= 2 ==> !FacesClash(nodes[rows[0]].face, nodes[rows[1]].face)
      {
        var face := nodes[rows[count]].face;
        if count > 0 && aface.Some? && face.Some? && aface != face {
          return Err(SQLMM_DIFFERENT_FACES);
        }
        aface := face;
        count := count + 1;
      }
      if count < 2 {
        return Err(SQLMM_NO_NODE);
      }
      if exists id | id in edges :: edges[id].start == anode || edges[id].end == anode
                                    || edges[id].start == anothernode || edges[id].end == anothernode {
        return Err(SQLMM_NODE_NOT_ISOLATED);
      }
      if !spatialOk {
        return Err(SQLMM_INVALID_CURVE);
      }
      var f := if aface.None? then 0 else aface.value;
      edges := edges[edgeid := EdgeRow(anode, anothernode, -edgeid, edgeid, f, f)];
      return Ok(edgeid);
    }
  }

  /** The two nodes' faces differ where both are set (a NULL face compares
      as unknown and raises nothing). */
  predicate FacesClash(f1: Option<int>, f2: Option<int>) {
    f1.Some? && f2.Some? && f1 != f2
  }

  /** The node rows ST_AddIsoEdge's scan returns, in the order given by
      anothernodeLast: the existing nodes among the two, each once. */
  function Scanned(anode: int, anothernode: int, anothernodeLast: bool, nodes: map<int, Node>): (rows: seq<int>)
    ensures forall k :: 0 <= k < |rows| ==> rows[k] in nodes
    ensures |rows| == 2 <==> anode in nodes && anothernode in nodes && anode != anothernode
    ensures |rows| == 2 ==> ({rows[0], rows[1]} == {anode, anothernode}
      && rows[1] == (if anothernodeLast then anothernode else anode))
  {
    var order := if anode == anothernode then [anode]
      else if anothernodeLast then [anode, anothernode] else [anothernode, anode];
    if anode == anothernode then Present(order, nodes)
    else
      assert {order[0], order[1]} == {anode, anothernode};
      Present(order, nodes)
  }

  function Present(ids: seq<int>, nodes: map<int, Node>): (rows: seq<int>)
    ensures forall k :: 0 <= k < |rows| ==> rows[k] in nodes
    ensures |rows| <= |ids|
    ensures |rows| == |ids| <==> forall k :: 0 <= k < |ids| ==> ids[k] in nodes
    ensures |rows| == |ids| ==> rows == ids
  {
    if ids == [] then []
    else if ids[0] in nodes then [ids[0]] + Present(ids[1..], nodes)
    else Present(ids[1..], nodes)
  }

  /** The face ST_AddIsoEdge keeps: that of the node row scanned last. */
  function ScannedFace(f1: Option<int>, f2: Option<int>, anothernodeLast: bool): Option<int> {
    if anothernodeLast then f2 else f1
  }

  /** The DELETE of ST_NewEdgesSplit's relation loop. */
  function DeleteMatching(relation: set<Rel>, layer: int, topogeo: int, etype: int, anedge: int): set<Rel> {
    set r | r in relation && !(r.layer == layer && r.topogeo == topogeo && r.etype == etype && Abs(r.element) == anedge)
  }

  lemma RetargetedAdd(done: set<Rel>, rec: Rel, id: int)
    ensures Retargeted(done + {rec}, id) == Retargeted(done, id) + {Rel(rec.topogeo, rec.layer, Signed(rec, id), rec.etype)}
  {
  }

  /** The matching rows of the topogeometries whose (layer, topogeo) key is
      in keys. */
  function Group(ms: set<Rel>, keys: set<(int, int)>): set<Rel> {
    set m | m in ms && (m.layer, m.topogeo) in keys
  }

  /** The matching rows are edge rows for ±anedge, and every edge row for
      ±anedge in a layer that has a matching row matches too. */
  lemma MatchesShape(relation: set<Rel>, layers: map<int, Layer>, anedge: int)
    ensures RowsFor(Matches(relation, layers, anedge), anedge)
    ensures Closed(relation, Matches(relation, layers, anedge), anedge)
  {
  }

  predicate RowsFor(ms: set<Rel>, anedge: int) {
    forall m :: m in ms ==> m.etype == 2 && Abs(m.element) == anedge
  }

  predicate Closed(start: set<Rel>, ms: set<Rel>, anedge: int) {
    forall r, m :: r in start && m in ms && r.layer == m.layer && r.etype == m.etype && Abs(r.element) == anedge ==> r in ms
  }

  /** ST_NewEdgesSplit's relation loop: for each row of ms it deletes that
      topogeometry's rows for ±anedge and inserts the two same-sign rows for
      the halves. */
  method ReplaceRows(start: set<Rel>, ms: set<Rel>, anedge: int, e1: int, e2: int) returns (rel: set<Rel>)
    requires anedge > 0 && e1 > 0 && e2 > 0 && e1 != anedge && e2 != anedge
    requires ms <= start && RowsFor(ms, anedge) && Closed(start, ms, anedge)
    ensures rel == (start - ms) + Retargeted(ms, e1) + Retargeted(ms, e2)
  {
    rel := start;
    var todo := ms;
    ghost var keys: set<(int, int)> := {};
    while todo != {}
      invariant todo <= ms
      invariant forall d :: d in ms && d !in todo ==> (d.layer, d.topogeo) in keys
      invariant rel == (start - Group(ms, keys)) + Retargeted(ms - todo, e1) + Retargeted(ms - todo, e2)
      decreases |todo|
    {
      var rec :| rec in todo;
      ReplaceStep(start, ms, anedge, e1, e2, keys, ms - todo, rec);
      SetMove(ms, todo, rec);
      rel := DeleteMatching(rel, rec.layer, rec.topogeo, rec.etype, anedge);
      rel := rel + {Rel(rec.topogeo, rec.layer, Signed(rec, e1), rec.etype)};
      rel := rel + {Rel(rec.topogeo, rec.layer, Signed(rec, e2), rec.etype)};
      todo := todo - {rec};
      keys := keys + {(rec.layer, rec.topogeo)};
    }
    GroupAll(ms, keys);
    assert ms - todo == ms;
  }

  lemma SetMove(ms: set<Rel>, todo: set<Rel>, rec: Rel)
    requires rec in todo && todo <= ms
    ensures ms - (todo - {rec}) == (ms - todo) + {rec}
  {
  }

  lemma GroupAll(ms: set<Rel>, keys: set<(int, int)>)
    requires forall d :: d in ms ==> (d.layer, d.topogeo) in keys
    ensures Group(ms, keys) == ms
  {
  }

  /** ST_ModEdgesSplit's relation loop: for each row of ms it adds the
      same-sign row for the new edge. */
  method AddRows(start: set<Rel>, ms: set<Rel>, newid: int) returns (rel: set<Rel>)
    ensures rel == start + Retargeted(ms, newid)
  {
    rel := start;
    var todo := ms;
    ghost var done: set<Rel> := {};
    while todo != {}
      invariant todo + done == ms && todo !! done
      invariant rel == start + Retargeted(done, newid)
      decreases |todo|
    {
      var rec :| rec in todo;
      rel := rel + {Rel(rec.topogeo, rec.layer, Signed(rec, newid), rec.etype)};
      RetargetedAdd(done, rec, newid);
      todo := todo - {rec};
      done := done + {rec};
    }
  }

  /** One pass of ST_NewEdgesSplit's relation loop: the DELETE and the two
      INSERTs move the record from the rows to do to the rows done. */
  lemma ReplaceStep(start: set<Rel>, ms: set<Rel>, anedge: int, e1: int, e2: int,
                    keys: set<(int, int)>, done: set<Rel>, rec: Rel)
    requires anedge > 0 && e1 > 0 && e2 > 0 && e1 != anedge && e2 != anedge
    requires rec in ms && ms <= start && RowsFor(ms, anedge) && Closed(start, ms, anedge)
    ensures DeleteMatching((start - Group(ms, keys)) + Retargeted(done, e1) + Retargeted(done, e2), rec.layer, rec.topogeo, rec.etype, anedge)
        + {Rel(rec.topogeo, rec.layer, Signed(rec, e1), rec.etype)} + {Rel(rec.topogeo, rec.layer, Signed(rec, e2), rec.etype)}
      == (start - Group(ms, keys + {(rec.layer, rec.topogeo)})) + Retargeted(done + {rec}, e1) + Retargeted(done + {rec}, e2)
  {
    DeleteStep(start, ms, anedge, e1, e2, keys, done, rec);
    RetargetedAdd(done, rec, e1);
    RetargetedAdd(done, rec, e2);
    Shuffle(start - Group(ms, keys + {(rec.layer, rec.topogeo)}), Retargeted(done, e1), Retargeted(done, e2),
      Rel(rec.topogeo, rec.layer, Signed(rec, e1), rec.etype), Rel(rec.topogeo, rec.layer, Signed(rec, e2), rec.etype));
  }

  lemma Shuffle(y: set<Rel>, r1: set<Rel>, r2: set<Rel>, a: Rel, b: Rel)
    ensures y + r1 + r2 + {a} + {b} == y + (r1 + {a}) + (r2 + {b})
  {
  }

  /** One DELETE of ST_NewEdgesSplit's relation loop removes exactly the
      rows of ms for the record's topogeometry, and none of the rows the
      loop has inserted so far. */
  lemma DeleteStep(start: set<Rel>, ms: set<Rel>, anedge: int, e1: int, e2: int,
                   keys: set<(int, int)>, done: set<Rel>, rec: Rel)
    requires anedge > 0 && e1 > 0 && e2 > 0 && e1 != anedge && e2 != anedge
    requires rec in ms && ms <= start && RowsFor(ms, anedge) && Closed(start, ms, anedge)
    ensures DeleteMatching((start - Group(ms, keys)) + Retargeted(done, e1) + Retargeted(done, e2), rec.layer, rec.topogeo, rec.etype, anedge)
      == (start - Group(ms, keys + {(rec.layer, rec.topogeo)})) + Retargeted(done, e1) + Retargeted(done, e2)
  {
    var added := Retargeted(done, e1) + Retargeted(done, e2);
    var lhs := DeleteMatching((start - Group(ms, keys)) + Retargeted(done, e1) + Retargeted(done, e2), rec.layer, rec.topogeo, rec.etype, anedge);
    var rhs := (start - Group(ms, keys + {(rec.layer, rec.topogeo)})) + Retargeted(done, e1) + Retargeted(done, e2);
    forall x | x in added
      ensures Abs(x.element) != anedge
    {
      if x in Retargeted(done, e1) {
        var q :| q in done && x == Rel(q.topogeo, q.layer, Signed(q, e1), q.etype);
      } else {
        var q :| q in done && x == Rel(q.topogeo, q.layer, Signed(q, e2), q.etype);
      }
    }
    forall x | x in lhs
      ensures x in rhs
    {
    }
    forall x | x in rhs
      ensures x in lhs
    {
      if x !in added {
        assert x in start && x !in Group(ms, keys);
      }
    }
  }
}
