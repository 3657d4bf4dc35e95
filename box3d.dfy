/** BOX3D: an axis-aligned box with three (min, max) pairs. The text
    parser, expand, combine, the min and max accessors, the box to geometry
    cast and the two-point constructor. */
module Box3D {
  import opened Wrappers

  /** The messages the error paths raise. */
  const NO_BOX3D_PREFIX := "BOX3D parser - doesnt start with BOX3D("
  const PARSE_FAILED := "BOX3D parser - couldnt parse"
  const ARGS_NOT_POINTS := "BOX3D_construct: args must be points"
  const MIXED_SRID := "Operation on mixed SRID geometries"

  /** The value of a BOX3D. */
  datatype Box3 = Box3(xmin: real, ymin: real, zmin: real, xmax: real, ymax: real, zmax: real)

  /** A palloc'd BOX3D whose fields are updated in place. */
  class Box3Ref {
    var xmin: real
    var ymin: real
    var zmin: real
    var xmax: real
    var ymax: real
    var zmax: real

    function Value(): Box3
      reads this
    {
      Box3(xmin, ymin, zmin, xmax, ymax, zmax)
    }

    constructor (v: Box3)
      ensures Value() == v
    {
      xmin, ymin, zmin := v.xmin, v.ymin, v.zmin;
      xmax, ymax, zmax := v.xmax, v.ymax, v.zmax;
    }

    /** expand_box3d: every min decreases by d and every max grows by d. */
    method Expand(d: real)
      modifies this
      ensures Value() == Expanded(old(Value()), d)
    {
      xmin := xmin - d;
      ymin := ymin - d;
      zmin := zmin - d;
      xmax := xmax + d;
      ymax := ymax + d;
      zmax := zmax + d;
    }

    /** The three swaps at the end of BOX3D_in. */
    method Normalise()
      modifies this
      ensures Value() == Normalised(old(Value()))
    {
      if xmin > xmax {
        var tmp := xmin;
        xmin := xmax;
        xmax := tmp;
      }
      if ymin > ymax {
        var tmp := ymin;
        ymin := ymax;
        ymax := tmp;
      }
      if zmin > zmax {
        var tmp := zmin;
        zmin := zmax;
        zmax := tmp;
      }
    }
  }

  /** Every axis has min <= max. */
  predicate Valid(b: Box3) {
    b.xmin <= b.xmax && b.ymin <= b.ymax && b.zmin <= b.zmax
  }

  /** Box a contains box b on every axis. */
  predicate Contains(a: Box3, b: Box3) {
    a.xmin <= b.xmin && b.xmax <= a.xmax
    && a.ymin <= b.ymin && b.ymax <= a.ymax
    && a.zmin <= b.zmin && b.zmax <= a.zmax
  }

  /** LWGEOM_Mind: a when a < b, else b. */
  function Mind(a: real, b: real): (r: real)
    ensures r <= a && r <= b && (r == a || r == b)
  {
    if a < b then a else b
  }

  /** LWGEOM_Maxd: b when b > a, else a. */
  function Maxd(a: real, b: real): (r: real)
    ensures r >= a && r >= b && (r == a || r == b)
  {
    if b > a then b else a
  }

  // ---------------------------------------------------------------------
  // BOX3D_xmin .. BOX3D_zmax

  /** The accessors return the smaller or larger value of the stored pair. */
  function XMin(b: Box3): real { Mind(b.xmin, b.xmax) }
  function YMin(b: Box3): real { Mind(b.ymin, b.ymax) }
  function ZMin(b: Box3): real { Mind(b.zmin, b.zmax) }
  function XMax(b: Box3): real { Maxd(b.xmin, b.xmax) }
  function YMax(b: Box3): real { Maxd(b.ymin, b.ymax) }
  function ZMax(b: Box3): real { Maxd(b.zmin, b.zmax) }

  /** The accessors give the same answers before and after normalisation,
      so they are right on boxes that were never normalised; on a valid box
      they return the stored fields. */
  lemma AccessorsIgnoreOrder(b: Box3)
    ensures XMin(b) <= XMax(b) && YMin(b) <= YMax(b) && ZMin(b) <= ZMax(b)
    ensures var n := Normalised(b);
      XMin(n) == XMin(b) && YMin(n) == YMin(b) && ZMin(n) == ZMin(b)
      && XMax(n) == XMax(b) && YMax(n) == YMax(b) && ZMax(n) == ZMax(b)
    ensures Valid(b) ==>
      XMin(b) == b.xmin && YMin(b) == b.ymin && ZMin(b) == b.zmin
      && XMax(b) == b.xmax && YMax(b) == b.ymax && ZMax(b) == b.zmax
  {
  }

  // ---------------------------------------------------------------------
  // BOX3D_in

  /** The box with each axis's pair swapped when its min exceeds its max. */
  function Normalised(b: Box3): Box3 {
    Box3(if b.xmin > b.xmax then b.xmax else b.xmin,
         if b.ymin > b.ymax then b.ymax else b.ymin,
         if b.zmin > b.zmax then b.zmax else b.zmin,
         if b.xmin > b.xmax then b.xmin else b.xmax,
         if b.ymin > b.ymax then b.ymin else b.ymax,
         if b.zmin > b.zmax then b.zmin else b.zmax)
  }

  /** A normalised box is valid, keeps each axis's two values, and a valid
      box is left alone. */
  lemma NormalisedProperties(b: Box3)
    ensures Valid(Normalised(b))
    ensures var n := Normalised(b);
      n.xmin == Mind(b.xmin, b.xmax) && n.xmax == Maxd(b.xmin, b.xmax)
      && n.ymin == Mind(b.ymin, b.ymax) && n.ymax == Maxd(b.ymin, b.ymax)
      && n.zmin == Mind(b.zmin, b.zmax) && n.zmax == Maxd(b.zmin, b.zmax)
    ensures Valid(b) ==> Normalised(b) == b
  {
  }

  /** What the two sscanf calls of BOX3D_in match: the six-number form, the
      four-number form, or neither. */
  datatype Scan =
    | Six(x1: real, y1: real, z1: real, x2: real, y2: real, z2: real)
    | Four(x1: real, y1: real, x2: real, y2: real)
    | NoMatch

  function Prefix(): string { "BOX3D(" }

  /** BOX3D_in. `scan` is what sscanf reads from `str`. The box starts
      with zmin = zmax = 0, is filled from the scan and then normalised. */
  method BoxIn(str: string, scan: Scan) returns (r: Result<Box3Ref>)
    ensures r.Err? <==> !(|Prefix()| <= |str| && str[..|Prefix()|] == Prefix()) || scan.NoMatch?
    ensures r.Ok? ==> fresh(r.value) && r.value.Value() == Normalised(Scanned(scan))
  {
    if !(|Prefix()| <= |str| && str[..|Prefix()|] == Prefix()) {
      return Err(NO_BOX3D_PREFIX);
    }
    var box := new Box3Ref(Box3(0.0, 0.0, 0.0, 0.0, 0.0, 0.0));
    match scan {
      case Six(x1, y1, z1, x2, y2, z2) =>
        box.xmin, box.ymin, box.zmin := x1, y1, z1;
        box.xmax, box.ymax, box.zmax := x2, y2, z2;
      case Four(x1, y1, x2, y2) =>
        box.xmin, box.ymin := x1, y1;
        box.xmax, box.ymax := x2, y2;
      case NoMatch =>
        return Err(PARSE_FAILED);
    }
    box.Normalise();
    return Ok(box);
  }

  /** The box the matched numbers describe before normalisation; the
      four-number form has z = 0. */
  function Scanned(scan: Scan): Box3
    requires !scan.NoMatch?
  {
    match scan
    case Six(x1, y1, z1, x2, y2, z2) => Box3(x1, y1, z1, x2, y2, z2)
    case Four(x1, y1, x2, y2) => Box3(x1, y1, 0.0, x2, y2, 0.0)
  }

  /** A parsed box is valid, and the four-number form gives a flat box at
      z = 0. */
  lemma ParsedBoxes(scan: Scan)
    requires !scan.NoMatch?
    ensures Valid(Normalised(Scanned(scan)))
    ensures scan.Four? ==> Normalised(Scanned(scan)).zmin == 0.0 && Normalised(Scanned(scan)).zmax == 0.0
  {
    NormalisedProperties(Scanned(scan));
  }

  // ---------------------------------------------------------------------
  // expand_box3d, BOX3D_expand

  function Expanded(b: Box3, d: real): Box3 {
    Box3(b.xmin - d, b.ymin - d, b.zmin - d, b.xmax + d, b.ymax + d, b.zmax + d)
  }

  /** Expanding by a distance that is not negative gives a box containing the
      original; expanding by d and then by -d gives the original back. */
  lemma ExpandedContains(b: Box3, d: real)
    ensures d >= 0.0 ==> Contains(Expanded(b, d), b)
    ensures d <= 0.0 ==> Contains(b, Expanded(b, d))
    ensures Expanded(Expanded(b, d), -d) == b
  {
  }

  /** BOX3D_expand: a copy of the box, expanded; the argument is unchanged. */
  method BoxExpand(box: Box3Ref, d: real) returns (result: Box3Ref)
    ensures fresh(result)
    ensures result.Value() == Expanded(box.Value(), d)
  {
    result := new Box3Ref(box.Value());
    result.Expand(d);
  }

  // ---------------------------------------------------------------------
  // BOX3D_combine

  /** The per-field min of the mins and max of the maxes. */
  function Union(a: Box3, b: Box3): Box3 {
    Box3(Mind(a.xmin, b.xmin), Mind(a.ymin, b.ymin), Mind(a.zmin, b.zmin),
         Maxd(a.xmax, b.xmax), Maxd(a.ymax, b.ymax), Maxd(a.zmax, b.zmax))
  }

  /** The union contains both boxes and is the smallest box that does; it
      does not depend on the order of its arguments or their grouping. */
  lemma UnionProperties(a: Box3, b: Box3, c: Box3)
    ensures Contains(Union(a, b), a) && Contains(Union(a, b), b)
    ensures Contains(c, a) && Contains(c, b) ==> Contains(c, Union(a, b))
    ensures Union(a, b) == Union(b, a)
    ensures Union(Union(a, b), c) == Union(a, Union(b, c))
  {
  }

  /** BOX3D_combine. `box` is the BOX3D argument (None for NULL); `geom` is
      the geometry argument: None for NULL, Some(None) for a geometry whose
      box cannot be computed (empty), Some(Some(g)) for one with box g. */
  function Combine(box: Option<Box3>, geom: Option<Option<Box3>>): (r: Option<Box3>)
    ensures box.None? && geom.None? ==> r.None?
    ensures box.None? && geom.Some? ==> r == geom.value
    ensures box.Some? && (geom.None? || geom.value.None?) ==> r == box
    ensures box.Some? && geom.Some? && geom.value.Some? ==>
      r.Some? && Contains(r.value, box.value) && Contains(r.value, geom.value.value)
  {
    if box.None? && geom.None? then None
    else if box.None? then geom.value
    else if geom.None? then box
    else if geom.value.None? then box
    else Some(Union(box.value, geom.value.value))
  }

  // ---------------------------------------------------------------------
  // BOX3D_to_LWGEOM

  datatype Point2 = Point2(x: real, y: real)

  /** The geometry BOX3D_to_LWGEOM builds: SRID -1, no cached box. */
  datatype LwGeom =
    | LwPoint(srid: int, hasBBox: bool, p: Point2)
    | LwLine(srid: int, hasBBox: bool, points: seq<Point2>)
    | LwPolygon(srid: int, hasBBox: bool, rings: seq<seq<Point2>>)

  /** The vertices of a geometry. */
  function Vertices(g: LwGeom): seq<Point2> {
    match g
    case LwPoint(_, _, p) => [p]
    case LwLine(_, _, pts) => pts
    case LwPolygon(_, _, rings) => if |rings| == 0 then [] else rings[0]
  }

  /** Twice the signed area of a closed ring by the shoelace formula:
      positive when the ring runs counter-clockwise. */
  function TwiceSignedArea(ring: seq<Point2>): real
    decreases |ring|
  {
    if |ring| < 2 then 0.0
    else ring[0].x * ring[1].y - ring[1].x * ring[0].y + TwiceSignedArea(ring[1..])
  }

  /** The ring BOX3D_to_LWGEOM builds for a box runs clockwise. */
  lemma BoxRingClockwise(xmin: real, ymin: real, xmax: real, ymax: real)
    ensures TwiceSignedArea([Point2(xmin, ymin), Point2(xmin, ymax), Point2(xmax, ymax), Point2(xmax, ymin), Point2(xmin, ymin)])
      == -2.0 * (xmax - xmin) * (ymax - ymin)
  {
    var ring := [Point2(xmin, ymin), Point2(xmin, ymax), Point2(xmax, ymax), Point2(xmax, ymin), Point2(xmin, ymin)];
    assert TwiceSignedArea(ring[4..]) == 0.0;
    assert ring[3..][1..] == ring[4..];
    assert TwiceSignedArea(ring[3..]) == xmax * ymin - xmin * ymin;
    assert ring[2..][1..] == ring[3..];
    assert TwiceSignedArea(ring[2..]) == xmax * ymin - xmax * ymax + xmax * ymin - xmin * ymin;
    assert ring[1..][1..] == ring[2..];
    assert TwiceSignedArea(ring[1..]) == xmin * ymax - xmax * ymax + xmax * ymin - xmax * ymax + xmax * ymin - xmin * ymin;
  }

  /** BOX3D_to_LWGEOM: a point when both axes are degenerate, a two-point
      line when exactly one is, and otherwise a closed five-point ring
      around the box, starting at its lower-left corner and running
      clockwise (its signed area is minus the box's area when xmin < xmax
      and ymin < ymax). */
  method ToLwgeom(box: Box3) returns (g: LwGeom)
    ensures g.srid == -1 && !g.hasBBox
    ensures g.LwPoint? <==> box.xmin == box.xmax && box.ymin == box.ymax
    ensures g.LwLine? <==> (box.xmin == box.xmax) != (box.ymin == box.ymax)
    ensures g.LwPoint? ==> g.p == Point2(box.xmin, box.ymin)
    ensures g.LwLine? ==> g.points == [Point2(box.xmin, box.ymin), Point2(box.xmax, box.ymax)]
    ensures g.LwPolygon? ==> g.rings == [[Point2(box.xmin, box.ymin), Point2(box.xmin, box.ymax),
      Point2(box.xmax, box.ymax), Point2(box.xmax, box.ymin), Point2(box.xmin, box.ymin)]]
    ensures g.LwPolygon? ==>
      TwiceSignedArea(g.rings[0]) == -2.0 * (box.xmax - box.xmin) * (box.ymax - box.ymin)
    ensures forall v :: v in Vertices(g) ==>
      (v.x == box.xmin || v.x == box.xmax) && (v.y == box.ymin || v.y == box.ymax)
    ensures forall cx, cy :: (cx == box.xmin || cx == box.xmax) && (cy == box.ymin || cy == box.ymax) ==>
      Point2(cx, cy) in Vertices(g)
  {
    if box.xmin == box.xmax && box.ymin == box.ymax {
      g := LwPoint(-1, false, Point2(box.xmin, box.ymin));
    } else if box.xmin == box.xmax || box.ymin == box.ymax {
      var pts := new Point2[2];
      pts[0] := Point2(box.xmin, box.ymin);
      pts[1] := Point2(box.xmax, box.ymax);
      assert pts[..] == [pts[0], pts[1]];
      g := LwLine(-1, false, pts[..]);
    } else {
      var pts := new Point2[5];
      pts[0] := Point2(box.xmin, box.ymin);
      pts[1] := Point2(box.xmin, box.ymax);
      pts[2] := Point2(box.xmax, box.ymax);
      pts[3] := Point2(box.xmax, box.ymin);
      pts[4] := Point2(box.xmin, box.ymin);
      assert pts[..] == [pts[0], pts[1], pts[2], pts[3], pts[4]];
      BoxRingClockwise(box.xmin, box.ymin, box.xmax, box.ymax);
      g := LwPolygon(-1, false, [pts[..]]);
    }
  }

  // ---------------------------------------------------------------------
  // BOX3D_construct

  /** The deserialized argument of BOX3D_construct: a point (z is None when
      the point has no Z; getPoint3dz_p then reads 0) or any other type. */
  datatype Arg = PointArg(srid: int, x: real, y: real, z: Option<real>) | OtherArg(srid: int)

  function ZOf(p: Arg): real
    requires p.PointArg?
  {
    if p.z.Some? then p.z.value else 0.0
  }

  /** BOX3D_construct: both arguments must be points with the same SRID; the
      min corner comes from the first, the max corner from the second, and
      the box is not normalised. */
  function Construct(minp: Arg, maxp: Arg): (r: Result<Box3>)
    ensures r.Ok? <==> minp.PointArg? && maxp.PointArg? && minp.srid == maxp.srid
    ensures r.Ok? ==>
      r.value.xmin == minp.x && r.value.ymin == minp.y && r.value.zmin == ZOf(minp)
      && r.value.xmax == maxp.x && r.value.ymax == maxp.y && r.value.zmax == ZOf(maxp)
    ensures r.Ok? ==>
      XMin(r.value) == Mind(minp.x, maxp.x) && XMax(r.value) == Maxd(minp.x, maxp.x)
      && YMin(r.value) == Mind(minp.y, maxp.y) && YMax(r.value) == Maxd(minp.y, maxp.y)
      && ZMin(r.value) == Mind(ZOf(minp), ZOf(maxp)) && ZMax(r.value) == Maxd(ZOf(minp), ZOf(maxp))
    ensures r.Ok? ==> (Valid(r.value) <==> minp.x <= maxp.x && minp.y <= maxp.y && ZOf(minp) <= ZOf(maxp))
  {
    if !minp.PointArg? || !maxp.PointArg? then Err(ARGS_NOT_POINTS)
    else if minp.srid != maxp.srid then Err(MIXED_SRID)
    else Ok(Box3(minp.x, minp.y, ZOf(minp), maxp.x, maxp.y, ZOf(maxp)))
  }

  /** The constructed box is not normalised: two points of one SRID given
      in the wrong order on some axis give an invalid box, whose min corner
      is still the first point. */
  lemma ConstructKeepsOrder(minp: Arg, maxp: Arg)
    requires minp.PointArg? && maxp.PointArg? && minp.srid == maxp.srid
    requires minp.x > maxp.x || minp.y > maxp.y || ZOf(minp) > ZOf(maxp)
    ensures Construct(minp, maxp).Ok?
    ensures !Valid(Construct(minp, maxp).value)
    ensures Construct(minp, maxp).value.xmin == minp.x && XMin(Construct(minp, maxp).value) == Mind(minp.x, maxp.x)
  {
  }
}
